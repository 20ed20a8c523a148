/** What a seeded catalog renders: the translation on disk, else the lexicon's, else English. */
module SeedLaws {
  import opened Json
  import opened Addressing
  import opened Allowlist
  import opened Overlay
  import opened OverlayLaws
  import opened MergeLaws
  import opened Seed

  /** `f` has values only where the source has one of the same kind, id-addressable
      arrays being keyed and in place: the shape of what the seeder makes of a lexicon. */
  ghost predicate Mirrors(s: Json, f: Json)
    decreases f
  {
    || f.Nullish()
    || (match (s, f)
        case (Arr(ss), Arr(ff)) =>
          && |ff| <= |ss|
          && (IdAddressable(ss) ==> InPlace(ss, ff))
          && (forall i :: 0 <= i < |ff| ==> Mirrors(ss[i], ff[i]))
        case (Obj(ss), Obj(ff)) => ff.Keys <= ss.Keys && forall k :: k in ff ==> Mirrors(ss[k], ff[k])
        case (Str(_), Str(_)) => true
        case _ => false)
  }

  /** Every array over an id-addressable source array has its entries in place, or holds
      nothing the source could address. */
  ghost predicate Placed(s: Json, a: Json)
    decreases a
  {
    match (s, a)
    case (Arr(ss), Arr(aa)) =>
      && (IdAddressable(ss) ==> InPlace(ss, aa) || NothingPlaced(ss, aa))
      && (forall i :: 0 <= i < |aa| && i < |ss| ==> Placed(ss[i], aa[i]))
    case (Obj(ss), Obj(aa)) => forall k :: k in aa && k in ss ==> Placed(ss[k], aa[k])
    case _ => true
  }

  ghost predicate NothingPlaced(s: seq<Json>, a: seq<Json>) {
    !HasIds(a) && forall i :: 0 <= i < |a| && i < |s| ==> !a[i].Obj?
  }

  lemma {:induction false} PlacedIsAligned(s: Json, a: Json)
    requires Placed(s, a)
    ensures Aligned(s, a)
    decreases a
  {
    if s.Arr? && a.Arr? {
      forall i | 0 <= i < |a.items| && i < |s.items| { PlacedIsAligned(s.items[i], a.items[i]); }
    } else if s.Obj? && a.Obj? {
      forall k | k in a.fields && k in s.fields { PlacedIsAligned(s.fields[k], a.fields[k]); }
    }
  }

  lemma {:induction false} PlacedIsStamped(s: Json, a: Json)
    requires Placed(s, a)
    ensures Stamp(s, a) == a
    decreases a
  {
    if s.Arr? && a.Arr? {
      var ss, aa := s.items, a.items;
      forall i | 0 <= i < |aa| ensures StampEntry(ss, aa, i) == aa[i] {
        if i < |ss| { PlacedIsStamped(ss[i], aa[i]); }
        if IdAddressable(ss) {
          StampEntryByOwner(ss, aa, i);
          if i < |ss| { FindSelf(ss, i); }
          if HasId(aa[i]) { assert HasIds(aa); }
        }
      }
      assert StampItems(ss, aa) == aa;
    } else if s.Obj? && a.Obj? {
      forall k | k in a.fields && k in s.fields { PlacedIsStamped(s.fields[k], a.fields[k]); }
      assert Stamp(s, a).fields == a.fields;
    }
  }

  // ---- The seed mirrors its source ------------------------------------------

  lemma {:induction false} MirrorsIsPlaced(s: Json, f: Json)
    requires Mirrors(s, f)
    ensures Placed(s, f)
    decreases f
  {
    if s.Arr? && f.Arr? {
      forall i | 0 <= i < |f.items| && i < |s.items| { MirrorsIsPlaced(s.items[i], f.items[i]); }
    } else if s.Obj? && f.Obj? {
      forall k | k in f.fields && k in s.fields { MirrorsIsPlaced(s.fields[k], f.fields[k]); }
    }
  }

  lemma {:induction false} SeedHasNoId(s: Json, lex: Lexicon)
    ensures !HasId(SeedNode(s, lex))
    ensures !s.Arr? && !s.Obj? ==> SeedNode(s, lex).Undefined?
    ensures SeedNode(s, lex).Undefined? || (s.Arr? && SeedNode(s, lex).Arr?) || (s.Obj? && SeedNode(s, lex).Obj?)
    decreases s
  {
    if s.Obj? && ID in s.fields { SeedHasNoId(s.fields[ID], lex); }
  }

  lemma {:induction false} SeedMirrors(s: Json, lex: Lexicon)
    ensures Mirrors(s, Stamp(s, SeedNode(s, lex)))
    decreases s, 1
  {
    var x := SeedNode(s, lex);
    SeedHasNoId(s, lex);
    if s.Arr? && x.Arr? {
      var ss, xx := s.items, x.items;
      var f := StampItems(ss, xx);
      assert Stamp(s, x) == Arr(f);
      forall i | 0 <= i < |ss| ensures !HasId(xx[i]) { SeedHasNoId(ss[i], lex); }
      assert !HasIds(xx);
      forall i | 0 <= i < |ss|
        ensures Mirrors(ss[i], f[i])
        ensures IdAddressable(ss) ==> f[i].Nullish() || (HasId(f[i]) && EntryId(f[i]) == EntryId(ss[i]))
      {
        SeedHasNoId(ss[i], lex);
        SeedMirrors(ss[i], lex);
        assert xx[i] == NullIfAbsent(SeedNode(ss[i], lex));
        assert Mirrors(ss[i], Stamp(ss[i], xx[i]));
        if IdAddressable(ss) {
          StampEntryByOwner(ss, xx, i);
          if xx[i].Obj? { MirrorsWithId(ss[i], Stamp(ss[i], xx[i])); }
        }
      }
    } else if s.Obj? && x.Obj? {
      var f := Stamp(s, x).fields;
      forall k | k in f ensures Mirrors(s.fields[k], f[k]) {
        SeedFieldMirrors(k, s.fields[k], lex);
      }
    }
  }

  lemma {:induction false} MirrorsWithId(s: Json, f: Json)
    requires HasId(s) && f.Obj? && Mirrors(s, f)
    ensures Mirrors(s, WithId(f, IdOf(s)))
  {
  }

  lemma {:induction false} SeedFieldMirrors(k: string, v: Json, lex: Lexicon)
    ensures Mirrors(v, Stamp(v, SeedField(k, v, lex)))
    decreases v, 2
  {
    var x := SeedField(k, v, lex);
    if k in STRING_FIELDS && v.Str? {
    } else if k in STRING_VALUE_OBJECTS && v.Obj? {
    } else if k in STRING_ARRAYS && v.Arr? {
      if x.Arr? {
        var f := StampItems(v.items, x.items);
        assert Stamp(v, x) == Arr(f);
        assert !IdAddressable(v.items) by {
          var i :| 0 <= i < |x.items| && !x.items[i].Null?;
          assert x.items[i] == SeedElement(v.items[i], lex);
          assert v.items[i].Str? && !HasId(v.items[i]);
        }
        forall i | 0 <= i < |f| ensures f[i] == x.items[i] && Mirrors(v.items[i], f[i]) {
          assert x.items[i] == SeedElement(v.items[i], lex);
          assert f[i] == Stamp(v.items[i], x.items[i]);
        }
      }
    } else if v.Arr? || v.Obj? {
      SeedMirrors(v, lex);
    }
  }

  // ---- Keeping what exists ---------------------------------------------------

  lemma {:induction false} KeepKind(s: Json, e: Json, f: Json)
    ensures e.Nullish() ==> Keep(s, e, f) == f
    ensures !e.Nullish() ==>
      var k := Keep(s, e, f); k.Arr? == e.Arr? && k.Obj? == e.Obj? && (!e.Arr? && !e.Obj? ==> k == e)
  {
  }

  lemma {:induction false} KeepId(s: Json, e: Json, f: Json)
    ensures e.Obj? && HasId(e) ==> EntryId(Keep(s, e, f)) == EntryId(e)
    ensures !HasId(e) && !HasId(f) ==> !HasId(Keep(s, e, f))
  {
    KeepKind(s, e, f);
    if e.Obj? && Container(e, f).Obj? {
      var c := Container(e, f).fields;
      KeepObj(s, e.fields, f);
      KeptFieldAt(s, e.fields, c, ID);
      KeepKind(SourceField(s, ID), Get(e.fields, ID), Get(c, ID));
    }
    hide Keep;
  }

  /** Pairing by id or by position agrees with what the merger reads on each side. */
  lemma PairIsSlot(s: seq<Json>, e: seq<Json>, f: seq<Json>, i: nat)
    requires i < |s| && Mirrors(Arr(s), Arr(f)) && Stamp(Arr(s), Arr(e)) == Arr(e)
    ensures var x, y := Pair(Arr(s), e, f, e, i), Pair(Arr(s), e, f, f, i);
      && Stamp(s[i], x) == x && Mirrors(s[i], y)
      && (y == Slot(s, f, i) || (y.Nullish() && Slot(s, f, i).Nullish()))
      && (x == Slot(s, e, i) || (HasId(s[i]) && !x.Obj? && !Slot(s, e, i).Obj?))
    ensures IdAddressable(s) && !HasIds(e) && i < |e| ==> !e[i].Obj?
  {
    assert StampItems(s, e) == e;
    if IdAddressable(s) {
      if HasIds(e) {
        EntryIsStamped(s, e, i);
      } else if i < |e| {
        StampEntryByOwner(s, e, i);
        assert StampItems(s, e)[i] == e[i] && !HasId(e[i]);
      }
      if HasIds(f) { SlotInPlace(s, f, i); } else if i < |f| { assert !HasId(f[i]); }
    } else if i < |e| {
      assert StampItems(s, e)[i] == e[i];
    }
  }

  lemma {:induction false} KeepIsPlaced(s: Json, e: Json, f: Json)
    requires Mirrors(s, f) && Stamp(s, e) == e
    ensures Placed(s, Keep(s, e, f))
    decreases !e.Nullish(), e, 2
  {
    var c := Container(e, f);
    KeepKind(s, e, f);
    if e.Nullish() {
      MirrorsIsPlaced(s, f);
    } else if e.Arr? && c.Arr? && s.Arr? {
      KeepArr(s, e.items, f);
      KeptItemsPlaced(s.items, e.items, c.items);
    } else if e.Obj? && c.Obj? && s.Obj? {
      KeepObj(s, e.fields, f);
      KeptFieldsPlaced(s.fields, e.fields, c.fields);
    }
  }

  lemma {:induction false} KeptFieldsPlaced(s: map<string, Json>, e: map<string, Json>, f: map<string, Json>)
    requires Mirrors(Obj(s), Obj(f)) && Stamp(Obj(s), Obj(e)) == Obj(e)
    ensures Placed(Obj(s), Obj(KeptFields(Obj(s), e, f)))
    decreases true, Obj(e), 1
  {
    var k := KeptFields(Obj(s), e, f);
    forall n | n in k && n in s ensures Placed(s[n], k[n]) {
      assert n in e ==> Stamp(Obj(s), Obj(e)).fields[n] == e[n];
      KeptFieldAt(Obj(s), e, f, n);
      KeepIsPlaced(s[n], Get(e, n), Get(f, n));
    }
  }

  lemma {:induction false} KeptItemsPlaced(s: seq<Json>, e: seq<Json>, f: seq<Json>)
    requires Mirrors(Arr(s), Arr(f)) && Stamp(Arr(s), Arr(e)) == Arr(e)
    ensures Placed(Arr(s), Arr(KeptArray(Arr(s), e, f)))
    decreases true, Arr(e), 1
  {
    var k, keyed := KeptArray(Arr(s), e, f), Keyed(Arr(s), e, f);
    KeptArrayItems(Arr(s), e, f);
    if !keyed && IdAddressable(s) { KeepItemsHaveNoIds(s, e, f); }
    forall i | 0 <= i < |k| && i < |s| ensures ItemPlaced(s[i], k[i], keyed, IdAddressable(s)) {
      KeptItemPlaced(s, e, f, i);
    }
    hide KeptArray, ItemPlaced, Placed, Mirrors, Stamp, Keep, KeptPair;
    ItemsPlaced(s, k, keyed);
  }

  ghost predicate ItemPlaced(s: Json, k: Json, keyed: bool, addressable: bool) {
    && Placed(s, k)
    && (keyed ==> k.Nullish() || (HasId(k) && EntryId(k) == EntryId(s)))
    && (!keyed && addressable ==> !k.Obj?)
  }

  lemma ItemsPlaced(s: seq<Json>, k: seq<Json>, keyed: bool)
    requires if keyed then |k| == |s| else IdAddressable(s) ==> !HasIds(k)
    requires forall i :: 0 <= i < |k| && i < |s| ==> ItemPlaced(s[i], k[i], keyed, IdAddressable(s))
    ensures Placed(Arr(s), Arr(k))
  {
    hide EntryId;
    forall i | 0 <= i < |k| && i < |s| ensures Placed(s[i], k[i]) {
      assert ItemPlaced(s[i], k[i], keyed, IdAddressable(s));
    }
  }

  lemma {:induction false} KeptItemPlaced(s: seq<Json>, e: seq<Json>, f: seq<Json>, i: nat)
    requires Mirrors(Arr(s), Arr(f)) && Stamp(Arr(s), Arr(e)) == Arr(e)
    requires i < |s| && i < |KeptArray(Arr(s), e, f)|
    ensures ItemPlaced(s[i], KeptArray(Arr(s), e, f)[i], Keyed(Arr(s), e, f), IdAddressable(s))
    decreases true, Arr(e), 0
  {
    var x, y := Pair(Arr(s), e, f, e, i), Pair(Arr(s), e, f, f, i);
    KeptArrayItems(Arr(s), e, f);
    PairIsSlot(s, e, f, i);
    KeepIsPlaced(s[i], x, y);
    KeepKind(s[i], x, y);
    KeepId(s[i], x, y);
    if IdAddressable(s) && !HasIds(f) && i < |f| { assert !HasId(f[i]); }
    hide Keep, KeptArray, Stamp;
  }

  lemma KeepItemsHaveNoIds(s: seq<Json>, e: seq<Json>, f: seq<Json>)
    requires !HasIds(e) && !HasIds(f)
    ensures !HasIds(KeptArray(Arr(s), e, f))
  {
    var k := KeptArray(Arr(s), e, f);
    forall i | 0 <= i < |k| ensures !HasId(k[i]) {
      assert k[i] == Keep(SourceItem(Arr(s), i), At(e, i), At(f, i));
      assert i < |e| ==> !HasId(e[i]);
      assert i < |f| ==> !HasId(f[i]);
      KeepId(SourceItem(Arr(s), i), At(e, i), At(f, i));
    }
  }

  // ---- Pruning what is untranslated -----------------------------------------

  lemma {:induction false} PruneKind(x: Json)
    ensures var p := PruneUntranslated(x);
      && (p.Undefined? || (p.Arr? && x.Arr?) || (p.Obj? && x.Obj?) || (p.Str? && p == x && x.Text()))
      && (!p.Undefined? && x.Obj? ==> EntryId(p) == EntryId(x))
      && (HasId(p) ==> HasId(x))
  {
  }

  function PrunedItems(x: seq<Json>): seq<Json> {
    var p := PruneUntranslated(Arr(x)); if p.Arr? then p.items else []
  }

  /** A pruned array holds the pruned entries, `null` for the absent ones, up to the last present. */
  lemma {:induction false} PrunedArray(x: seq<Json>)
    ensures var y := PrunedItems(x);
      && PruneUntranslated(Arr(x)) == (if |y| == 0 then Undefined else Arr(y))
      && |y| <= |x|
      && (forall i :: 0 <= i < |y| ==> y[i] == NullIfAbsent(PruneUntranslated(x[i])))
      && (forall i :: |y| <= i < |x| ==> PruneUntranslated(x[i]).Undefined?)
      && (|y| > 0 ==> !PruneUntranslated(x[|y| - 1]).Undefined?)
  {
    var q := seq(|x|, j requires 0 <= j < |x| => PruneUntranslated(x[j]));
    assert PruneUntranslated(Arr(x)) == Trimmed(q);
    assert |q| == |x| && forall j :: 0 <= j < |x| ==> q[j] == PruneUntranslated(x[j]);
    hide *;
    PrunedByTrimming(x, q);
  }

  lemma PrunedByTrimming(x: seq<Json>, q: seq<Json>)
    requires |q| == |x| && PruneUntranslated(Arr(x)) == Trimmed(q)
    requires forall j :: 0 <= j < |x| ==> q[j] == PruneUntranslated(x[j])
    ensures var y := PrunedItems(x);
      && PruneUntranslated(Arr(x)) == (if |y| == 0 then Undefined else Arr(y))
      && |y| <= |x|
      && (forall i :: 0 <= i < |y| ==> y[i] == NullIfAbsent(PruneUntranslated(x[i])))
      && (forall i :: |y| <= i < |x| ==> PruneUntranslated(x[i]).Undefined?)
      && (|y| > 0 ==> !PruneUntranslated(x[|y| - 1]).Undefined?)
  {
    TrimmedItems(q);
    hide Trimmed, PruneUntranslated;
  }

  lemma TrimmedItems(q: seq<Json>)
    ensures var y := if Trimmed(q).Arr? then Trimmed(q).items else [];
      && Trimmed(q) == (if |y| == 0 then Undefined else Arr(y))
      && |y| <= |q|
      && (forall i :: 0 <= i < |y| ==> y[i] == NullIfAbsent(q[i]))
      && (forall i :: |y| <= i < |q| ==> q[i].Undefined?)
      && (|y| > 0 ==> !q[|y| - 1].Undefined?)
  {
  }

  function PrunedFields(x: map<string, Json>): map<string, Json> {
    var p := PruneUntranslated(Obj(x)); if p.Obj? then p.fields else map[]
  }

  /** A pruned object holds its pruned fields and, if it holds any, its string id. */
  lemma {:induction false} PrunedObject(x: map<string, Json>)
    ensures var y := PrunedFields(x);
      && PruneUntranslated(Obj(x)) == (if y == map[] then Undefined else Obj(y))
      && (forall k :: k != ID ==> Get(y, k) == PruneUntranslated(Get(x, k)))
      && (forall k :: k in y && k != ID ==> k in x && !y[k].Undefined?)
      && (y != map[] ==> exists k :: k in y && k != ID)
      && (y != map[] ==> Get(y, ID) == (if Get(x, ID).Str? then Get(x, ID) else Undefined))
      && (ID in y ==> Get(x, ID).Str?)
  {
    var kept := map k | k in x && k != ID && !PruneUntranslated(x[k]).Undefined? :: PruneUntranslated(x[k]);
    if kept != map[] {
      assert kept.Keys != {};
      var k :| k in kept;
      assert k in PrunedFields(x) && k != ID;
    }
  }

  lemma {:induction false} PrunedIdsKept(x: seq<Json>)
    ensures var y := PrunedItems(x);
      forall i :: 0 <= i < |y| ==>
        && (y[i] == Null || (y[i].Obj? == x[i].Obj? && EntryId(y[i]) == EntryId(x[i])))
        && (HasId(y[i]) ==> HasId(x[i]))
  {
    PrunedArray(x);
    forall i | 0 <= i < |x| { PruneKind(x[i]); }
  }

  lemma {:induction false} PruneKeepsPlaced(s: Json, x: Json)
    requires Placed(s, x)
    ensures Placed(s, PruneUntranslated(x))
    decreases x
  {
    if s.Arr? && x.Arr? {
      var y := PrunedItems(x.items);
      PrunedArray(x.items);
      PrunedIdsKept(x.items);
      forall i | 0 <= i < |y| && i < |s.items| ensures Placed(s.items[i], y[i]) {
        PruneKeepsPlaced(s.items[i], x.items[i]);
      }
      PrunedAddressing(s.items, x.items);
    } else if s.Obj? && x.Obj? {
      var p := PruneUntranslated(x);
      forall k | p.Obj? && k in p.fields && k in s.fields ensures Placed(s.fields[k], p.fields[k]) {
        if k != ID { PruneKeepsPlaced(s.fields[k], x.fields[k]); }
      }
    }
  }

  lemma {:induction false} PrunedAddressing(s: seq<Json>, x: seq<Json>)
    requires IdAddressable(s) ==> InPlace(s, x) || NothingPlaced(s, x)
    ensures IdAddressable(s) ==> InPlace(s, PrunedItems(x)) || NothingPlaced(s, PrunedItems(x))
  {
    PrunedArray(x);
    PrunedIdsKept(x);
    hide PrunedItems;
    if IdAddressable(s) && NothingPlaced(s, x) {
      assert forall i :: 0 <= i < |x| ==> !HasId(x[i]);
    }
  }

  // ---- Apart from containers under `id` ---------------------------------------

  /** Whether the source's field `k` is a container under `id`. The merger localizes it as any
      other, but what is written to a catalog holds only string ids. */
  predicate IdContainer(s: map<string, Json>, k: string) {
    k == ID && k in s && (s[k].Arr? || s[k].Obj?)
  }

  /** Every container under `id` is the same in `t` as in the source. */
  ghost predicate IdsUntouched(s: Json, t: Json)
    decreases s
  {
    match (s, t)
    case (Arr(ss), Arr(tt)) => forall i :: 0 <= i < |ss| && i < |tt| ==> IdsUntouched(ss[i], tt[i])
    case (Obj(ss), Obj(tt)) =>
      forall k :: k in ss && k in tt ==> if IdContainer(ss, k) then tt[k] == ss[k] else IdsUntouched(ss[k], tt[k])
    case _ => true
  }

  /** Two renderings of the source agree apart from its containers under `id`. */
  ghost predicate Alike(s: Json, t: Json, u: Json)
    decreases s
  {
    match s
    case Arr(ss) =>
      && t.Arr? && u.Arr? && |t.items| == |u.items| == |ss|
      && forall i :: 0 <= i < |ss| ==> Alike(ss[i], t.items[i], u.items[i])
    case Obj(ss) =>
      && t.Obj? && u.Obj? && t.fields.Keys == u.fields.Keys == ss.Keys
      && forall k :: k in ss && !IdContainer(ss, k) ==> Alike(ss[k], t.fields[k], u.fields[k])
    case _ => t == u
  }

  lemma {:induction false} AlikeSelf(s: Json, o: Json)
    ensures Alike(s, Merge(s, o), Merge(s, o))
    decreases s
  {
    MergeKeepsShape(s, o);
    ShapeAlike(s, Merge(s, o));
  }

  lemma {:induction false} ShapeAlike(s: Json, t: Json)
    requires SameShape(s, t)
    ensures Alike(s, t, t)
    decreases s
  {
    match s
    case Arr(ss) => forall i | 0 <= i < |ss| { ShapeAlike(ss[i], t.items[i]); }
    case Obj(ss) => forall k | k in ss { ShapeAlike(ss[k], t.fields[k]); }
    case _ =>
  }

  lemma {:induction false} AlikeChains(s: Json, t: Json, u: Json, v: Json)
    requires Alike(s, t, u)
    ensures Alike(s, u, v) <==> Alike(s, t, v)
    decreases s
  {
    match s
    case Arr(ss) =>
      if v.Arr? && |v.items| == |ss| {
        forall i | 0 <= i < |ss| { AlikeChains(ss[i], t.items[i], u.items[i], v.items[i]); }
      }
    case Obj(ss) =>
      if v.Obj? && v.fields.Keys == ss.Keys {
        forall k | k in ss && !IdContainer(ss, k) { AlikeChains(ss[k], t.fields[k], u.fields[k], v.fields[k]); }
      }
    case _ =>
  }

  /** Beside a rendering with untouched ids, being equal is being alike with untouched ids. */
  lemma {:induction false} EqualExactly(s: Json, t: Json, u: Json)
    requires SameShape(s, t) && SameShape(s, u) && IdsUntouched(s, t)
    ensures t == u <==> Alike(s, t, u) && IdsUntouched(s, u)
    decreases s
  {
    if t == u { ShapeAlike(s, t); }
    match s
    case Arr(ss) =>
      forall i | 0 <= i < |ss| { EqualExactly(ss[i], t.items[i], u.items[i]); }
    case Obj(ss) =>
      forall k | k in ss && !IdContainer(ss, k) { EqualExactly(ss[k], t.fields[k], u.fields[k]); }
      if Alike(s, t, u) && IdsUntouched(s, u) {
        forall k | k in ss ensures t.fields[k] == u.fields[k] { }
        assert t.fields == u.fields;
      }
    case _ =>
  }

  // ---- Pruning and rendering ----------------------------------------------------

  /** What is written of a placed overlay renders as the overlay does, but for containers under
      `id`, which it leaves as they are in the source. */
  lemma {:induction false} PrunePreservesRendering(s: Json, x: Json)
    requires Placed(s, x)
    ensures Alike(s, Merge(s, PruneUntranslated(x)), Merge(s, x))
    ensures IdsUntouched(s, Merge(s, PruneUntranslated(x)))
    decreases s, 1
  {
    PruneKind(x);
    if s.Arr? && x.Arr? {
      PruneItemsPreservesRendering(s.items, x.items);
    } else if s.Obj? && x.Obj? {
      PruneFieldsPreservesRendering(s.fields, x.fields);
    } else {
      assert Merge(s, PruneUntranslated(x)) == Merge(s, x);
      AlikeSelf(s, x);
      if s.Arr? || s.Obj? { SourceIsUntouched(s); }
    }
  }

  lemma {:induction false} SourceIsUntouched(s: Json)
    ensures IdsUntouched(s, s)
    decreases s
  {
    match s
    case Arr(ss) => forall i | 0 <= i < |ss| { SourceIsUntouched(ss[i]); }
    case Obj(ss) => forall k | k in ss { SourceIsUntouched(ss[k]); }
    case _ =>
  }

  lemma {:induction false} PruneItemsPreservesRendering(s: seq<Json>, x: seq<Json>)
    requires Placed(Arr(s), Arr(x))
    ensures Alike(Arr(s), Merge(Arr(s), PruneUntranslated(Arr(x))), Merge(Arr(s), Arr(x)))
    ensures IdsUntouched(Arr(s), Merge(Arr(s), PruneUntranslated(Arr(x))))
    decreases Arr(s), 0
  {
    var y := PrunedItems(x);
    PrunedArray(x);
    PrunedAddressing(s, x);
    MergeItems(s, y, y);
    var t, u := Merge(Arr(s), Arr(y)).items, Merge(Arr(s), Arr(x)).items;
    assert Merge(Arr(s), PruneUntranslated(Arr(x))) == Arr(t);
    forall i | 0 <= i < |s| ensures Alike(s[i], t[i], u[i]) && IdsUntouched(s[i], t[i]) {
      PrunePreservesRendering(s[i], At(x, i));
      PrunedSlot(s, x, i);
    }
  }

  /** Around pruning the merger reads the entry at the source entry's own position. */
  lemma {:induction false} PrunedSlot(s: seq<Json>, x: seq<Json>, i: nat)
    requires i < |s| && (IdAddressable(s) ==> InPlace(s, x) || NothingPlaced(s, x))
    ensures Merge(s[i], Slot(s, x, i)) == Merge(s[i], At(x, i))
    ensures Merge(s[i], Slot(s, PrunedItems(x), i)) == Merge(s[i], PruneUntranslated(At(x, i)))
  {
    PrunedArray(x);
    PrunedAddressing(s, x);
    PlacedSlot(s, x, i);
    PlacedSlot(s, PrunedItems(x), i);
    hide *;
    SlotRenders(s[i], Slot(s, x, i), At(x, i));
    SlotRenders(s[i], Slot(s, PrunedItems(x), i), At(PrunedItems(x), i));
    PrunedAtRenders(s[i], x, i);
  }

  lemma SlotRenders(s: Json, a: Json, b: Json)
    requires a == b || (a.Nullish() && b.Nullish())
    ensures Merge(s, a) == Merge(s, b)
  {
  }

  lemma PrunedAtRenders(s: Json, x: seq<Json>, i: nat)
    ensures Merge(s, At(PrunedItems(x), i)) == Merge(s, PruneUntranslated(At(x, i)))
  {
    PrunedArray(x);
    MergeNothing(s, Null);
    MergeNothing(s, Undefined);
  }

  lemma {:induction false} PruneFieldsPreservesRendering(s: map<string, Json>, x: map<string, Json>)
    requires Placed(Obj(s), Obj(x))
    ensures Alike(Obj(s), Merge(Obj(s), PruneUntranslated(Obj(x))), Merge(Obj(s), Obj(x)))
    ensures IdsUntouched(Obj(s), Merge(Obj(s), PruneUntranslated(Obj(x))))
    decreases Obj(s), 0
  {
    var q := PrunedFields(x);
    PrunedObject(x);
    MergeNoFields(s);
    MergedObject(s, q);
    MergedObject(s, x);
    assert Merge(Obj(s), PruneUntranslated(Obj(x))) == Merge(Obj(s), Obj(q));
    hide Merge, PruneUntranslated, PrunedFields, Alike, IdsUntouched, Placed;
    var t, u := Merge(Obj(s), Obj(q)), Merge(Obj(s), Obj(x));
    forall k | k in s
      ensures if IdContainer(s, k) then t.fields[k] == s[k]
        else Alike(s[k], t.fields[k], u.fields[k]) && IdsUntouched(s[k], t.fields[k])
    {
      PrunedFieldAlike(s, x, k);
    }
    AlikeFields(s, t.fields, u.fields);
  }

  lemma MergedObject(s: map<string, Json>, x: map<string, Json>)
    ensures var m := Merge(Obj(s), Obj(x)); m.Obj? && m.fields.Keys == s.Keys
  {
  }

  lemma AlikeFields(s: map<string, Json>, t: map<string, Json>, u: map<string, Json>)
    requires t.Keys == u.Keys == s.Keys
    requires forall k :: k in s ==>
      if IdContainer(s, k) then t[k] == s[k] else Alike(s[k], t[k], u[k]) && IdsUntouched(s[k], t[k])
    ensures Alike(Obj(s), Obj(t), Obj(u)) && IdsUntouched(Obj(s), Obj(t))
  {
  }

  lemma {:induction false} PrunedFieldAlike(s: map<string, Json>, x: map<string, Json>, k: string)
    requires Placed(Obj(s), Obj(x)) && k in s
    ensures var t, u := Merge(Obj(s), Obj(PrunedFields(x))).fields, Merge(Obj(s), Obj(x)).fields;
      if IdContainer(s, k) then t[k] == s[k] else Alike(s[k], t[k], u[k]) && IdsUntouched(s[k], t[k])
    decreases Obj(s), 0, 0
  {
    PrunedObject(x);
    if k != ID {
      PrunePreservesRendering(s[k], Get(x, k));
    } else if !IdContainer(s, k) {
      assert !s[k].Arr? && !s[k].Obj?;
      LeafStays(s, PrunedFields(x), k);
      LeafStays(s, x, k);
    }
  }

  lemma LeafStays(s: map<string, Json>, x: map<string, Json>, k: string)
    requires k in s && !s[k].Arr? && !s[k].Obj? && (k == ID || !s[k].Str?)
    ensures Merge(Obj(s), Obj(x)).fields[k] == s[k]
  {
  }

  lemma MergeNoFields(s: map<string, Json>)
    ensures Merge(Obj(s), Obj(map[])) == Obj(s)
  {
    assert Merge(Obj(s), Obj(map[])).fields == s;
  }

  lemma {:induction false} MergeItems(s: seq<Json>, y: seq<Json>, x: seq<Json>)
    requires forall i :: 0 <= i < |s| ==> Merge(s[i], Slot(s, y, i)) == Merge(s[i], Slot(s, x, i))
    ensures Merge(Arr(s), Arr(y)) == Merge(Arr(s), Arr(x))
    ensures |y| == 0 ==> Merge(Arr(s), Arr(y)) == Arr(s)
  {
    if |y| == 0 {
      assert forall i :: 0 <= i < |s| ==> Slot(s, y, i).Undefined?;
      assert Merge(Arr(s), Arr(y)).items == s;
    }
  }

  /** In a placed array, the merger reads the entry at the source entry's own position. */
  lemma PlacedSlot(s: seq<Json>, a: seq<Json>, i: nat)
    requires i < |s| && (IdAddressable(s) ==> InPlace(s, a) || NothingPlaced(s, a))
    ensures Slot(s, a, i) == At(a, i) || (Slot(s, a, i).Nullish() && At(a, i).Nullish())
  {
    if IdAddressable(s) && HasIds(a) { SlotInPlace(s, a, i); }
  }

  // ---- The seeding law --------------------------------------------------------

  /** Nowhere does an existing value of another kind, or an empty text, sit where the
      seed would change what is rendered. */
  ghost predicate Fits(s: Json, e: Json, f: Json)
    decreases s
  {
    if e.Nullish() || f.Nullish() then true
    else match (s, e, f)
      case (Arr(ss), Arr(ee), Arr(ff)) =>
        forall i :: 0 <= i < |ss| ==> Fits(ss[i], Pair(s, ee, ff, ee, i), Pair(s, ee, ff, ff, i))
      case (Obj(ss), Obj(ee), Obj(ff)) =>
        forall k :: k in ss && k != ID ==> Fits(ss[k], Get(ee, k), Get(ff, k))
      case _ => (s.Str? && e.Text()) || Alike(s, s, Merge(s, f))
  }

  lemma {:induction false} KeptSlot(s: seq<Json>, e: seq<Json>, f: seq<Json>, i: nat)
    requires Mirrors(Arr(s), Arr(f)) && Stamp(Arr(s), Arr(e)) == Arr(e) && i < |s|
    ensures var k, kept := KeptArray(Arr(s), e, f), Keep(s[i], Pair(Arr(s), e, f, e, i), Pair(Arr(s), e, f, f, i));
      Slot(s, k, i) == kept || (Slot(s, k, i).Nullish() && kept.Nullish())
  {
    var k := KeptArray(Arr(s), e, f);
    KeptArrayItems(Arr(s), e, f);
    KeepIsPlaced(Arr(s), Arr(e), Arr(f));
    PlacedSlot(s, k, i);
  }

  /** What the merger renders of source entry `i` under the kept array, and under the
      seed and then the existing array. */
  lemma {:induction false} KeptItem(s: seq<Json>, e: seq<Json>, f: seq<Json>, i: nat)
    requires Mirrors(Arr(s), Arr(f)) && Stamp(Arr(s), Arr(e)) == Arr(e) && i < |s|
    ensures var x, y := Pair(Arr(s), e, f, e, i), Pair(Arr(s), e, f, f, i);
      && Merge(Arr(s), Arr(KeptArray(Arr(s), e, f))).items[i] == Merge(s[i], Keep(s[i], x, y))
      && Merge(Merge(Arr(s), Arr(f)), Arr(e)).items[i] == Merge(Merge(s[i], y), x)
  {
    var x, y := Pair(Arr(s), e, f, e, i), Pair(Arr(s), e, f, f, i);
    KeptSlot(s, e, f, i);
    PairIsSlot(s, e, f, i);
    var t := Merge(Arr(s), Arr(f)).items;
    assert t[i] == Merge(s[i], Slot(s, f, i));
    SlotOfMerged(Arr(s), Arr(f), e, i);
    assert Merge(Arr(t), Arr(e)).items[i] == Merge(t[i], Slot(s, e, i));
    MergeKeepsShape(s[i], y);
    hide Keep, Stamp, Mirrors, Slot, IdAddressable;
  }

  lemma {:induction false} KeptField(s: map<string, Json>, e: map<string, Json>, f: map<string, Json>, n: string)
    requires Mirrors(Obj(s), Obj(f)) && Stamp(Obj(s), Obj(e)) == Obj(e) && n in s
    ensures var k := KeptFields(Obj(s), e, f);
      var a, b := Merge(Obj(s), Obj(k)).fields[n], Merge(Merge(Obj(s), Obj(f)), Obj(e)).fields[n];
      if n == ID && s[n].Str? then a == b == s[n]
      else a == Merge(s[n], Keep(s[n], Get(e, n), Get(f, n))) && b == Merge(Merge(s[n], Get(f, n)), Get(e, n))
    ensures Stamp(s[n], Get(e, n)) == Get(e, n) && Mirrors(s[n], Get(f, n))
  {
    KeptFieldAt(Obj(s), e, f, n);
    StampedField(s, e, n);
    var t := Merge(Obj(s), Obj(f)).fields;
    MergedField(s, KeptFields(Obj(s), e, f), n);
    MergedField(s, f, n);
    MergedField(t, e, n);
    hide Keep, KeptFields, Stamp, Merge;
  }

  lemma MergedField(s: map<string, Json>, o: map<string, Json>, n: string)
    requires n in s
    ensures Merge(Obj(s), Obj(o)).Obj? && n in Merge(Obj(s), Obj(o)).fields
    ensures Merge(Obj(s), Obj(o)).fields[n] == if n == ID && s[n].Str? then s[n] else Merge(s[n], Get(o, n))
    ensures Merge(s[n], Get(o, n)).Str? == s[n].Str?
  {
  }

  lemma {:induction false} StampedField(s: map<string, Json>, e: map<string, Json>, n: string)
    requires Stamp(Obj(s), Obj(e)) == Obj(e) && n in s
    ensures Stamp(s[n], Get(e, n)) == Get(e, n)
  {
    assert n in e ==> Stamp(Obj(s), Obj(e)).fields[n] == e[n];
  }

  /** Apart from containers under `id`, the kept tree renders the existing translation over the
      seed exactly when the two fit. */
  lemma {:induction false} KeepRenders(s: Json, e: Json, f: Json)
    requires Mirrors(s, f) && Stamp(s, e) == e
    ensures Alike(s, Merge(s, Keep(s, e, f)), Merge(Merge(s, f), e)) <==> Fits(s, e, f)
    decreases s, 2
  {
    var c := Container(e, f);
    KeepKind(s, e, f);
    MergeEmpty(s, f, c);
    if e.Nullish() {
      MergeNothing(Merge(s, f), e);
      AlikeSelf(s, f);
    } else if s.Arr? && e.Arr? && c.Arr? {
      KeepArr(s, e.items, f);
      KeepItemsRender(s.items, e.items, c.items);
    } else if s.Obj? && e.Obj? && c.Obj? {
      KeepObj(s, e.fields, f);
      KeepFieldsRender(s.fields, e.fields, c.fields);
    } else {
      KeepOtherRenders(s, e, f);
    }
  }

  lemma MergeEmpty(s: Json, f: Json, c: Json)
    requires c == f || (f.Nullish() && (c == Arr([]) || c == Obj(map[]) || c.Undefined?))
    ensures Merge(s, c) == Merge(s, f)
  {
    if c != f {
      if s.Arr? { MergeItems(s.items, [], []); }
      if s.Obj? { MergeNoFields(s.fields); }
    }
  }

  lemma {:induction false} KeepItemsRender(s: seq<Json>, e: seq<Json>, f: seq<Json>)
    requires Mirrors(Arr(s), Arr(f)) && Stamp(Arr(s), Arr(e)) == Arr(e)
    ensures Alike(Arr(s), Merge(Arr(s), Arr(KeptArray(Arr(s), e, f))), Merge(Merge(Arr(s), Arr(f)), Arr(e)))
      <==> Fits(Arr(s), Arr(e), Arr(f))
    decreases Arr(s), 0
  {
    var a, b := Merge(Arr(s), Arr(KeptArray(Arr(s), e, f))).items, Merge(Merge(Arr(s), Arr(f)), Arr(e)).items;
    assert |a| == |b| == |s|;
    forall i | 0 <= i < |s|
      ensures Alike(s[i], a[i], b[i]) <==> Fits(s[i], Pair(Arr(s), e, f, e, i), Pair(Arr(s), e, f, f, i))
    {
      KeptItem(s, e, f, i);
      PairIsSlot(s, e, f, i);
      KeepRenders(s[i], Pair(Arr(s), e, f, e, i), Pair(Arr(s), e, f, f, i));
    }
  }

  lemma {:induction false} KeepFieldsRender(s: map<string, Json>, e: map<string, Json>, f: map<string, Json>)
    requires Mirrors(Obj(s), Obj(f)) && Stamp(Obj(s), Obj(e)) == Obj(e)
    ensures Alike(Obj(s), Merge(Obj(s), Obj(KeptFields(Obj(s), e, f))), Merge(Merge(Obj(s), Obj(f)), Obj(e)))
      <==> Fits(Obj(s), Obj(e), Obj(f))
    decreases Obj(s), 1
  {
    var a, b := Merge(Obj(s), Obj(KeptFields(Obj(s), e, f))), Merge(Merge(Obj(s), Obj(f)), Obj(e));
    MergedObject(s, KeptFields(Obj(s), e, f));
    MergedObject(s, f);
    MergedObject(Merge(Obj(s), Obj(f)).fields, e);
    hide Merge, Keep, KeptFields, Mirrors, Stamp;
    forall n | n in s && !IdContainer(s, n)
      ensures Alike(s[n], a.fields[n], b.fields[n]) <==> (n == ID || Fits(s[n], Get(e, n), Get(f, n)))
    {
      KeepFieldRenders(s, e, f, n);
    }
  }

  lemma {:induction false} KeepFieldRenders(s: map<string, Json>, e: map<string, Json>, f: map<string, Json>, n: string)
    requires Mirrors(Obj(s), Obj(f)) && Stamp(Obj(s), Obj(e)) == Obj(e) && n in s && !IdContainer(s, n)
    ensures var a := Merge(Obj(s), Obj(KeptFields(Obj(s), e, f))).fields[n];
      var b := Merge(Merge(Obj(s), Obj(f)), Obj(e)).fields[n];
      Alike(s[n], a, b) <==> (n == ID || Fits(s[n], Get(e, n), Get(f, n)))
    decreases Obj(s), 0
  {
    KeptField(s, e, f, n);
    if n != ID { KeepRenders(s[n], Get(e, n), Get(f, n)); }
  }

  lemma {:induction false} KeepOtherRenders(s: Json, e: Json, f: Json)
    requires Mirrors(s, f) && !e.Nullish()
    requires !(s.Arr? && e.Arr? && Container(e, f).Arr?) && !(s.Obj? && e.Obj? && Container(e, f).Obj?)
    ensures Alike(s, Merge(s, Keep(s, e, f)), Merge(Merge(s, f), e)) <==> Fits(s, e, f)
  {
    KeepKind(s, e, f);
    AlikeSelf(s, f);
    AlikeSelf(s, Undefined);
  }

  lemma {:induction false} SameShapeId(s: Json, t: Json)
    requires SameShape(s, t)
    ensures EntryId(s) == EntryId(t)
  {
    if s.Obj? && ID in s.fields { assert SameShape(s.fields[ID], t.fields[ID]); }
  }

  /** Two sources of one shape stamp an overlay alike. */
  lemma {:induction false} StampByShape(s: Json, t: Json, e: Json)
    requires SameShape(s, t)
    ensures Stamp(s, e) == Stamp(t, e)
    decreases e, 1
  {
    if e.Nullish() {
    } else if s.Arr? && e.Arr? {
      var ee := e.items;
      forall i | 0 <= i < |ee| ensures StampEntry(s.items, ee, i) == StampEntry(t.items, ee, i) {
        StampEntryByShape(s.items, t.items, ee, i);
      }
      assert StampItems(s.items, ee) == StampItems(t.items, ee);
    } else if s.Obj? && e.Obj? {
      forall k | k in s.fields && k in e.fields { StampByShape(s.fields[k], t.fields[k], e.fields[k]); }
      assert Stamp(s, e).fields == Stamp(t, e).fields;
    }
  }

  lemma {:induction false} StampEntryByShape(s: seq<Json>, t: seq<Json>, e: seq<Json>, i: nat)
    requires i < |e| && |s| == |t| && forall j :: 0 <= j < |s| ==> SameShape(s[j], t[j])
    ensures StampEntry(s, e, i) == StampEntry(t, e, i)
    decreases e[i], 2
  {
    forall j | 0 <= j < |s| ensures EntryId(s[j]) == EntryId(t[j]) {
      SameShapeId(s[j], t[j]);
    }
    if i < |s| { StampByShape(s[i], t[i], e[i]); }
    if HasId(e[i]) {
      SameIds(s, t, IdOf(e[i]));
      var j := IndexOf(s, IdOf(e[i]));
      if j < |s| { StampByShape(s[j], t[j], e[i]); }
    }
    hide Stamp, SameShape;
    SameAddressing(s, t);
    hide EntryId;
  }

  lemma SameAddressing(s: seq<Json>, t: seq<Json>)
    requires |s| == |t| && forall j :: 0 <= j < |s| ==> EntryId(s[j]) == EntryId(t[j])
    ensures IdAddressable(s) <==> IdAddressable(t)
  {
    hide EntryId;
    assert forall j :: 0 <= j < |s| ==> HasId(s[j]) == HasId(t[j]);
  }

  /** The seeded catalog renders each text as its existing translation, else the lexicon's,
      else English, exactly when nothing in the existing overlay is in the seed's way and
      containers under `id` stay as they are in the source. */
  lemma SeedingLaw(s: Json, lex: Lexicon, e: Json)
    requires s.Obj?
    ensures var rendered := Merge(Merge(s, SeedNode(s, lex)), e);
      Merge(s, SeedCatalog(s, lex, e)) == rendered
      <==> Fits(s, Stamp(s, e), Fresh(s, lex)) && IdsUntouched(s, rendered)
    ensures Placed(s, SeedCatalog(s, lex, e))
    ensures MergeByPosition(s, SeedCatalog(s, lex, e)) == Merge(s, SeedCatalog(s, lex, e))
  {
    var f, e' := Fresh(s, lex), Stamp(s, e);
    FreshMirrors(s, lex);
    StampIdempotent(s, e);
    var k := Keep(s, e', f);
    KeepIsPlaced(s, e', f);
    PrunePreservesRendering(s, k);
    PruneKeepsPlaced(s, k);
    KeepRenders(s, e', f);
    var p := PruneUntranslated(k);
    MergeEmpty(s, p, OrEmpty(p));
    PlacedIsAligned(s, OrEmpty(p));
    AlignedRendersByPosition(s, OrEmpty(p));
    StampingBothRenders(s, lex, e);
    var catalog, rendered := Merge(s, p), Merge(Merge(s, f), e');
    AlikeChains(s, catalog, Merge(s, k), rendered);
    MergeKeepsShape(s, p);
    RenderedShape(s, f, e');
    hide *;
    EqualExactly(s, catalog, rendered);
  }

  lemma {:induction false} FreshMirrors(s: Json, lex: Lexicon)
    requires s.Obj?
    ensures Fresh(s, lex).Obj? && Mirrors(s, Fresh(s, lex))
  {
    SeedHasNoId(s, lex);
    SeedMirrors(s, lex);
    if SeedNode(s, lex).Undefined? { assert Fresh(s, lex).fields == map[]; }
  }

  lemma RenderedShape(s: Json, f: Json, e: Json)
    ensures SameShape(s, Merge(Merge(s, f), e))
  {
    MergeKeepsShape(s, f);
    MergeKeepsShape(Merge(s, f), e);
    SameShapeChains(s, Merge(s, f), Merge(Merge(s, f), e));
  }

  lemma {:induction false} SameShapeChains(s: Json, t: Json, u: Json)
    requires SameShape(s, t) && SameShape(t, u)
    ensures SameShape(s, u)
    decreases s
  {
    match s
    case Arr(ss) => forall i | 0 <= i < |ss| { SameShapeChains(ss[i], t.items[i], u.items[i]); }
    case Obj(ss) => forall k | k in ss { SameShapeChains(ss[k], t.fields[k], u.fields[k]); }
    case _ =>
  }

  /** The seed under the overlay renders the same whether or not the two are stamped. */
  lemma StampingBothRenders(s: Json, lex: Lexicon, e: Json)
    ensures Merge(Merge(s, Fresh(s, lex)), Stamp(s, e)) == Merge(Merge(s, SeedNode(s, lex)), e)
  {
    var seeded := SeedNode(s, lex);
    MergeEmpty(s, seeded, OrEmpty(seeded));
    StampPreservesRendering(s, OrEmpty(seeded));
    MergeKeepsShape(s, seeded);
    StampByShape(s, Merge(s, seeded), e);
    StampPreservesRendering(Merge(s, seeded), e);
  }
}
