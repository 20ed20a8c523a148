/** Running the seeder on its own output changes nothing. */
module Reseed {
  import opened Json
  import opened Addressing
  import opened OverlayLaws
  import opened Seed
  import opened SeedLaws

  /** A string id of the seed meets none or a string. */
  predicate IdYields(e: map<string, Json>, f: map<string, Json>) {
    Get(f, ID).Str? ==> Get(e, ID).Nullish() || Get(e, ID).Str?
  }

  /** Neither side has a translation that the merge keeps. */
  ghost predicate BothSilent(s: Json, e: Json, f: Json)
    decreases !e.Nullish(), e, 1
  {
    if e.Nullish() then PruneUntranslated(f).Undefined?
    else match (e, Container(e, f))
      case (Arr(ee), Arr(ff)) =>
        forall i :: 0 <= i < Width(s, ee, ff) ==>
          BothSilent(SourceItem(s, i), Pair(s, ee, ff, ee, i), Pair(s, ee, ff, ff, i))
      case (Obj(ee), Obj(ff)) => FieldsSilent(s, ee, ff)
      case _ => PruneUntranslated(e).Undefined?
  }

  ghost predicate FieldsSilent(s: Json, e: map<string, Json>, f: map<string, Json>)
    decreases true, Obj(e), 0
  {
    forall k :: k in e.Keys + f.Keys && k != ID ==> BothSilent(SourceField(s, k), Get(e, k), Get(f, k))
  }

  /** ... or nothing is written of the two objects. */
  ghost predicate IdSettled(s: Json, e: map<string, Json>, f: map<string, Json>) {
    IdYields(e, f) || FieldsSilent(s, e, f)
  }

  /** Nowhere does an existing value that translates nothing sit where the seed translates
      something, nor an id that is no string where the seed has one. */
  ghost predicate Settled(s: Json, e: Json, f: Json)
    decreases !e.Nullish(), e
  {
    if e.Nullish() || f.Nullish() then true
    else match (e, f)
      case (Arr(ee), Arr(ff)) =>
        forall i :: 0 <= i < Width(s, ee, ff) ==>
          Settled(SourceItem(s, i), Pair(s, ee, ff, ee, i), Pair(s, ee, ff, ff, i))
      case (Obj(ee), Obj(ff)) =>
        && IdSettled(s, ee, ff)
        && (forall k :: k in ee && k != ID ==> Settled(SourceField(s, k), ee[k], Get(ff, k)))
      case _ => !PruneUntranslated(e).Undefined? || PruneUntranslated(f).Undefined?
  }

  // ---- When pruned containers agree -----------------------------------------

  function PrunedAt(a: seq<Json>, i: nat): (r: Json)
    ensures r.Undefined? || !r.Nullish()
  {
    PruneKind(At(a, i)); PruneUntranslated(At(a, i))
  }

  lemma {:induction false} PrunedArrayByEntry(a: seq<Json>)
    ensures var y := PrunedItems(a);
      && PruneUntranslated(Arr(a)) == (if |y| == 0 then Undefined else Arr(y))
      && (forall i: nat :: At(y, i) == PrunedAt(a, i) || (At(y, i) == Null && PrunedAt(a, i).Undefined?))
      && (|y| > 0 ==> !PrunedAt(a, |y| - 1).Undefined?)
  {
    PrunedArray(a);
  }

  lemma {:induction false} PrunedArraysAgree(a: seq<Json>, b: seq<Json>)
    ensures PruneUntranslated(Arr(a)) == PruneUntranslated(Arr(b))
      <==> forall i: nat :: PrunedAt(a, i) == PrunedAt(b, i)
  {
    var y, z := PrunedItems(a), PrunedItems(b);
    PrunedArrayByEntry(a);
    PrunedArrayByEntry(b);
    if forall i: nat :: PrunedAt(a, i) == PrunedAt(b, i) {
      assert |y| > 0 ==> !At(z, |y| - 1).Undefined?;
      assert |z| > 0 ==> !At(y, |z| - 1).Undefined?;
      forall i | 0 <= i < |y| ensures y[i] == z[i] {
        assert y[i] == At(y, i) && z[i] == At(z, i) && PrunedAt(a, i) == PrunedAt(b, i);
      }
      assert y == z;
    }
    if PruneUntranslated(Arr(a)) == PruneUntranslated(Arr(b)) {
      assert y == z;
      forall i: nat ensures PrunedAt(a, i) == PrunedAt(b, i) { assert At(y, i) == At(z, i); }
    }
  }

  function PrunedGet(a: map<string, Json>, k: string): Json {
    PruneUntranslated(Get(a, k))
  }

  lemma {:induction false} PrunedObjectByField(a: map<string, Json>)
    ensures var y := PrunedFields(a);
      && PruneUntranslated(Obj(a)) == (if y == map[] then Undefined else Obj(y))
      && (forall k :: k != ID ==> Get(y, k) == PrunedGet(a, k) && (k in y <==> !PrunedGet(a, k).Undefined?))
      && (y != map[] <==> exists k :: k != ID && !PrunedGet(a, k).Undefined?)
      && (y != map[] ==> Get(y, ID) == (if Get(a, ID).Str? then Get(a, ID) else Undefined))
      && (y != map[] ==> (ID in y <==> Get(a, ID).Str?))
  {
    PrunedObject(a);
  }

  lemma {:induction false} PrunedObjectsAgree(a: map<string, Json>, b: map<string, Json>)
    requires PrunedFields(b) != map[] ==>
      Get(a, ID) == Get(b, ID) || (!Get(a, ID).Str? && !Get(b, ID).Str?)
    ensures PruneUntranslated(Obj(a)) == PruneUntranslated(Obj(b))
      <==> forall k :: k != ID ==> PrunedGet(a, k) == PrunedGet(b, k)
  {
    var y, z := PrunedFields(a), PrunedFields(b);
    PrunedObjectByField(a);
    PrunedObjectByField(b);
    if forall k :: k != ID ==> PrunedGet(a, k) == PrunedGet(b, k) {
      assert y == map[] <==> z == map[];
      if z != map[] {
        forall k ensures (k in y <==> k in z) && Get(y, k) == Get(z, k) { }
        SameGets(y, z);
      }
    }
    if PruneUntranslated(Obj(a)) == PruneUntranslated(Obj(b)) {
      assert y == z;
      forall k | k != ID ensures PrunedGet(a, k) == PrunedGet(b, k) { assert Get(y, k) == Get(z, k); }
    }
  }

  lemma SameGets(y: map<string, Json>, z: map<string, Json>)
    requires forall k :: (k in y <==> k in z) && Get(y, k) == Get(z, k)
    ensures y == z
  {
    forall k | k in y ensures k in z && y[k] == z[k] { assert Get(y, k) == Get(z, k); }
    assert y.Keys == z.Keys;
  }

  lemma {:induction false} PruneIdempotent(x: Json)
    ensures PruneUntranslated(PruneUntranslated(x)) == PruneUntranslated(x)
    decreases x
  {
    match x
    case Arr(items) =>
      var y := PrunedItems(items);
      PrunedArray(items);
      forall i: nat ensures PrunedAt(y, i) == PrunedAt(items, i) {
        if i < |items| { PruneIdempotent(items[i]); }
      }
      PrunedArraysAgree(y, items);
    case Obj(f) =>
      var y := PrunedFields(f);
      PrunedObject(f);
      forall k | k != ID ensures PrunedGet(y, k) == PrunedGet(f, k) {
        if k in f { PruneIdempotent(f[k]); }
      }
      PrunedObjectsAgree(y, f);
    case _ =>
  }

  // ---- When nothing is written ------------------------------------------------

  lemma {:induction false} SilentExactly(s: Json, e: Json, f: Json)
    ensures PruneUntranslated(Keep(s, e, f)).Undefined? <==> BothSilent(s, e, f)
    decreases !e.Nullish(), e, 2
  {
    hide Keep, PruneUntranslated, BothSilent;
    var c := Container(e, f);
    SilentCases(s, e, f);
    if e.Nullish() {
    } else if e.Arr? && c.Arr? {
      KeepArr(s, e.items, f);
      ItemsSilentExactly(s, e.items, c.items);
    } else if e.Obj? && c.Obj? {
      KeepObj(s, e.fields, f);
      FieldsSilentExactly(s, e.fields, c.fields);
    }
  }

  ghost predicate ItemsSilent(s: Json, e: seq<Json>, f: seq<Json>) {
    forall i :: 0 <= i < Width(s, e, f) ==>
      BothSilent(SourceItem(s, i), Pair(s, e, f, e, i), Pair(s, e, f, f, i))
  }

  lemma SilentCases(s: Json, e: Json, f: Json)
    ensures var c := Container(e, f);
      && (e.Nullish() ==> Keep(s, e, f) == f && (BothSilent(s, e, f) <==> PruneUntranslated(f).Undefined?))
      && (e.Arr? && c.Arr? ==> (BothSilent(s, e, f) <==> ItemsSilent(s, e.items, c.items)))
      && (e.Obj? && c.Obj? ==> (BothSilent(s, e, f) <==> FieldsSilent(s, e.fields, c.fields)))
      && (!e.Nullish() && !(e.Arr? && c.Arr?) && !(e.Obj? && c.Obj?) ==>
            Keep(s, e, f) == e && (BothSilent(s, e, f) <==> PruneUntranslated(e).Undefined?))
  {
  }

  lemma {:induction false} ItemsSilentExactly(s: Json, e: seq<Json>, f: seq<Json>)
    ensures PruneUntranslated(Arr(KeptArray(s, e, f))).Undefined? <==> ItemsSilent(s, e, f)
    decreases true, Arr(e), 1
  {
    var k := KeptArray(s, e, f);
    PrunedArray(k);
    KeptArrayItems(s, e, f);
    hide Keep, KeptArray, PrunedItems, BothSilent, KeptPair;
    forall i | 0 <= i < Width(s, e, f)
      ensures PruneUntranslated(k[i]).Undefined? <==>
        BothSilent(SourceItem(s, i), Pair(s, e, f, e, i), Pair(s, e, f, f, i))
    {
      PairSilentExactly(s, e, f, i);
    }
  }

  lemma {:induction false} PairSilentExactly(s: Json, e: seq<Json>, f: seq<Json>, i: nat)
    requires i < Width(s, e, f) && i < |KeptArray(s, e, f)|
    ensures PruneUntranslated(KeptArray(s, e, f)[i]).Undefined? <==>
      BothSilent(SourceItem(s, i), Pair(s, e, f, e, i), Pair(s, e, f, f, i))
    decreases true, Arr(e), 0
  {
    SilentExactly(SourceItem(s, i), Pair(s, e, f, e, i), Pair(s, e, f, f, i));
    KeptArrayItems(s, e, f);
    hide Keep, KeptArray, BothSilent;
  }

  lemma {:induction false} FieldsSilentExactly(s: Json, e: map<string, Json>, f: map<string, Json>)
    ensures PruneUntranslated(Obj(KeptFields(s, e, f))).Undefined? <==> FieldsSilent(s, e, f)
    decreases true, Obj(e), 1
  {
    var k := KeptFields(s, e, f);
    PrunedObjectByField(k);
    hide Keep, KeptFields, PrunedFields, BothSilent, PruneUntranslated;
    KeptFieldAt(s, e, f, ID);
    forall n | n in e.Keys + f.Keys
      ensures PrunedGet(k, n).Undefined? <==> BothSilent(SourceField(s, n), Get(e, n), Get(f, n))
    {
      KeptFieldAt(s, e, f, n);
      SilentExactly(SourceField(s, n), Get(e, n), Get(f, n));
    }
    forall n | n !in e.Keys + f.Keys ensures PrunedGet(k, n).Undefined? {
      AbsentIsSilent(k, n);
    }
  }

  lemma AbsentIsSilent(k: map<string, Json>, n: string)
    requires n !in k
    ensures PrunedGet(k, n).Undefined?
  {
  }

  // ---- One array -------------------------------------------------------------

  ghost predicate MirrorsItems(s: Json, f: seq<Json>) {
    f == [] || Mirrors(s, Arr(f))
  }

  lemma {:induction false} KeptArrayAt(s: Json, e: seq<Json>, f: seq<Json>, i: nat)
    ensures |KeptArray(s, e, f)| == Width(s, e, f) && Keep(s, Arr(e), Arr(f)) == Arr(KeptArray(s, e, f))
    ensures PrunedAt(KeptArray(s, e, f), i) ==
      if i < Width(s, e, f) then PruneUntranslated(KeptPair(s, e, f, i)) else Undefined
    ensures i < Width(s, e, f) ==> (Keyed(s, e, f) ==> KeptArray(s, e, f)[i] == NullIfAbsent(KeptPair(s, e, f, i)))
  {
  }

  /** A kept array is either keyed and in place, or free of ids wherever ids would matter. */
  lemma {:induction false} KeptArrayIds(s: Json, e: seq<Json>, f: seq<Json>)
    requires MirrorsItems(s, f)
    ensures s.Arr? && IdAddressable(s.items) ==>
      var k := KeptArray(s, e, f);
      if Keyed(s, e, f) then InPlace(s.items, k) else !HasIds(k)
  {
    if s.Arr? && IdAddressable(s.items) {
      if Keyed(s, e, f) {
        var k := KeptArray(s, e, f);
        forall i | 0 <= i < |k| ensures k[i].Nullish() || (HasId(k[i]) && EntryId(k[i]) == EntryId(s.items[i])) {
          KeptArrayAt(s, e, f, i);
          KeepKind(s.items[i], Pair(s, e, f, e, i), Pair(s, e, f, f, i));
          KeepId(s.items[i], Pair(s, e, f, e, i), Pair(s, e, f, f, i));
        }
        KeptArrayAt(s, e, f, 0);
      } else {
        KeepItemsHaveNoIds(s.items, e, f);
      }
    }
  }

  /** The ids of the array written. */
  lemma {:induction false} WrittenArrayIds(s: Json, e: seq<Json>, f: seq<Json>)
    requires MirrorsItems(s, f)
    ensures s.Arr? && IdAddressable(s.items) ==>
      var y := PrunedItems(KeptArray(s, e, f));
      if Keyed(s, e, f) then InPlace(s.items, y) else !HasIds(y) && !HasIds(f)
  {
    if s.Arr? && IdAddressable(s.items) {
      var k := KeptArray(s, e, f);
      KeptArrayIds(s, e, f);
      PrunedArray(k);
      PrunedIdsKept(k);
      if !Keyed(s, e, f) { assert forall j :: 0 <= j < |k| ==> !HasId(k[j]); }
    }
  }

  /** Whichever way the written array is matched, source entry `i` finds its entry `i`. */
  lemma {:induction false} PairOfWritten(s: Json, e: seq<Json>, f: seq<Json>, y: seq<Json>, i: nat)
    requires MirrorsItems(s, f) && i < Width(s, e, f)
    requires s.Arr? && IdAddressable(s.items) ==>
      if Keyed(s, e, f) then InPlace(s.items, y) else !HasIds(y) && !HasIds(f)
    ensures i < Width(s, y, f) ==>
      && (Pair(s, y, f, y, i) == At(y, i) || (Pair(s, y, f, y, i).Nullish() && At(y, i).Nullish()))
      && (Pair(s, y, f, f, i) == Pair(s, e, f, f, i)
          || (Pair(s, y, f, f, i).Nullish() && Pair(s, e, f, f, i).Nullish()))
    ensures i >= Width(s, y, f) ==> At(y, i).Nullish() && Pair(s, e, f, f, i).Nullish()
  {
    if Keyed(s, e, f) {
      if Keyed(s, y, f) {
        if HasIds(y) { SlotInPlace(s.items, y, i); }
      } else {
        assert i < |y| ==> !HasId(y[i]);
        assert i < |f| ==> !HasId(f[i]);
      }
    }
  }

  /** The array written first time, paired again with the seed, gives each pair its first result. */
  lemma {:induction false} KeptAgain(s: Json, e: seq<Json>, f: seq<Json>, i: nat)
    requires MirrorsItems(s, f) && i < Width(s, e, f)
    ensures var y := PrunedItems(KeptArray(s, e, f));
      PrunedAt(KeptArray(s, y, f), i) ==
        PruneUntranslated(Keep(SourceItem(s, i), PruneUntranslated(KeptPair(s, e, f, i)), Pair(s, e, f, f, i)))
  {
    var y := PrunedItems(KeptArray(s, e, f));
    PrunedArrayByEntry(KeptArray(s, e, f));
    KeptArrayAt(s, e, f, i);
    var again := PruneUntranslated(KeptPair(s, e, f, i));
    assert At(y, i) == again || (At(y, i).Nullish() && again.Nullish());
    WrittenArrayIds(s, e, f);
    PairOfWritten(s, e, f, y, i);
    KeptArrayAt(s, y, f, i);
    if i < Width(s, y, f) {
      KeepNullish(SourceItem(s, i), Pair(s, y, f, y, i), again, Pair(s, y, f, f, i));
      PruneKeepNullish(SourceItem(s, i), again, Pair(s, y, f, f, i), Pair(s, e, f, f, i));
    }
  }

  lemma {:induction false} PruneKeepNullish(s: Json, e: Json, f: Json, g: Json)
    requires f == g || (f.Nullish() && g.Nullish())
    ensures PruneUntranslated(Keep(s, e, f)) == PruneUntranslated(Keep(s, e, g))
  {
  }

  lemma {:induction false} KeepNullish(s: Json, a: Json, b: Json, f: Json)
    requires a == b || (a.Nullish() && b.Nullish())
    ensures Keep(s, a, f) == Keep(s, b, f)
  {
  }

  lemma {:induction false} WrittenNoWider(s: Json, e: seq<Json>, f: seq<Json>)
    requires MirrorsItems(s, f)
    ensures Width(s, PrunedItems(KeptArray(s, e, f)), f) <= Width(s, e, f)
  {
    PrunedArray(KeptArray(s, e, f));
    KeptArrayAt(s, e, f, 0);
    WrittenArrayIds(s, e, f);
  }

  /** With nothing on disk the seed is kept as it is. */
  lemma {:induction false} EmptyKeepsSeed(s: Json, f: seq<Json>)
    requires MirrorsItems(s, f)
    ensures PruneUntranslated(Arr(KeptArray(s, [], f))) == PruneUntranslated(Arr(f))
  {
    forall i: nat ensures PrunedAt(KeptArray(s, [], f), i) == PrunedAt(f, i) {
      KeptArrayAt(s, [], f, i);
      if Keyed(s, [], f) && i < |s.items| { SlotInPlace(s.items, f, i); }
    }
    PrunedArraysAgree(KeptArray(s, [], f), f);
  }

  // ---- The whole tree ---------------------------------------------------------

  /** Seeding over what was written gives what was written. */
  ghost predicate Fixed(s: Json, e: Json, f: Json) {
    var x := PruneUntranslated(Keep(s, e, f));
    PruneUntranslated(Keep(s, x, f)) == x
  }

  ghost predicate FixedItems(s: Json, e: seq<Json>, f: seq<Json>) {
    var k := KeptArray(s, e, f);
    PruneUntranslated(Arr(KeptArray(s, PrunedItems(k), f))) == PruneUntranslated(Arr(k))
  }

  ghost predicate FixedFields(s: Json, e: map<string, Json>, f: map<string, Json>) {
    var k := KeptFields(s, e, f);
    PruneUntranslated(Obj(KeptFields(s, PrunedFields(k), f))) == PruneUntranslated(Obj(k))
  }

  lemma {:induction false} FixedArr(s: Json, e: Json, f: Json)
    requires f.Nullish() || Mirrors(s, f)
    requires (e.Nullish() || e.Arr?) && Container(e, f).Arr?
    ensures Fixed(s, e, f) <==> FixedItems(s, if e.Arr? then e.items else [], Container(e, f).items)
  {
    hide Keep, PruneUntranslated, KeptArray, PrunedItems, Mirrors;
    var c := Container(e, f).items;
    var ee := if e.Arr? then e.items else [];
    var y := PrunedItems(KeptArray(s, ee, c));
    PrunedArray(KeptArray(s, ee, c));
    WrittenArr(s, e, f, ee, c);
    WrittenArr(s, if y == [] then Undefined else Arr(y), f, y, c);
  }

  /** Keeping an array, or nothing, over a seed array or nothing. */
  lemma {:induction false} WrittenArr(s: Json, e: Json, f: Json, ee: seq<Json>, c: seq<Json>)
    requires f == Arr(c) || (f.Nullish() && c == [])
    requires f.Nullish() || Mirrors(s, f)
    requires e == Arr(ee) || (e.Nullish() && ee == [])
    ensures PruneUntranslated(Keep(s, e, f)) == PruneUntranslated(Arr(KeptArray(s, ee, c)))
  {
    if e.Arr? {
      KeepArr(s, ee, f);
    } else {
      KeepKind(s, e, f);
      EmptyKeepsSeed(s, c);
      PrunedArray([]);
    }
  }

  lemma {:induction false} FixedObj(s: Json, e: Json, f: Json)
    requires (e.Nullish() || e.Obj?) && Container(e, f).Obj?
    ensures Fixed(s, e, f) <==> FixedFields(s, if e.Obj? then e.fields else map[], Container(e, f).fields)
  {
    hide Keep, PruneUntranslated, KeptFields, PrunedFields;
    var c := Container(e, f).fields;
    var ee := if e.Obj? then e.fields else map[];
    var y := PrunedFields(KeptFields(s, ee, c));
    PrunedObject(KeptFields(s, ee, c));
    WrittenObj(s, e, f, ee, c);
    WrittenObj(s, if y == map[] then Undefined else Obj(y), f, y, c);
  }

  lemma {:induction false} WrittenObj(s: Json, e: Json, f: Json, ee: map<string, Json>, c: map<string, Json>)
    requires f == Obj(c) || (f.Nullish() && c == map[])
    requires e == Obj(ee) || (e.Nullish() && ee == map[])
    ensures PruneUntranslated(Keep(s, e, f)) == PruneUntranslated(Obj(KeptFields(s, ee, c)))
  {
    if e.Obj? {
      KeepObj(s, ee, f);
    } else {
      KeepKind(s, e, f);
      EmptyKeepsFields(s, c);
      PrunedObject(map[]);
    }
  }

  lemma {:induction false} EmptyKeepsFields(s: Json, f: map<string, Json>)
    ensures KeptFields(s, map[], f) == f
  {
  }

  lemma {:induction false} FixedLeaf(s: Json, e: Json, f: Json)
    requires !((e.Nullish() || e.Arr?) && Container(e, f).Arr?)
    requires !((e.Nullish() || e.Obj?) && Container(e, f).Obj?)
    ensures Fixed(s, e, f) <==> Settled(s, e, f)
  {
    PruneKind(e);
    PruneIdempotent(e);
  }

  lemma {:induction false} ReseedStep(s: Json, e: Json, f: Json)
    requires f.Nullish() || Mirrors(s, f)
    ensures Fixed(s, e, f) <==> Settled(s, e, f)
    decreases !e.Nullish(), if e.Nullish() then f else e, 2
  {
    hide Keep, Fixed, FixedItems, FixedFields, PruneUntranslated, KeptFields, IdSettled;
    var c := Container(e, f);
    if (e.Nullish() || e.Arr?) && c.Arr? {
      FixedArr(s, e, f);
      ReseedItems(s, if e.Arr? then e.items else [], c.items);
    } else if (e.Nullish() || e.Obj?) && c.Obj? {
      FixedObj(s, e, f);
      ReseedFields(s, if e.Obj? then e.fields else map[], c.fields);
    } else {
      FixedLeaf(s, e, f);
    }
    SettledEmpty(s, e, f);
  }

  /** An absent side counts as an empty container. */
  lemma {:induction false} SettledEmpty(s: Json, e: Json, f: Json)
    ensures var c := Container(e, f);
      && ((e.Nullish() || e.Arr?) && c.Arr? ==>
            (Settled(s, e, f) <==> Settled(s, if e.Arr? then e else Arr([]), c)))
      && ((e.Nullish() || e.Obj?) && c.Obj? ==>
            (Settled(s, e, f) <==> Settled(s, if e.Obj? then e else Obj(map[]), c)))
  {
  }

  lemma {:induction false} ReseedItems(s: Json, e: seq<Json>, f: seq<Json>)
    requires MirrorsItems(s, f)
    ensures FixedItems(s, e, f) <==> Settled(s, Arr(e), Arr(f))
    decreases e != [], if e == [] then Arr(f) else Arr(e), 1
  {
    var k := KeptArray(s, e, f);
    PrunedArraysAgree(KeptArray(s, PrunedItems(k), f), k);
    SettledByItem(s, e, f);
    hide KeptArray, PruneUntranslated, PrunedItems, PrunedAt, Settled, Mirrors;
    forall i: nat
      ensures PrunedAt(KeptArray(s, PrunedItems(k), f), i) == PrunedAt(k, i) <==>
        (i < Width(s, e, f) ==> Settled(SourceItem(s, i), Pair(s, e, f, e, i), Pair(s, e, f, f, i)))
    {
      ReseedItem(s, e, f, i);
    }
  }

  lemma {:induction false} ReseedItem(s: Json, e: seq<Json>, f: seq<Json>, i: nat)
    requires MirrorsItems(s, f)
    ensures var k := KeptArray(s, e, f);
      PrunedAt(KeptArray(s, PrunedItems(k), f), i) == PrunedAt(k, i) <==>
        (i < Width(s, e, f) ==> Settled(SourceItem(s, i), Pair(s, e, f, e, i), Pair(s, e, f, f, i)))
    decreases e != [], if e == [] then Arr(f) else Arr(e), 0
  {
    WrittenNoWider(s, e, f);
    KeptArrayAt(s, e, f, i);
    if i < Width(s, e, f) {
      var x, y := Pair(s, e, f, e, i), Pair(s, e, f, f, i);
      KeptAgain(s, e, f, i);
      PairMirrors(s, e, f, i);
      hide Keep, KeptArray, PruneUntranslated, PrunedItems, PrunedAt, Mirrors;
      if !(x.Nullish() && y.Nullish()) { ReseedStep(SourceItem(s, i), x, y); }
    } else {
      KeptArrayAt(s, PrunedItems(KeptArray(s, e, f)), f, i);
    }
  }

  lemma {:induction false} SettledByItem(s: Json, e: seq<Json>, f: seq<Json>)
    ensures Settled(s, Arr(e), Arr(f)) <==>
      forall i: nat :: i < Width(s, e, f) ==> Settled(SourceItem(s, i), Pair(s, e, f, e, i), Pair(s, e, f, f, i))
  {
  }

  lemma {:induction false} PairMirrors(s: Json, e: seq<Json>, f: seq<Json>, i: nat)
    requires MirrorsItems(s, f) && i < Width(s, e, f)
    ensures var y := Pair(s, e, f, f, i); y.Nullish() || Mirrors(SourceItem(s, i), y)
  {
    if Keyed(s, e, f) && HasIds(f) { SlotInPlace(s.items, f, i); }
  }

  lemma {:induction false} ReseedFields(s: Json, e: map<string, Json>, f: map<string, Json>)
    requires f == map[] || Mirrors(s, Obj(f))
    ensures FixedFields(s, e, f) <==> Settled(s, Obj(e), Obj(f))
    decreases e != map[], if e == map[] then Obj(f) else Obj(e), 1
  {
    var k := KeptFields(s, e, f);
    var z := KeptFields(s, PrunedFields(k), f);
    PrunedObject(k);
    if IdSettled(s, e, f) {
      if IdYields(e, f) { WrittenId(s, e, f); } else { FieldsSilentExactly(s, e, f); }
      PrunedObjectsAgree(z, k);
    } else {
      LateId(s, e, f);
    }
    forall n | n != ID
      ensures PrunedGet(z, n) == PrunedGet(k, n) <==> Settled(SourceField(s, n), Get(e, n), Get(f, n))
    {
      ReseedField(s, e, f, n);
    }
    SettledByField(s, e, f);
    hide Keep, KeptFields, PruneUntranslated, PrunedFields, Settled, PrunedGet;
  }

  /** An id that is no string is not written, and the next seeding writes the seed's. */
  lemma LateId(s: Json, e: map<string, Json>, f: map<string, Json>)
    requires !IdSettled(s, e, f)
    ensures !FixedFields(s, e, f)
  {
    var k := KeptFields(s, e, f);
    FieldsSilentExactly(s, e, f);
    PrunedObject(k);
    var y := PrunedFields(k);
    var z := KeptFields(s, y, f);
    KeptFieldAt(s, e, f, ID);
    KeptFieldAt(s, y, f, ID);
    KeepKind(SourceField(s, ID), Get(e, ID), Get(f, ID));
    KeepKind(SourceField(s, ID), Get(y, ID), Get(f, ID));
    PrunedObject(z);
    hide Keep, KeptFields, PruneUntranslated, PrunedFields;
    assert Get(y, ID).Undefined? && Get(z, ID).Str?;
    assert PrunedFields(z) != map[] ==> Get(PrunedFields(z), ID) != Get(y, ID);
  }

  lemma {:induction false} SettledByField(s: Json, e: map<string, Json>, f: map<string, Json>)
    ensures Settled(s, Obj(e), Obj(f)) <==>
      IdSettled(s, e, f) && forall n :: n != ID ==> Settled(SourceField(s, n), Get(e, n), Get(f, n))
  {
    assert forall n :: n in e ==> Get(e, n) == e[n];
    hide IdSettled;
  }

  lemma {:induction false} ReseedField(s: Json, e: map<string, Json>, f: map<string, Json>, n: string)
    requires n != ID && (f == map[] || Mirrors(s, Obj(f)))
    ensures var k := KeptFields(s, e, f);
      PrunedGet(KeptFields(s, PrunedFields(k), f), n) == PrunedGet(k, n)
      <==> Settled(SourceField(s, n), Get(e, n), Get(f, n))
    decreases e != map[], if e == map[] then Obj(f) else Obj(e), 0
  {
    FieldAgain(s, e, f, n);
    if n in e || n in f {
      ReseedStep(SourceField(s, n), Get(e, n), Get(f, n));
    }
  }

  lemma {:induction false} FieldAgain(s: Json, e: map<string, Json>, f: map<string, Json>, n: string)
    requires n != ID
    ensures var k := KeptFields(s, e, f);
      PrunedGet(KeptFields(s, PrunedFields(k), f), n) == PrunedGet(k, n)
      <==> Fixed(SourceField(s, n), Get(e, n), Get(f, n))
  {
    var k := KeptFields(s, e, f);
    PrunedObjectByField(k);
    var y := PrunedFields(k);
    KeptFieldAt(s, e, f, n);
    KeptFieldAt(s, y, f, n);
  }

  lemma {:induction false} WrittenId(s: Json, e: map<string, Json>, f: map<string, Json>)
    requires IdYields(e, f)
    ensures var k := KeptFields(s, e, f);
      var z := KeptFields(s, PrunedFields(k), f);
      PrunedFields(k) != map[] ==>
        Get(z, ID) == Get(k, ID) || (!Get(z, ID).Str? && !Get(k, ID).Str?)
  {
    var k := KeptFields(s, e, f);
    PrunedObjectByField(k);
    var y := PrunedFields(k);
    KeptFieldAt(s, e, f, ID);
    KeptFieldAt(s, y, f, ID);
  }
}
