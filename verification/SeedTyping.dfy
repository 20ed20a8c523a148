/** Where a source has wording that the seeder writes and the checker refuses. */
module SeedTyping {
  import opened Json
  import opened Addressing
  import opened Allowlist
  import opened Overlay
  import opened OverlayLaws
  import opened Seed
  import opened SeedLaws

  predicate Allowlisted(k: string) {
    k in STRING_FIELDS || k in STRING_VALUE_OBJECTS || k in STRING_ARRAYS
  }

  /** A container under an allowlisted name that is for something else: the seeder goes into it. */
  predicate Misplaced(k: string, v: Json) {
    && (v.Arr? || v.Obj?)
    && (k in STRING_FIELDS || (k in STRING_VALUE_OBJECTS && !v.Obj?) || (k in STRING_ARRAYS && !v.Arr?))
  }

  /** The tree has no text that any lexicon could make the seeder write. */
  ghost predicate Unseeded(v: Json)
    decreases v, 1
  {
    match v
    case Arr(s) => forall i :: 0 <= i < |s| ==> Unseeded(s[i])
    case Obj(s) => forall k :: k in s && k != ID ==> FieldUnseeded(k, s[k])
    case _ => true
  }

  ghost predicate FieldUnseeded(k: string, v: Json)
    decreases v, 2
  {
    if k in STRING_FIELDS && v.Str? then false
    else if k in STRING_VALUE_OBJECTS && v.Obj? then forall n :: n in v.fields && n != ID ==> !v.fields[n].Str?
    else if k in STRING_ARRAYS && v.Arr? then forall i :: 0 <= i < |v.items| ==> !v.items[i].Str?
    else Unseeded(v)
  }

  /** No misplaced container has a text for the seeder to write. */
  ghost predicate WellTyped(s: Json)
    decreases s, 1
  {
    match s
    case Arr(ss) => forall i :: 0 <= i < |ss| ==> WellTyped(ss[i])
    case Obj(ss) => forall k :: k in ss && k != ID ==> FieldTyped(k, ss[k])
    case _ => true
  }

  ghost predicate FieldTyped(k: string, v: Json)
    decreases v, 2
  {
    if Misplaced(k, v) then Unseeded(v) else Allowlisted(k) || WellTyped(v)
  }

  /** The texts of a tree. */
  ghost function Texts(v: Json): set<string>
    decreases v
  {
    match v
    case Str(t) => {t}
    case Arr(s) => set i, t | 0 <= i < |s| && t in Texts(s[i]) :: t
    case Obj(s) => set k, t | k in s && t in Texts(s[k]) :: t
    case _ => {}
  }

  /** The lexicon translates every text of the tree. */
  ghost predicate Covers(lex: Lexicon, v: Json) {
    forall t :: t in Texts(v) ==> t in lex && |lex[t]| > 0
  }

  lemma CoversItem(lex: Lexicon, s: seq<Json>, i: nat)
    requires Covers(lex, Arr(s)) && i < |s|
    ensures Covers(lex, s[i])
  {
    forall t | t in Texts(s[i]) ensures t in lex && |lex[t]| > 0 { assert t in Texts(Arr(s)); }
  }

  lemma CoversField(lex: Lexicon, s: map<string, Json>, k: string)
    requires Covers(lex, Obj(s)) && k in s
    ensures Covers(lex, s[k])
  {
    forall t | t in Texts(s[k]) ensures t in lex && |lex[t]| > 0 { assert t in Texts(Obj(s)); }
  }

  /** What is written of the seed of a tree, nothing being there yet. */
  function Written(s: Json, lex: Lexicon): Json {
    PruneUntranslated(Stamp(s, SeedNode(s, lex)))
  }

  function WrittenField(k: string, v: Json, lex: Lexicon): Json {
    PruneUntranslated(Stamp(v, SeedField(k, v, lex)))
  }

  /** The seed of a tree is written unless no text of it could be seeded; with a lexicon that
      translates all its texts, only then. */
  lemma {:induction false} WrittenExactly(v: Json, lex: Lexicon)
    ensures Unseeded(v) ==> Written(v, lex).Undefined?
    ensures Covers(lex, v) && !Unseeded(v) ==> !Written(v, lex).Undefined?
    decreases v, 1
  {
    hide PruneUntranslated;
    match v
    case Arr(s) =>
      forall i | 0 <= i < |s|
        ensures Unseeded(s[i]) ==> Written(s[i], lex).Undefined?
        ensures Covers(lex, v) && !Unseeded(s[i]) ==> !Written(s[i], lex).Undefined?
      {
        WrittenExactly(s[i], lex);
        if Covers(lex, v) { CoversItem(lex, s, i); }
      }
      WrittenItems(s, lex);
      hide Written, Covers;
    case Obj(s) =>
      forall k | k in s
        ensures FieldUnseeded(k, s[k]) ==> WrittenField(k, s[k], lex).Undefined?
        ensures Covers(lex, v) && !FieldUnseeded(k, s[k]) ==> !WrittenField(k, s[k], lex).Undefined?
      {
        WrittenFieldExactly(k, s[k], lex);
        if Covers(lex, v) { CoversField(lex, s, k); }
      }
      WrittenFields(s, lex);
      hide Written, WrittenField, Covers, FieldUnseeded;
    case _ => NothingWritten(v, lex);
  }

  lemma NothingWritten(v: Json, lex: Lexicon)
    requires !v.Arr? && !v.Obj?
    ensures Written(v, lex).Undefined?
  {
  }

  /** Of an array something is written exactly when something is of one of its entries. */
  lemma WrittenItems(s: seq<Json>, lex: Lexicon)
    ensures Written(Arr(s), lex).Undefined? <==> forall i :: 0 <= i < |s| ==> Written(s[i], lex).Undefined?
    ensures forall i :: 0 <= i < |s| && !Written(s[i], lex).Undefined? ==>
      var w := Written(Arr(s), lex);
      w.Arr? && i < |w.items| &&
      w.items[i] == if IdAddressable(s) then WithId(Written(s[i], lex), IdOf(s[i])) else Written(s[i], lex)
  {
    var x := SeedNode(Arr(s), lex);
    if x.Arr? {
      var f := StampItems(s, x.items);
      assert Stamp(Arr(s), x) == Arr(f);
      PrunedArray(f);
      hide PruneUntranslated;
      forall i | 0 <= i < |s|
        ensures PruneUntranslated(f[i]).Undefined? <==> Written(s[i], lex).Undefined?
        ensures !Written(s[i], lex).Undefined? ==>
          PruneUntranslated(f[i]) ==
            if IdAddressable(s) then WithId(Written(s[i], lex), IdOf(s[i])) else Written(s[i], lex)
      {
        WrittenItem(s, lex, x.items, i);
      }
    } else {
      forall i | 0 <= i < |s| ensures Written(s[i], lex).Undefined? {
        assert SeedNode(s[i], lex).Undefined?;
      }
    }
  }

  lemma WrittenItem(s: seq<Json>, lex: Lexicon, x: seq<Json>, i: nat)
    requires SeedNode(Arr(s), lex) == Arr(x) && i < |s| && i < |x|
    ensures var p, w := PruneUntranslated(StampItems(s, x)[i]), Written(s[i], lex);
      && (p.Undefined? <==> w.Undefined?)
      && (!p.Undefined? ==> p == if IdAddressable(s) then WithId(w, IdOf(s[i])) else w)
  {
    forall j | 0 <= j < |s| ensures !HasId(x[j]) {
      SeedHasNoId(s[j], lex);
      assert x[j] == NullIfAbsent(SeedNode(s[j], lex));
    }
    assert !HasIds(x) && x[i] == NullIfAbsent(SeedNode(s[i], lex));
    assert PruneUntranslated(Stamp(s[i], x[i])) == Written(s[i], lex);
    if IdAddressable(s) {
      SeedHasNoId(s[i], lex);
      StampEntryByOwner(s, x, i);
      if x[i].Obj? { PruneWithId(Stamp(s[i], x[i]), IdOf(s[i])); }
    }
  }

  lemma PruneWithId(z: Json, id: string)
    requires z.Obj?
    ensures var p, q := PruneUntranslated(z), PruneUntranslated(WithId(z, id));
      (p.Undefined? <==> q.Undefined?) && (!p.Undefined? ==> p.Obj? && q == WithId(p, id))
  {
    PrunedObject(z.fields);
    PrunedObject(WithId(z, id).fields);
    var y, w := PrunedFields(z.fields), PrunedFields(WithId(z, id).fields);
    assert forall k :: k != ID ==> Get(z.fields, k) == Get(WithId(z, id).fields, k);
    hide PruneUntranslated, PrunedFields;
    SameButId(y, w, id);
  }

  lemma SameButId(y: map<string, Json>, w: map<string, Json>, id: string)
    requires forall k :: k != ID ==> Get(y, k) == Get(w, k)
    requires forall k :: (k in y ==> k == ID || !y[k].Undefined?) && (k in w ==> k == ID || !w[k].Undefined?)
    requires y != map[] ==> exists k :: k in y && k != ID
    requires w != map[] ==> (exists k :: k in w && k != ID) && Get(w, ID) == Str(id)
    ensures y == map[] <==> w == map[]
    ensures y != map[] ==> w == y[ID := Str(id)]
  {
    forall k | k != ID ensures k in y <==> k in w { assert Get(y, k) == Get(w, k); }
    if y != map[] {
      forall k | k in w ensures w[k] == y[ID := Str(id)][k] { assert k != ID ==> Get(y, k) == Get(w, k); }
      assert w.Keys == y[ID := Str(id)].Keys;
    }
  }

  /** Of an object something is written exactly when something is of one of its fields but `id`. */
  lemma WrittenFields(s: map<string, Json>, lex: Lexicon)
    ensures Written(Obj(s), lex).Undefined? <==>
      forall k :: k in s && k != ID ==> WrittenField(k, s[k], lex).Undefined?
    ensures forall k :: k in s && k != ID && !WrittenField(k, s[k], lex).Undefined? ==>
      var w := Written(Obj(s), lex); w.Obj? && k in w.fields && w.fields[k] == WrittenField(k, s[k], lex)
  {
    var x := SeedNode(Obj(s), lex);
    if x.Obj? {
      var f := Stamp(Obj(s), x).fields;
      PrunedObjectIs(f);
      forall k | k in s ensures PruneUntranslated(Get(f, k)) == WrittenField(k, s[k], lex) {
        WrittenFieldAt(s, lex, x.fields, k);
      }
      assert f.Keys <= s.Keys;
      hide PruneUntranslated, WrittenField;
    } else {
      forall k | k in s ensures WrittenField(k, s[k], lex).Undefined? {
        NoField(s, lex, k);
      }
    }
  }

  lemma PrunedObjectIs(f: map<string, Json>)
    ensures PruneUntranslated(Obj(f)).Undefined? <==>
      forall k :: k in f && k != ID ==> PruneUntranslated(Get(f, k)).Undefined?
    ensures forall k :: k in f && k != ID && !PruneUntranslated(Get(f, k)).Undefined? ==>
      var w := PruneUntranslated(Obj(f)); w.Obj? && k in w.fields && w.fields[k] == PruneUntranslated(Get(f, k))
  {
    PrunedObject(f);
    var y := PrunedFields(f);
    hide PruneUntranslated, PrunedFields;
    assert forall k :: k in y && k != ID ==> k in f && Get(y, k) == y[k] && !y[k].Undefined?;
  }

  lemma NoField(s: map<string, Json>, lex: Lexicon, k: string)
    requires SeedNode(Obj(s), lex).Undefined? && k in s
    ensures WrittenField(k, s[k], lex).Undefined?
  {
    var out := map n | n in s && !SeedField(n, s[n], lex).Undefined? :: SeedField(n, s[n], lex);
    assert out == map[];
    assert k !in out;
  }

  lemma WrittenFieldAt(s: map<string, Json>, lex: Lexicon, x: map<string, Json>, k: string)
    requires SeedNode(Obj(s), lex) == Obj(x) && k in s
    ensures PruneUntranslated(Get(Stamp(Obj(s), Obj(x)).fields, k)) == WrittenField(k, s[k], lex)
  {
  }

  lemma {:induction false} WrittenFieldExactly(k: string, v: Json, lex: Lexicon)
    ensures FieldUnseeded(k, v) ==> WrittenField(k, v, lex).Undefined?
    ensures Covers(lex, v) && !FieldUnseeded(k, v) ==> !WrittenField(k, v, lex).Undefined?
    decreases v, 2
  {
    if k in STRING_FIELDS && v.Str? {
      assert v.s in Texts(v);
    } else if k in STRING_VALUE_OBJECTS && v.Obj? {
      WrittenValueObject(k, v, lex);
    } else if k in STRING_ARRAYS && v.Arr? {
      WrittenTextArray(k, v, lex);
    } else {
      WrittenExactly(v, lex);
      if !v.Arr? && !v.Obj? { NothingWritten(v, lex); }
    }
  }

  lemma WrittenValueObject(k: string, v: Json, lex: Lexicon)
    requires k in STRING_VALUE_OBJECTS && v.Obj?
    ensures FieldUnseeded(k, v) ==> WrittenField(k, v, lex).Undefined?
    ensures Covers(lex, v) && !FieldUnseeded(k, v) ==> !WrittenField(k, v, lex).Undefined?
  {
    var x := SeedField(k, v, lex);
    if x.Obj? {
      var f := Stamp(v, x).fields;
      forall n | n in x.fields ensures n in f && f[n] == x.fields[n] {
        assert n in v.fields && v.fields[n].Str? && x.fields[n].Str?;
        StampLeaf(v.fields[n], x.fields[n]);
      }
      assert f == x.fields;
      PrunedObjectIs(f);
    }
    if Covers(lex, v) && !FieldUnseeded(k, v) {
      var n :| n in v.fields && n != ID && v.fields[n].Str?;
      CoversField(lex, v.fields, n);
      assert v.fields[n].s in Texts(v.fields[n]);
      var inner := map ik | ik in v.fields && v.fields[ik].Str? && !Hit(lex, v.fields[ik].s).Undefined? ::
        Hit(lex, v.fields[ik].s);
      assert n in inner && x == Obj(inner);
    }
  }

  lemma StampLeaf(s: Json, o: Json)
    requires o.Nullish() || o.Str?
    ensures Stamp(s, o) == o
  {
  }

  lemma WrittenTextArray(k: string, v: Json, lex: Lexicon)
    requires k in STRING_ARRAYS && v.Arr?
    ensures FieldUnseeded(k, v) ==> WrittenField(k, v, lex).Undefined?
    ensures Covers(lex, v) && !FieldUnseeded(k, v) ==> !WrittenField(k, v, lex).Undefined?
  {
    var x := SeedField(k, v, lex);
    if x.Arr? {
      forall i | 0 <= i < |x.items| ensures StampEntry(v.items, x.items, i) == x.items[i] {
        assert x.items[i] == SeedElement(v.items[i], lex);
        StampLeafEntry(v.items, x.items, i);
      }
      assert StampItems(v.items, x.items) == x.items && Stamp(v, x) == x;
      PrunedArray(x.items);
    }
    if Covers(lex, v) && !FieldUnseeded(k, v) {
      var i :| 0 <= i < |v.items| && v.items[i].Str?;
      CoversItem(lex, v.items, i);
      assert v.items[i].s in Texts(v.items[i]);
      var inner := seq(|v.items|, j requires 0 <= j < |v.items| => SeedElement(v.items[j], lex));
      assert inner[i] == SeedElement(v.items[i], lex) && inner[i].Text();
      assert x == Arr(inner);
    }
  }

  lemma {:induction false} StampLeafEntry(s: seq<Json>, o: seq<Json>, i: nat)
    requires i < |o| && (o[i].Nullish() || o[i].Str?)
    ensures StampEntry(s, o, i) == o[i]
  {
    if IdAddressable(s) { StampEntryByOwner(s, o, i); }
  }
}
