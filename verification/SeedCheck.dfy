/** The shape of overlay the checker accepts, and that the seeder writes no other. */
module SeedCheck {
  import opened Json
  import opened Addressing
  import opened Allowlist
  import opened Overlay
  import opened OverlayLaws
  import opened OverlayCheck
  import opened Seed
  import opened SeedLaws
  import opened SeedTyping
  import opened Reseed

  /** Texts in the allowlisted places of the source, entries of id-addressable arrays found by
      distinct known ids, no id elsewhere.  Before pruning a text array may also have absent elements,
      and there may be what pruning does away with: containers under `id` and silent misplaced ones. */
  ghost predicate Accepted(s: Json, x: Json, structural: bool, pruned: bool)
    decreases x, 1
  {
    || x.Nullish()
    || (match s
        case Arr(ss) => x.Arr? && ArrayAccepted(ss, x.items, pruned)
        case Obj(ss) => x.Obj? && ObjectAccepted(ss, x.fields, structural, pruned)
        case _ => false)
  }

  ghost predicate ArrayAccepted(s: seq<Json>, x: seq<Json>, pruned: bool)
    decreases Arr(x), 0
  {
    && |x| <= |s|
    && forall i :: 0 <= i < |x| ==>
      if IdAddressable(s) then EntryAccepted(s, x, i, pruned) else ItemAccepted(s[i], x, i, pruned)
  }

  ghost predicate ObjectAccepted(s: map<string, Json>, x: map<string, Json>, structural: bool, pruned: bool)
    decreases Obj(x), 0
  {
    forall k :: k in x ==> k in s && FieldAccepted(s[k], x, k, structural, pruned)
  }

  ghost predicate EntryAccepted(s: seq<Json>, x: seq<Json>, i: nat, pruned: bool)
    requires i < |x|
    decreases x[i], 2
  {
    || x[i].Nullish()
    || (HasId(x[i]) && Knows(s, IdOf(x[i])) && IndexOf(x, IdOf(x[i])) == i
        && Accepted(FindById(s, IdOf(x[i])), x[i], true, pruned))
  }

  /** No `id`, unless `seeded` one that holds a container: pruning does away with those. */
  predicate NoIdUnless(x: map<string, Json>, seeded: bool) {
    ID in x ==> seeded && (x[ID].Arr? || x[ID].Obj?)
  }

  ghost predicate ItemAccepted(v: Json, x: seq<Json>, i: nat, pruned: bool)
    requires i < |x|
    decreases x[i], 2
  {
    (x[i].Obj? ==> NoIdUnless(x[i].fields, !pruned)) && Accepted(v, x[i], false, pruned)
  }

  ghost predicate FieldAccepted(v: Json, x: map<string, Json>, k: string, structural: bool, pruned: bool)
    requires k in x
    decreases x[k], 2
  {
    if !pruned && Misplaced(k, v) then PruneUntranslated(x[k]).Undefined?
    else if k in STRING_FIELDS then v.Str? && x[k].Str?
    else if k in STRING_VALUE_OBJECTS then
      v.Obj? && x[k].Obj? && forall n :: n in x[k].fields ==> n in v.fields && x[k].fields[n].Str?
    else if k in STRING_ARRAYS then
      && v.Arr? && x[k].Arr? && |x[k].items| <= |v.items|
      && forall i :: 0 <= i < |x[k].items| ==>
        x[k].items[i].Null? || x[k].items[i].Str? || (!pruned && x[k].items[i].Undefined?)
    else if k == ID && structural then true
    else !x[k].Str? && !x[k].Num? && !x[k].Bool? && ((k == ID && !pruned) || Accepted(v, x[k], false, pruned))
  }

  // ---- The checker accepts exactly these ----------------------------------------------

  lemma {:induction false} AcceptedExactlyWhenNothingFound(s: Json, x: Json, path: Path, structural: bool)
    ensures Findings(s, x, path, structural) == {} <==> Accepted(s, x, structural, true)
    decreases x, 2
  {
    var fs := Findings(s, x, path, structural);
    if !x.Nullish() { FindingsOfContainer(s, x, path, structural); }
    if x.Nullish() {
    } else if s.Arr? && x.Arr? {
      if IdAddressable(s.items) {
        EntriesAccepted(s.items, x.items, path);
      } else {
        ItemsAccepted(s.items, x.items, path);
      }
    } else if s.Obj? && x.Obj? {
      FieldsAccepted(s.fields, x.fields, path, structural);
    } else {
      assert Finding(path, NotAnArray) in fs || Finding(path, NotAnObject) in fs || Finding(path, NotAllowed) in fs;
    }
  }

  lemma {:induction false} EntriesAccepted(s: seq<Json>, x: seq<Json>, path: Path)
    requires IdAddressable(s)
    ensures AddressingFindings(s, x, path) + EntriesBefore(s, x, |x|, path) == {} <==> ArrayAccepted(s, x, true)
    decreases Arr(x), 1
  {
    var a, b := AddressingFindings(s, x, path), EntriesBefore(s, x, |x|, path);
    assert Finding(path, TooManyEntries) in a <==> |x| > |s|;
    assert Finding(path, MixedAddressing) in a || Finding(path, NoIds) in a <==> HasUnkeyed(x);
    forall i | 0 <= i < |x|
      ensures EntryFindings(s, x, i, path) == {} && !Unkeyed(x[i]) <==> EntryAccepted(s, x, i, true)
    {
      EntryAcceptedHere(s, x, i, path);
    }
    if a + b == {} {
      forall i | 0 <= i < |x| ensures EntryFindings(s, x, i, path) == {} {
        assert forall f :: f in EntryFindings(s, x, i, path) ==> f in b;
      }
    }
    if ArrayAccepted(s, x, true) {
      assert forall i :: 0 <= i < |x| ==> EntryFindings(s, x, i, path) == {} && !Unkeyed(x[i]);
      assert !HasUnkeyed(x);
      assert a == {};
      assert b == {};
    }
  }

  lemma {:induction false} EntryAcceptedHere(s: seq<Json>, x: seq<Json>, i: nat, path: Path)
    requires i < |x|
    ensures EntryFindings(s, x, i, path) == {} && !Unkeyed(x[i]) <==> EntryAccepted(s, x, i, true)
    decreases Arr(x), 0
  {
    var at := path + [Index(i)];
    if HasId(x[i]) && Knows(s, IdOf(x[i])) {
      AcceptedExactlyWhenNothingFound(FindById(s, IdOf(x[i])), x[i], at, true);
      assert EntryFindings(s, x, i, path) ==
        if IndexOf(x, IdOf(x[i])) < i then {Finding(at, DuplicateId)}
        else Findings(FindById(s, IdOf(x[i])), x[i], at, true);
    } else if !Unkeyed(x[i]) && !x[i].Nullish() {
      var here := EntryFindings(s, x, i, path);
      assert || Finding(at, EntryNotObject) in here
             || Finding(at + [Key(ID)], BadId) in here
             || Finding(at, UnknownId) in here;
    }
  }

  lemma {:induction false} ItemsAccepted(s: seq<Json>, x: seq<Json>, path: Path)
    requires !IdAddressable(s)
    ensures ItemsBefore(s, x, |x|, path) == {} <==> ArrayAccepted(s, x, true)
    decreases Arr(x), 1
  {
    var all := ItemsBefore(s, x, |x|, path);
    forall i | 0 <= i < |x|
      ensures ItemFindings(s, x, i, path) == {} <==> i < |s| && ItemAccepted(s[i], x, i, true)
    {
      var at := path + [Index(i)];
      if i < |s| { AcceptedExactlyWhenNothingFound(s[i], x[i], at, false); }
      else { assert Finding(at, BeyondLength) in ItemFindings(s, x, i, path); }
      assert x[i].Obj? && ID in x[i].fields ==> Finding(at, IdNotAddressable) in ItemFindings(s, x, i, path);
    }
    if all == {} {
      forall i | 0 <= i < |x| ensures ItemFindings(s, x, i, path) == {} {
        assert forall f :: f in ItemFindings(s, x, i, path) ==> f in all;
      }
      assert |x| > 0 ==> ItemFindings(s, x, |x| - 1, path) == {};
    }
  }

  lemma {:induction false} FieldsAccepted(s: map<string, Json>, x: map<string, Json>, path: Path, structural: bool)
    ensures FieldsAmong(s, x, x.Keys, path, structural) == {} <==> ObjectAccepted(s, x, structural, true)
    decreases Obj(x), 1
  {
    var all := FieldsAmong(s, x, x.Keys, path, structural);
    forall k | k in x
      ensures FieldFindings(s, x, k, path, structural) == {} <==> k in s && FieldAccepted(s[k], x, k, structural, true)
    {
      FieldAcceptedHere(s, x, k, path, structural);
    }
    if all == {} {
      forall k | k in x ensures FieldFindings(s, x, k, path, structural) == {} {
        assert forall f :: f in FieldFindings(s, x, k, path, structural) ==> f in all;
      }
    }
  }

  lemma {:induction false} FieldAcceptedHere(s: map<string, Json>, x: map<string, Json>, k: string, path: Path,
      structural: bool)
    requires k in x
    ensures FieldFindings(s, x, k, path, structural) == {} <==> k in s && FieldAccepted(s[k], x, k, structural, true)
    decreases Obj(x), 0
  {
    var at := path + [Key(k)];
    var here := FieldFindings(s, x, k, path, structural);
    if k !in s {
      assert Finding(at, NoSuchKey) in here;
    } else if k in STRING_FIELDS {
      assert here == {} || Finding(at, SourceNotString) in here || Finding(at, NotAString) in here;
    } else if k in STRING_VALUE_OBJECTS {
      ValueObjectAccepted(s[k], x[k], at);
    } else if k in STRING_ARRAYS {
      StringArrayAccepted(s[k], x[k], at);
    } else {
      assert here == {} || Finding(at, NotAllowed) in here || here == Findings(s[k], x[k], at, false);
      AcceptedExactlyWhenNothingFound(s[k], x[k], at, false);
    }
  }

  lemma ValueObjectAccepted(v: Json, x: Json, at: Path)
    ensures ValueObjectFindings(v, x, at) == {} <==>
      v.Obj? && x.Obj? && forall n :: n in x.fields ==> n in v.fields && x.fields[n].Str?
  {
    var all := ValueObjectFindings(v, x, at);
    if !v.Obj? || !x.Obj? {
      assert Finding(at, SourceNotObject) in all || Finding(at, NotAStringObject) in all;
    } else {
      forall n | n in x.fields
        ensures InnerFindings(v.fields, x.fields, n, at) <= all
        ensures InnerFindings(v.fields, x.fields, n, at) == {} <==> n in v.fields && x.fields[n].Str?
      {
        var here := InnerFindings(v.fields, x.fields, n, at);
        assert || here == {}
               || Finding(at + [Key(n)], NoSuchKey) in here
               || Finding(at + [Key(n)], InnerNotAString) in here;
      }
    }
  }

  lemma StringArrayAccepted(v: Json, x: Json, at: Path)
    ensures StringArrayFindings(v, x, at) == {} <==>
      && v.Arr? && x.Arr? && |x.items| <= |v.items|
      && forall i :: 0 <= i < |x.items| ==> x.items[i].Null? || x.items[i].Str?
  {
    var all := StringArrayFindings(v, x, at);
    if !v.Arr? || !x.Arr? {
      assert Finding(at, SourceNotArray) in all || Finding(at, ValueNotArray) in all;
    } else {
      forall i | 0 <= i < |x.items|
        ensures ElementFindings(v.items, x.items, i, at) <= all
        ensures ElementFindings(v.items, x.items, i, at) == {} <==>
          i < |v.items| && (x.items[i].Null? || x.items[i].Str?)
      {
      }
      assert |x.items| > 0 ==> ElementFindings(v.items, x.items, |x.items| - 1, at) <= all;
    }
  }

  // ---- The seeder keeps to them --------------------------------------------------------

  lemma {:induction false} AcceptedWithId(s: Json, x: Json, pruned: bool)
    requires HasId(s) && x.Obj? && Accepted(s, x, false, pruned)
    ensures Accepted(s, WithId(x, IdOf(s)), true, pruned)
  {
    var y := WithId(x, IdOf(s)).fields;
    forall k | k in y ensures k in s.fields && FieldAccepted(s.fields[k], y, k, true, pruned) {
      if k != ID { assert FieldAccepted(s.fields[k], x.fields, k, false, pruned); }
    }
  }

  lemma {:induction false} SeedAccepted(s: Json, lex: Lexicon)
    requires WellTyped(s)
    ensures Accepted(s, Stamp(s, SeedNode(s, lex)), false, false)
    decreases s, 1
  {
    var x := SeedNode(s, lex);
    SeedHasNoId(s, lex);
    if s.Arr? && x.Arr? {
      var f := StampItems(s.items, x.items);
      assert Stamp(s, x) == Arr(f);
      forall i | 0 <= i < |f|
        ensures
          if IdAddressable(s.items) then EntryAccepted(s.items, f, i, false)
          else ItemAccepted(s.items[i], f, i, false)
      {
        SeedItemAccepted(s.items, lex, x.items, i);
      }
      assert ArrayAccepted(s.items, f, false);
    } else if s.Obj? && x.Obj? {
      var f := Stamp(s, x).fields;
      forall k | k in f ensures k in s.fields && FieldAccepted(s.fields[k], f, k, false, false) {
        SeedFieldAccepted(k, s.fields[k], lex, f);
      }
      assert ObjectAccepted(s.fields, f, false, false);
    }
  }

  lemma {:induction false} SeedItemAccepted(s: seq<Json>, lex: Lexicon, x: seq<Json>, i: nat)
    requires WellTyped(Arr(s)) && SeedNode(Arr(s), lex) == Arr(x) && i < |s|
    ensures var f := StampItems(s, x);
      if IdAddressable(s) then EntryAccepted(s, f, i, false) else ItemAccepted(s[i], f, i, false)
    decreases Arr(s), 0
  {
    SeedHasNoId(s[i], lex);
    SeedAccepted(s[i], lex);
    assert x[i] == NullIfAbsent(SeedNode(s[i], lex));
    forall j | 0 <= j < |s| ensures !HasId(x[j]) { SeedHasNoId(s[j], lex); }
    if IdAddressable(s) {
      SeedEntryAccepted(s, x, i);
    } else {
      assert StampItems(s, x)[i] == Stamp(s[i], x[i]);
      if x[i].Obj? { SeedHoldsNoText(s[i], lex); }
    }
  }

  /** What the seeder puts under `id` is a container, stamped or not. */
  lemma SeedHoldsNoText(s: Json, lex: Lexicon)
    requires SeedNode(s, lex).Obj?
    ensures var x := Stamp(s, SeedNode(s, lex)); x.Obj? && NoIdUnless(x.fields, true)
  {
    SeedHasNoId(s, lex);
    var x := SeedNode(s, lex).fields;
    if ID in x {
      SeedHasNoId(s.fields[ID], lex);
      assert x[ID] == SeedNode(s.fields[ID], lex);
      StampKeepsKind(s.fields[ID], x[ID]);
    }
  }

  lemma StampKeepsKind(s: Json, o: Json)
    ensures Stamp(s, o).Arr? == o.Arr? && Stamp(s, o).Obj? == o.Obj?
  {
  }

  lemma SeedEntryAccepted(s: seq<Json>, x: seq<Json>, i: nat)
    requires IdAddressable(s) && |x| == |s| && i < |s|
    requires forall j :: 0 <= j < |s| ==> !HasId(x[j])
    requires x[i] == Null || (x[i].Obj? && Accepted(s[i], Stamp(s[i], x[i]), false, false))
    ensures EntryAccepted(s, StampItems(s, x), i, false)
  {
    var f := StampItems(s, x);
    forall j | 0 <= j < |s| { StampEntryId(s, x, j); }
    StampEntryByOwner(s, x, i);
    FindSelf(s, i);
    if x[i].Obj? {
      AcceptedWithId(s[i], Stamp(s[i], x[i]), false);
      assert EntryId(f[i]) == EntryId(s[i]);
      assert forall j :: 0 <= j < i ==> EntryId(f[j]) != EntryId(s[i]);
      assert IndexOf(f, IdOf(f[i])) == i;
    }
  }

  lemma {:induction false} SeedFieldAccepted(k: string, v: Json, lex: Lexicon, f: map<string, Json>)
    requires k in f && f[k] == Stamp(v, SeedField(k, v, lex)) && !SeedField(k, v, lex).Undefined?
    requires k != ID ==> FieldTyped(k, v)
    ensures FieldAccepted(v, f, k, false, false)
    decreases v, 2
  {
    if Misplaced(k, v) {
      SeedMisplacedAccepted(k, v, lex, f);
    } else if k in STRING_FIELDS && v.Str? {
    } else if k in STRING_VALUE_OBJECTS && v.Obj? {
      SeedValueObject(k, v, lex);
    } else if k in STRING_ARRAYS && v.Arr? {
      SeedTextArray(k, v, lex);
    } else {
      if k != ID { SeedAccepted(v, lex); }
      SeedTreeAccepted(k, v, lex, f);
    }
  }

  lemma SeedMisplacedAccepted(k: string, v: Json, lex: Lexicon, f: map<string, Json>)
    requires k in f && f[k] == Stamp(v, SeedField(k, v, lex)) && Misplaced(k, v) && Unseeded(v)
    ensures FieldAccepted(v, f, k, false, false)
  {
    WrittenExactly(v, lex);
    hide Stamp, PruneUntranslated, Unseeded;
  }

  lemma SeedTreeAccepted(k: string, v: Json, lex: Lexicon, f: map<string, Json>)
    requires k in f && f[k] == Stamp(v, SeedField(k, v, lex)) && !SeedField(k, v, lex).Undefined?
    requires !Misplaced(k, v) && !(k in STRING_FIELDS && v.Str?) && !(k in STRING_VALUE_OBJECTS && v.Obj?)
    requires !(k in STRING_ARRAYS && v.Arr?)
    requires k != ID ==> Accepted(v, Stamp(v, SeedNode(v, lex)), false, false)
    ensures FieldAccepted(v, f, k, false, false)
  {
    SeedHasNoId(v, lex);
    StampKeepsKind(v, SeedNode(v, lex));
    hide Accepted, Stamp, SeedNode;
  }

  lemma {:induction false} SeedValueObject(k: string, v: Json, lex: Lexicon)
    requires k in STRING_VALUE_OBJECTS && v.Obj? && !SeedField(k, v, lex).Undefined?
    ensures var x := Stamp(v, SeedField(k, v, lex));
      x.Obj? && forall n :: n in x.fields ==> n in v.fields && x.fields[n].Str?
  {
  }

  lemma {:induction false} SeedTextArray(k: string, v: Json, lex: Lexicon)
    requires k in STRING_ARRAYS && v.Arr? && !SeedField(k, v, lex).Undefined?
    ensures var x := Stamp(v, SeedField(k, v, lex));
      x.Arr? && |x.items| == |v.items| && forall i :: 0 <= i < |x.items| ==> x.items[i].Null? || x.items[i].Str?
  {
    var x := SeedField(k, v, lex).items;
    assert Stamp(v, Arr(x)) == Arr(StampItems(v.items, x));
    forall i | 0 <= i < |x| ensures StampItems(v.items, x)[i].Null? || StampItems(v.items, x)[i].Str? {
      assert x[i] == SeedElement(v.items[i], lex);
      StampLeafEntry(v.items, x, i);
    }
  }

  lemma {:induction false} AcceptedIsStamped(s: Json, x: Json, structural: bool)
    requires Accepted(s, x, structural, true) && (structural && x.Obj? ==> HasId(x))
    ensures Stamp(s, x) == x
    decreases x, 1
  {
    if x.Nullish() {
    } else if s.Arr? {
      forall i | 0 <= i < |x.items| ensures StampEntry(s.items, x.items, i) == x.items[i] {
        if IdAddressable(s.items) {
          assert EntryAccepted(s.items, x.items, i, true);
          StampEntryByOwner(s.items, x.items, i);
          if HasId(x.items[i]) {
            assert HasIds(x.items);
            AcceptedIsStamped(FindById(s.items, IdOf(x.items[i])), x.items[i], true);
          }
        } else {
          assert ItemAccepted(s.items[i], x.items, i, true);
          AcceptedIsStamped(s.items[i], x.items[i], false);
        }
      }
      assert StampItems(s.items, x.items) == x.items;
    } else {
      forall k | k in x.fields ensures k in s.fields && Stamp(s.fields[k], x.fields[k]) == x.fields[k] {
        assert FieldAccepted(s.fields[k], x.fields, k, structural, true);
        AcceptedFieldIsStamped(s.fields[k], x.fields, k, structural);
      }
      assert Stamp(s, x).fields == x.fields;
    }
  }

  lemma {:induction false} AcceptedFieldIsStamped(v: Json, x: map<string, Json>, k: string,
      structural: bool)
    requires k in x && FieldAccepted(v, x, k, structural, true)
    requires k == ID && structural ==> x[k].Str?
    ensures Stamp(v, x[k]) == x[k]
    decreases Obj(x), 0
  {
    if k in STRING_FIELDS || (k == ID && structural) {
    } else if k in STRING_VALUE_OBJECTS {
      assert Stamp(v, x[k]).fields == x[k].fields;
    } else if k in STRING_ARRAYS {
      forall i | 0 <= i < |x[k].items| { StampLeafEntry(v.items, x[k].items, i); }
      assert StampItems(v.items, x[k].items) == x[k].items;
      assert Stamp(v, x[k]) == Arr(StampItems(v.items, x[k].items));
    } else {
      AcceptedIsStamped(v, x[k], false);
    }
  }

  lemma {:induction false} PruneAccepted(s: Json, x: Json, structural: bool)
    requires Accepted(s, x, structural, false)
    ensures Accepted(s, PruneUntranslated(x), structural, true)
    decreases x, 1
  {
    PruneKind(x);
    if x.Nullish() || PruneUntranslated(x).Undefined? {
    } else if s.Arr? {
      PruneArrayAccepted(s.items, x.items);
      PrunedArray(x.items);
    } else {
      var y := PrunedFields(x.fields);
      PrunedObject(x.fields);
      forall k | k in y ensures k in s.fields && FieldAccepted(s.fields[k], y, k, structural, true) {
        assert k in x.fields && FieldAccepted(s.fields[k], x.fields, k, structural, false);
        PruneFieldAccepted(s.fields[k], x.fields, k, structural);
      }
    }
  }

  lemma {:induction false} PruneArrayAccepted(s: seq<Json>, x: seq<Json>)
    requires ArrayAccepted(s, x, false)
    ensures ArrayAccepted(s, PrunedItems(x), true)
    decreases Arr(x), 0
  {
    var y := PrunedItems(x);
    PrunedArray(x);
    PrunedIdsKept(x);
    forall i | 0 <= i < |y|
      ensures if IdAddressable(s) then EntryAccepted(s, y, i, true) else ItemAccepted(s[i], y, i, true)
    {
      if IdAddressable(s) {
        assert EntryAccepted(s, x, i, false);
        if y[i] != Null {
          PruneAccepted(FindById(s, IdOf(x[i])), x[i], true);
          assert forall j :: 0 <= j < i ==> EntryId(x[j]) != EntryId(x[i]);
          assert forall j :: 0 <= j < i ==> EntryId(y[j]) != EntryId(x[i]);
          assert IndexOf(y, IdOf(y[i])) == i;
        }
      } else {
        assert ItemAccepted(s[i], x, i, false);
        PruneAccepted(s[i], x[i], false);
        if x[i].Obj? { PrunedObject(x[i].fields); }
      }
    }
  }

  lemma {:induction false} PruneFieldAccepted(v: Json, x: map<string, Json>, k: string, structural: bool)
    requires k in x && k in PrunedFields(x) && FieldAccepted(v, x, k, structural, false)
    ensures FieldAccepted(v, PrunedFields(x), k, structural, true)
    decreases Obj(x), 0
  {
    PrunedObject(x);
    if k != ID {
      var y := x[k];
      assert PrunedFields(x)[k] == PruneUntranslated(y);
      PruneKind(y);
      if Misplaced(k, v) || k in STRING_FIELDS {
      } else if k in STRING_VALUE_OBJECTS {
        PruneValueObject(y);
      } else if k in STRING_ARRAYS {
        PruneTextArray(y);
      } else {
        PruneAccepted(v, y, false);
      }
      hide Accepted, PruneUntranslated, PrunedFields;
    }
  }

  lemma PruneValueObject(y: Json)
    requires y.Obj? && !PruneUntranslated(y).Undefined?
    ensures var z := PruneUntranslated(y);
      z.Obj? && forall n :: n in z.fields ==> n in y.fields && (y.fields[n].Str? ==> z.fields[n].Str?)
  {
    PrunedObject(y.fields);
    forall n | n in PrunedFields(y.fields) { PruneKind(y.fields[n]); }
  }

  lemma PruneTextArray(y: Json)
    requires y.Arr? && !PruneUntranslated(y).Undefined?
    requires forall i :: 0 <= i < |y.items| ==> y.items[i].Nullish() || y.items[i].Str?
    ensures var z := PruneUntranslated(y);
      z.Arr? && |z.items| <= |y.items| && forall i :: 0 <= i < |z.items| ==> z.items[i].Null? || z.items[i].Str?
  {
    PrunedArray(y.items);
    forall i | 0 <= i < |y.items| { PruneKind(y.items[i]); }
  }

  lemma {:induction false} AcceptedKind(s: Json, x: Json, structural: bool, pruned: bool)
    requires Accepted(s, x, structural, pruned)
    ensures x.Nullish() || (s.Arr? && x.Arr?) || (s.Obj? && x.Obj?)
  {
  }

  lemma {:induction false} KeepAccepted(s: Json, e: Json, f: Json, structural: bool)
    requires Accepted(s, e, structural, true) && Accepted(s, f, structural, false) && Mirrors(s, f)
    ensures Accepted(s, Keep(s, e, f), structural, false)
    decreases !e.Nullish(), e, 3
  {
    AcceptedKind(s, e, structural, true);
    AcceptedKind(s, f, structural, false);
    KeepKind(s, e, f);
    if e.Nullish() {
    } else if s.Arr? {
      var c := Container(e, f).items;
      KeepArr(s, e.items, f);
      KeepArrayAccepted(s.items, e.items, c);
    } else {
      var c := Container(e, f).fields;
      KeepObj(s, e.fields, f);
      KeptFieldAt(s, e.fields, c, ID);
      var k := KeptFields(s, e.fields, c);
      forall n | n in k ensures n in s.fields && FieldAccepted(s.fields[n], k, n, structural, false) {
        KeepFieldAccepted(s.fields, e.fields, c, n, structural);
      }
    }
  }

  lemma {:induction false} KeepArrayAccepted(s: seq<Json>, e: seq<Json>, f: seq<Json>)
    requires ArrayAccepted(s, e, true) && ArrayAccepted(s, f, false) && Mirrors(Arr(s), Arr(f))
    ensures ArrayAccepted(s, KeptArray(Arr(s), e, f), false)
    decreases true, Arr(e), 2
  {
    var k := KeptArray(Arr(s), e, f);
    KeptArrayItems(Arr(s), e, f);
    forall i | 0 <= i < |k|
      ensures if IdAddressable(s) then EntryAccepted(s, k, i, false) else ItemAccepted(s[i], k, i, false)
    {
      KeepItemAccepted(s, e, f, i);
    }
  }

  lemma {:induction false} KeepItemAccepted(s: seq<Json>, e: seq<Json>, f: seq<Json>, i: nat)
    requires ArrayAccepted(s, e, true) && ArrayAccepted(s, f, false) && Mirrors(Arr(s), Arr(f))
    requires i < |s| && i < |KeptArray(Arr(s), e, f)|
    ensures var k := KeptArray(Arr(s), e, f);
      if IdAddressable(s) then EntryAccepted(s, k, i, false) else ItemAccepted(s[i], k, i, false)
    decreases true, Arr(e), 1
  {
    KeptArrayItems(Arr(s), e, f);
    if Keyed(Arr(s), e, f) {
      KeepKeyedAccepted(s, e, f, i);
    } else if IdAddressable(s) {
      assert i < |e| ==> EntryAccepted(s, e, i, true) && !HasId(e[i]);
      assert i < |f| ==> EntryAccepted(s, f, i, false) && !HasId(f[i]);
      KeepKind(s[i], At(e, i), At(f, i));
    } else {
      assert i < |e| ==> ItemAccepted(s[i], e, i, true);
      assert i < |f| ==> ItemAccepted(s[i], f, i, false);
      KeepAccepted(s[i], At(e, i), At(f, i), false);
      KeepAddsNoId(s[i], At(e, i), At(f, i));
    }
  }

  lemma {:induction false} KeepKeyedAccepted(s: seq<Json>, e: seq<Json>, f: seq<Json>, i: nat)
    requires ArrayAccepted(s, e, true) && ArrayAccepted(s, f, false) && Mirrors(Arr(s), Arr(f))
    requires i < |s| && Keyed(Arr(s), e, f) && i < |KeptArray(Arr(s), e, f)|
    ensures EntryAccepted(s, KeptArray(Arr(s), e, f), i, false)
    decreases true, Arr(e), 0
  {
    var k, x, y := KeptArray(Arr(s), e, f), FindById(e, IdOf(s[i])), FindById(f, IdOf(s[i]));
    KeptArrayItems(Arr(s), e, f);
    assert k[i] == NullIfAbsent(Keep(s[i], x, y));
    FindSelf(s, i);
    PairAccepted(s, e, i, true);
    PairAccepted(s, f, i, false);
    if HasIds(f) { SlotInPlace(s, f, i); }
    KeepAccepted(s[i], x, y, true);
    KeptArrayIds(Arr(s), e, f);
    PlacedEntryAccepted(s, k, i);
  }

  lemma PlacedEntryAccepted(s: seq<Json>, k: seq<Json>, i: nat)
    requires IdAddressable(s) && InPlace(s, k) && i < |k| && Accepted(s[i], k[i], true, false)
    ensures EntryAccepted(s, k, i, false)
  {
    FindSelf(s, i);
    if !k[i].Nullish() {
      assert forall j :: 0 <= j < i ==> EntryId(k[j]) != EntryId(s[i]);
      assert IndexOf(k, IdOf(k[i])) == i;
    }
  }

  lemma {:induction false} KeepAddsNoId(s: Json, e: Json, f: Json)
    requires (e.Obj? ==> ID !in e.fields) && (f.Obj? ==> NoIdUnless(f.fields, true))
    ensures Keep(s, e, f).Obj? ==> NoIdUnless(Keep(s, e, f).fields, true)
  {
    if e.Obj? && Container(e, f).Obj? {
      KeepObj(s, e.fields, f);
      KeptFieldAt(s, e.fields, Container(e, f).fields, ID);
    }
  }

  lemma PairAccepted(s: seq<Json>, x: seq<Json>, i: nat, pruned: bool)
    requires ArrayAccepted(s, x, pruned) && IdAddressable(s) && i < |s|
    ensures Accepted(s[i], FindById(x, IdOf(s[i])), true, pruned)
  {
    var j := IndexOf(x, IdOf(s[i]));
    FindSelf(s, i);
    if j < |x| { assert EntryAccepted(s, x, j, pruned); }
  }

  lemma {:induction false} KeepFieldAccepted(s: map<string, Json>, e: map<string, Json>, f: map<string, Json>,
      n: string, structural: bool)
    requires ObjectAccepted(s, e, structural, true) && ObjectAccepted(s, f, structural, false)
    requires f == map[] || Mirrors(Obj(s), Obj(f))
    requires n in KeptFields(Obj(s), e, f)
    ensures n in s && FieldAccepted(s[n], KeptFields(Obj(s), e, f), n, structural, false)
    decreases true, Obj(e), 1
  {
    KeptFieldAt(Obj(s), e, f, n);
    var x, y := Get(e, n), Get(f, n);
    assert n in e ==> FieldAccepted(s[n], e, n, structural, true);
    assert n in f ==> FieldAccepted(s[n], f, n, structural, false);
    KeepKind(s[n], x, y);
    if Misplaced(n, s[n]) || n in STRING_FIELDS || n == ID {
    } else if n in STRING_VALUE_OBJECTS {
      KeepValueObject(s[n], x, y);
    } else if n in STRING_ARRAYS {
      KeepTextArray(s[n], x, y);
    } else {
      KeepAccepted(s[n], x, y, false);
      AcceptedKind(s[n], Keep(s[n], x, y), false, false);
    }
  }

  lemma {:induction false} KeepValueObject(v: Json, x: Json, y: Json)
    requires v.Obj? && !(x.Undefined? && y.Undefined?)
    requires x.Undefined? || (x.Obj? && forall n :: n in x.fields ==> n in v.fields && x.fields[n].Str?)
    requires y.Undefined? || (y.Obj? && forall n :: n in y.fields ==> n in v.fields && y.fields[n].Str?)
    ensures var k := Keep(v, x, y); k.Obj? && forall n :: n in k.fields ==> n in v.fields && k.fields[n].Str?
  {
    if x.Obj? {
      var c := Container(x, y).fields;
      KeepObj(v, x.fields, y);
      forall n | n in x.fields || n in c ensures Get(KeptFields(v, x.fields, c), n).Str? {
        KeptFieldAt(v, x.fields, c, n);
        KeepKind(SourceField(v, n), Get(x.fields, n), Get(c, n));
      }
      KeptFieldAt(v, x.fields, c, ID);
    }
  }

  ghost predicate TextElements(v: Json, x: Json) {
    && v.Arr? && x.Arr? && |x.items| <= |v.items|
    && forall i :: 0 <= i < |x.items| ==> x.items[i].Nullish() || x.items[i].Str?
  }

  lemma {:induction false} KeepTextArray(v: Json, x: Json, y: Json)
    requires v.Arr? && !(x.Undefined? && y.Undefined?)
    requires (x.Undefined? || TextElements(v, x)) && (y.Undefined? || TextElements(v, y))
    ensures TextElements(v, Keep(v, x, y))
  {
    if x.Arr? {
      var c := Container(x, y).items;
      KeepArr(v, x.items, y);
      KeptArrayItems(v, x.items, c);
      assert !Keyed(v, x.items, c);
      forall i | 0 <= i < |KeptArray(v, x.items, c)| {
        KeepKind(SourceItem(v, i), At(x.items, i), At(c, i));
      }
    }
  }

  /** Over a well-typed source, where the checker finds nothing in what is on disk, it finds nothing
      in what the seeder writes. */
  lemma SeederPassesCheck(s: Json, lex: Lexicon, e: Json)
    requires s.Obj? && WellTyped(s)
    requires Findings(s, e, [], false) == {}
    ensures Findings(s, SeedCatalog(s, lex, e), [], false) == {}
  {
    AcceptedExactlyWhenNothingFound(s, e, [], false);
    AcceptedIsStamped(s, e, false);
    FreshMirrors(s, lex);
    SeedAccepted(s, lex);
    KeepAccepted(s, e, Fresh(s, lex), false);
    PruneAccepted(s, Keep(s, e, Fresh(s, lex)), false);
    AcceptedExactlyWhenNothingFound(s, SeedCatalog(s, lex, e), [], false);
  }

  // ---- Where it does not ---------------------------------------------------------------

  /** Of a source that is not well typed, a lexicon of all its texts makes the seeder write
      something that is not accepted. */
  lemma {:induction false} IllTypedIsRefused(s: Json, lex: Lexicon, structural: bool)
    requires Covers(lex, s) && !WellTyped(s)
    ensures !Written(s, lex).Undefined? && !Accepted(s, Written(s, lex), structural, true)
    decreases s
  {
    hide Written, Covers, Accepted;
    match s
    case Arr(ss) =>
      var i :| 0 <= i < |ss| && !WellTyped(ss[i]);
      CoversItem(lex, ss, i);
      IllTypedIsRefused(ss[i], lex, IdAddressable(ss));
      WrittenItems(ss, lex);
      RefusedItem(ss, Written(s, lex).items, lex, i, structural);
    case Obj(ss) =>
      var k :| k in ss && k != ID && !FieldTyped(k, ss[k]);
      CoversField(lex, ss, k);
      WrittenFields(ss, lex);
      FieldIsTree(k, ss[k], lex);
      if Misplaced(k, ss[k]) { WrittenExactly(ss[k], lex); } else { IllTypedIsRefused(ss[k], lex, false); }
      hide FieldTyped, WellTyped, WrittenField;
      RefusedField(ss, Written(s, lex).fields, lex, k, structural);
  }

  lemma FieldIsTree(k: string, v: Json, lex: Lexicon)
    requires !FieldTyped(k, v)
    ensures WrittenField(k, v, lex) == Written(v, lex)
    ensures Misplaced(k, v) || (!Allowlisted(k) && !WellTyped(v))
  {
    LeafIsTyped(v);
    hide Stamp, SeedNode, PruneUntranslated, Unseeded, WellTyped;
  }

  lemma LeafIsTyped(v: Json)
    ensures !v.Arr? && !v.Obj? ==> WellTyped(v) && Unseeded(v)
  {
  }

  lemma RefusedItem(s: seq<Json>, w: seq<Json>, lex: Lexicon, i: nat, structural: bool)
    requires i < |s| && i < |w| && !Accepted(s[i], Written(s[i], lex), IdAddressable(s), true)
    requires w[i] == if IdAddressable(s) then WithId(Written(s[i], lex), IdOf(s[i])) else Written(s[i], lex)
    ensures !Accepted(Arr(s), Arr(w), structural, true)
  {
    hide Written;
    if IdAddressable(s) {
      FindSelf(s, i);
      AcceptedWithoutId(s[i], Written(s[i], lex), IdOf(s[i]));
      assert ArrayAccepted(s, w, true) ==> EntryAccepted(s, w, i, true);
    } else {
      assert ArrayAccepted(s, w, true) ==> ItemAccepted(s[i], w, i, true);
    }
  }

  lemma AcceptedWithoutId(s: Json, x: Json, id: string)
    requires HasId(s)
    ensures Accepted(s, WithId(x, id), true, true) ==> Accepted(s, x, true, true)
  {
    if x.Obj? {
      var y := WithId(x, id).fields;
      if ObjectAccepted(s.fields, y, true, true) {
        forall k | k in x.fields ensures k in s.fields && FieldAccepted(s.fields[k], x.fields, k, true, true) {
          assert k in s.fields && FieldAccepted(s.fields[k], y, k, true, true);
        }
      }
    }
  }

  lemma RefusedField(s: map<string, Json>, w: map<string, Json>, lex: Lexicon, k: string, structural: bool)
    requires k in s && k != ID && k in w && w[k] == WrittenField(k, s[k], lex) && !w[k].Undefined?
    requires Misplaced(k, s[k]) || (!Allowlisted(k) && !Accepted(s[k], w[k], false, true))
    ensures !Accepted(Obj(s), Obj(w), structural, true)
  {
    hide WrittenField;
    assert !FieldAccepted(s[k], w, k, structural, true);
    assert !ObjectAccepted(s, w, structural, true);
  }

  /** The seeder keeps every accepted overlay accepted, whatever the lexicon, if and only if the
      source is well typed. */
  lemma SeederPassesCheckExactly(s: Json)
    requires s.Obj?
    ensures WellTyped(s) <==>
      forall lex, e :: Findings(s, e, [], false) == {} ==> Findings(s, SeedCatalog(s, lex, e), [], false) == {}
  {
    if WellTyped(s) {
      forall lex, e | Findings(s, e, [], false) == {} ensures Findings(s, SeedCatalog(s, lex, e), [], false) == {} {
        SeederPassesCheck(s, lex, e);
      }
    } else {
      var lex := map t | t in Texts(s) :: "x";
      IllTypedIsRefused(s, lex, false);
      NothingOnDisk(s, lex);
      AcceptedExactlyWhenNothingFound(s, Undefined, [], false);
      AcceptedExactlyWhenNothingFound(s, SeedCatalog(s, lex, Undefined), [], false);
      assert Findings(s, Undefined, [], false) == {};
    }
  }

  lemma NothingOnDisk(s: Json, lex: Lexicon)
    requires !Written(s, lex).Undefined?
    ensures SeedCatalog(s, lex, Undefined) == Written(s, lex)
  {
    assert !SeedNode(s, lex).Nullish() by { SeedHasNoId(s, lex); }
    PruneKind(Stamp(s, SeedNode(s, lex)));
  }

  function Labelled(text: string): Json {
    Obj(map["title" := Obj(map["label" := Str(text)])])
  }

  /** A text in a container under `title`: nothing is on disk, and what is written is refused. */
  lemma ContainerUnderTitleIsRefused(text: string, translated: string)
    requires translated != ""
    ensures var s, lex := Labelled(text), map[text := translated];
      && Findings(s, Undefined, [], false) == {}
      && SeedCatalog(s, lex, Undefined) == Labelled(translated)
      && Findings(s, Labelled(translated), [], false) != {}
  {
    var s, lex := Labelled(text), map[text := translated];
    var inner, outer := Obj(map["label" := Str(text)]), Obj(map["label" := Str(translated)]);
    assert SeedField("label", Str(text), lex) == Str(translated);
    SeedOneField("label", Str(text), lex);
    assert SeedField("title", inner, lex) == outer;
    SeedOneField("title", inner, lex);
    assert Stamp(inner, outer).fields == outer.fields;
    assert Stamp(s, Labelled(translated)).fields == Labelled(translated).fields;
    PruneLabelled(translated);
    AcceptedExactlyWhenNothingFound(s, Undefined, [], false);
    AcceptedExactlyWhenNothingFound(s, Labelled(translated), [], false);
    assert !FieldAccepted(inner, Labelled(translated).fields, "title", false, true);
  }

  lemma SeedOneField(k: string, v: Json, lex: Lexicon)
    requires !SeedField(k, v, lex).Undefined?
    ensures SeedNode(Obj(map[k := v]), lex) == Obj(map[k := SeedField(k, v, lex)])
  {
    var s := map[k := v];
    var out := map n | n in s && !SeedField(n, s[n], lex).Undefined? :: SeedField(n, s[n], lex);
    assert out == map[k := SeedField(k, v, lex)];
    assert k in out;
  }

  lemma PruneOneField(k: string, v: Json)
    requires k != ID && PruneUntranslated(v) == v && !v.Undefined?
    ensures PruneUntranslated(Obj(map[k := v])) == Obj(map[k := v])
  {
    var f := map[k := v];
    var kept := map n | n in f && n != ID && !PruneUntranslated(f[n]).Undefined? :: PruneUntranslated(f[n]);
    assert kept == f;
    assert k in kept;
  }

  lemma PruneLabelled(t: string)
    requires t != ""
    ensures PruneUntranslated(Labelled(t)) == Labelled(t)
  {
    PruneOneField("label", Str(t));
    PruneOneField("title", Obj(map["label" := Str(t)]));
  }
}
