/** Which findings the checker lists, and where, told place by place. */
module FindingPlaces {
  import opened Json
  import opened Options
  import opened Addressing
  import opened Allowlist
  import opened OverlayCheck

  // ---- Where the checker goes ------------------------------------------------------------------

  /** An array that the checker addresses by id, or by position. */
  predicate ById(s: Json, x: Json) {
    s.Arr? && x.Arr? && IdAddressable(s.items)
  }

  predicate ByPosition(s: Json, x: Json) {
    s.Arr? && x.Arr? && !IdAddressable(s.items)
  }

  /** A field that both objects have. */
  predicate Shared(s: Json, x: Json, k: string) {
    s.Obj? && x.Obj? && k in s.fields && k in x.fields
  }

  predicate Wording(k: string) {
    k in STRING_FIELDS || k in STRING_VALUE_OBJECTS || k in STRING_ARRAYS
  }

  predicate Scalar(v: Json) {
    v.Str? || v.Num? || v.Bool?
  }

  /** An earlier entry has the id of entry `i`. */
  predicate Repeats(x: seq<Json>, i: nat)
    requires i < |x|
  {
    HasId(x[i]) && exists j :: 0 <= j < i && EntryId(x[j]) == EntryId(x[i])
  }

  predicate Placeable(s: seq<Json>, x: seq<Json>, i: nat)
    requires i < |x|
  {
    HasId(x[i]) && Knows(s, IdOf(x[i]))
  }

  /** The source and overlay value, and whether the overlay's id is its address, that the checker
      goes on with one step in. */
  function Next(s: Json, x: Json, structural: bool, step: Step): Option<(Json, Json, bool)> {
    match step
    case Index(i) =>
      if ByPosition(s, x) && i < |x.items| && i < |s.items| then Some((s.items[i], x.items[i], false))
      else if ById(s, x) && i < |x.items| then
        if Unkeyed(x.items[i]) && i < |s.items| then Some((s.items[i], x.items[i], false))
        else if Placeable(s.items, x.items, i) && !Repeats(x.items, i)
        then Some((FindById(s.items, IdOf(x.items[i])), x.items[i], true))
        else None
      else None
    case Key(k) =>
      if Shared(s, x, k) && !Wording(k) && !(k == ID && structural) && !Scalar(x.fields[k])
      then Some((s.fields[k], x.fields[k], false)) else None
  }

  // ---- What it finds there ---------------------------------------------------------------------

  predicate AtEntry(x: Json, p: Path) {
    |p| == 1 && p[0].Index? && x.Arr? && p[0].i < |x.items|
  }

  predicate AtField(s: Json, x: Json, p: Path, names: set<string>) {
    |p| == 1 && p[0].Key? && Shared(s, x, p[0].key) && p[0].key in names
  }

  /** One step into a field of that kind, an object over an object. */
  predicate InObject(s: Json, x: Json, p: Path) {
    && |p| == 2 && AtField(s, x, p[..1], STRING_VALUE_OBJECTS) && p[1].Key?
    && s.fields[p[0].key].Obj? && x.fields[p[0].key].Obj? && p[1].key in x.fields[p[0].key].fields
  }

  /** ... or an array over an array. */
  predicate InArray(s: Json, x: Json, p: Path) {
    && |p| == 2 && AtField(s, x, p[..1], STRING_ARRAYS) && p[1].Index?
    && s.fields[p[0].key].Arr? && x.fields[p[0].key].Arr? && p[1].i < |x.fields[p[0].key].items|
  }

  /** What is wrong, up to two steps in, with an overlay value that is not `null`: one line a kind. */
  predicate Wrong(s: Json, x: Json, structural: bool, p: Path, issue: Issue) {
    match issue
    case NotAnArray => p == [] && s.Arr? && !x.Arr?
    case NotAnObject => p == [] && s.Obj? && !x.Obj?
    case TooManyEntries => p == [] && ById(s, x) && |x.items| > |s.items|
    case MixedAddressing => p == [] && ById(s, x) && HasUnkeyed(x.items) && HasIds(x.items)
    case NoIds => p == [] && ById(s, x) && HasUnkeyed(x.items) && !HasIds(x.items)
    case EntryNotObject => AtEntry(x, p) && ById(s, x) && !x.items[p[0].i].Nullish() && !x.items[p[0].i].Obj?
    case BadId =>
      && |p| == 2 && AtEntry(x, p[..1]) && p[1] == Key(ID) && ById(s, x)
      && x.items[p[0].i].Obj? && !Child(x.items[p[0].i], Key(ID)).Undefined? && !HasId(x.items[p[0].i])
    case UnknownId => AtEntry(x, p) && ById(s, x) && HasId(x.items[p[0].i]) && !Placeable(s.items, x.items, p[0].i)
    case DuplicateId => AtEntry(x, p) && ById(s, x) && Placeable(s.items, x.items, p[0].i) && Repeats(x.items, p[0].i)
    case IdNotAddressable =>
      AtEntry(x, p) && ByPosition(s, x) && x.items[p[0].i].Obj? && ID in x.items[p[0].i].fields
    case BeyondLength => AtEntry(x, p) && ByPosition(s, x) && p[0].i >= |s.items|
    case NoSuchKey =>
      || (|p| == 1 && p[0].Key? && s.Obj? && x.Obj? && p[0].key in x.fields && p[0].key !in s.fields)
      || (InObject(s, x, p) && p[1].key !in s.fields[p[0].key].fields)
    case SourceNotString => AtField(s, x, p, STRING_FIELDS) && !s.fields[p[0].key].Str?
    case NotAString => AtField(s, x, p, STRING_FIELDS) && s.fields[p[0].key].Str? && !x.fields[p[0].key].Str?
    case SourceNotObject => AtField(s, x, p, STRING_VALUE_OBJECTS) && !s.fields[p[0].key].Obj?
    case NotAStringObject =>
      AtField(s, x, p, STRING_VALUE_OBJECTS) && s.fields[p[0].key].Obj? && !x.fields[p[0].key].Obj?
    case InnerNotAString =>
      && InObject(s, x, p) && p[1].key in s.fields[p[0].key].fields
      && !x.fields[p[0].key].fields[p[1].key].Str?
    case SourceNotArray => AtField(s, x, p, STRING_ARRAYS) && !s.fields[p[0].key].Arr?
    case ValueNotArray => AtField(s, x, p, STRING_ARRAYS) && s.fields[p[0].key].Arr? && !x.fields[p[0].key].Arr?
    case ElementBeyondLength => InArray(s, x, p) && p[1].i >= |s.fields[p[0].key].items|
    case ElementNotText =>
      && InArray(s, x, p) && p[1].i < |s.fields[p[0].key].items|
      && var v := x.fields[p[0].key].items[p[1].i]; !v.Null? && !v.Str?
    case NotAllowed =>
      || (p == [] && !s.Arr? && !s.Obj?)
      || (|p| == 1 && p[0].Key? && Shared(s, x, p[0].key) && !Wording(p[0].key)
          && !(p[0].key == ID && structural) && Scalar(x.fields[p[0].key]))
  }

  /** At the place, or from a value on its way where the checker goes, that is wrong. */
  predicate IsFound(s: Json, x: Json, structural: bool, p: Path, issue: Issue)
    decreases |p|
  {
    && !x.Nullish()
    && (|| Wrong(s, x, structural, p, issue)
        || (p != [] &&
            var next := Next(s, x, structural, p[0]);
            next.Some? && IsFound(next.value.0, next.value.1, next.value.2, p[1..], issue)))
  }

  // ---- All findings lie at or below their path -------------------------------------------------

  lemma {:induction false} FindingsBegin(s: Json, x: Json, path: Path, structural: bool, f: Finding)
    requires f in Findings(s, x, path, structural)
    ensures path <= f.path
    decreases x, 1
  {
    FindingsOfContainer(s, x, path, structural);
    if s.Arr? && x.Arr? {
      if IdAddressable(s.items) {
        if f in EntriesBefore(s.items, x.items, |x.items|, path) {
          var i := FoundEntry(s.items, x.items, path, f);
          EntryBegins(s.items, x.items, i, path, f);
        }
      } else {
        var i := FoundItem(s.items, x.items, path, f);
        ItemBegins(s.items, x.items, i, path, f);
      }
    } else if s.Obj? && x.Obj? {
      var k :| k in x.fields && f in FieldFindings(s.fields, x.fields, k, path, structural);
      FieldBegins(s.fields, x.fields, k, path, structural, f);
    }
  }

  lemma {:induction false} EntryBegins(s: seq<Json>, x: seq<Json>, i: nat, path: Path, f: Finding)
    requires i < |x| && f in EntryFindings(s, x, i, path)
    ensures path + [Index(i)] <= f.path
    decreases x[i], 2
  {
    var at := path + [Index(i)];
    if Unkeyed(x[i]) {
      FindingsBegin(s[i], x[i], at, false, f);
    } else if f != Finding(at, EntryNotObject) && f != Finding(at + [Key(ID)], BadId) && f != Finding(at, UnknownId)
      && f != Finding(at, DuplicateId) {
      FindingsBegin(FindById(s, IdOf(x[i])), x[i], at, true, f);
    }
  }

  lemma {:induction false} ItemBegins(s: seq<Json>, x: seq<Json>, i: nat, path: Path, f: Finding)
    requires i < |x| && f in ItemFindings(s, x, i, path)
    ensures path + [Index(i)] <= f.path
    decreases x[i], 2
  {
    var at := path + [Index(i)];
    if f != Finding(at, IdNotAddressable) && f != Finding(at, BeyondLength) {
      FindingsBegin(s[i], x[i], at, false, f);
    }
  }

  lemma {:induction false} FieldBegins(s: map<string, Json>, x: map<string, Json>, k: string, path: Path,
      structural: bool, f: Finding)
    requires k in x && f in FieldFindings(s, x, k, path, structural)
    ensures path + [Key(k)] <= f.path
    decreases x[k], 2
  {
    var at := path + [Key(k)];
    if k in s && !Wording(k) && !Scalar(x[k]) { FindingsBegin(s[k], x[k], at, false, f); }
  }

  lemma FoundEntry(s: seq<Json>, x: seq<Json>, path: Path, f: Finding) returns (i: nat)
    requires f in EntriesBefore(s, x, |x|, path)
    ensures i < |x| && f in EntryFindings(s, x, i, path)
  {
    i :| i < |x| && f in EntryFindings(s, x, i, path);
  }

  lemma EntryIsFound(s: seq<Json>, x: seq<Json>, path: Path, i: nat)
    requires i < |x|
    ensures EntryFindings(s, x, i, path) <= EntriesBefore(s, x, |x|, path)
  {
  }

  lemma FoundItem(s: seq<Json>, x: seq<Json>, path: Path, f: Finding) returns (i: nat)
    requires f in ItemsBefore(s, x, |x|, path)
    ensures i < |x| && f in ItemFindings(s, x, i, path)
  {
    i :| i < |x| && f in ItemFindings(s, x, i, path);
  }

  lemma ItemIsFound(s: seq<Json>, x: seq<Json>, path: Path, i: nat)
    requires i < |x|
    ensures ItemFindings(s, x, i, path) <= ItemsBefore(s, x, |x|, path)
  {
  }

  lemma FoundField(s: map<string, Json>, x: map<string, Json>, path: Path, structural: bool, f: Finding)
    returns (k: string)
    requires f in FieldsAmong(s, x, x.Keys, path, structural)
    ensures k in x && f in FieldFindings(s, x, k, path, structural)
  {
    k :| k in x && f in FieldFindings(s, x, k, path, structural);
  }

  lemma FieldIsFound(s: map<string, Json>, x: map<string, Json>, path: Path, structural: bool, k: string)
    requires k in x
    ensures FieldFindings(s, x, k, path, structural) <= FieldsAmong(s, x, x.Keys, path, structural)
  {
  }

  // ---- The findings one step in ----------------------------------------------------------------

  lemma SamePath(path: Path, p: Path, q: Path)
    ensures path + p == path + q <==> p == q
  {
    assert (path + p)[|path|..] == p && (path + q)[|path|..] == q;
  }

  lemma RepeatsIs(x: seq<Json>, i: nat)
    requires i < |x| && HasId(x[i])
    ensures IndexOf(x, IdOf(x[i])) < i <==> Repeats(x, i)
  {
  }

  /** What is found one step in is as it should be. */
  ghost predicate FoundBelow(s: Json, x: Json, path: Path, structural: bool, p: Path, issue: Issue)
    requires p != []
  {
    var next := Next(s, x, structural, p[0]);
    next.Some? ==>
      (Finding(path + p, issue) in Findings(next.value.0, next.value.1, path + [p[0]], next.value.2) <==>
         IsFound(next.value.0, next.value.1, next.value.2, p[1..], issue))
  }

  predicate FoundAfter(s: Json, x: Json, structural: bool, p: Path, issue: Issue)
    requires p != []
  {
    var next := Next(s, x, structural, p[0]);
    next.Some? && IsFound(next.value.0, next.value.1, next.value.2, p[1..], issue)
  }

  lemma EntryFound(s: seq<Json>, x: seq<Json>, i: nat, path: Path, structural: bool, p: Path, issue: Issue)
    requires IdAddressable(s) && i < |x| && p != [] && p[0] == Index(i)
    requires FoundBelow(Arr(s), Arr(x), path, structural, p, issue)
    ensures Finding(path + p, issue) in EntryFindings(s, x, i, path) <==>
      Wrong(Arr(s), Arr(x), structural, p, issue) || FoundAfter(Arr(s), Arr(x), structural, p, issue)
  {
    hide *;
    EntryNext(s, x, i, structural);
    if Next(Arr(s), Arr(x), structural, Index(i)).Some? {
      EntryGoesOn(s, x, i, path, structural, p, issue);
      AfterNext(Arr(s), Arr(x), path, structural, p, issue);
    } else {
      EntryStops(s, x, i, path, structural, p, issue);
      NoneAfter(Arr(s), Arr(x), structural, p, issue);
    }
  }

  lemma AfterNext(s: Json, x: Json, path: Path, structural: bool, p: Path, issue: Issue)
    requires p != [] && FoundBelow(s, x, path, structural, p, issue) && Next(s, x, structural, p[0]).Some?
    ensures var next := Next(s, x, structural, p[0]).value;
      Finding(path + p, issue) in Findings(next.0, next.1, path + [p[0]], next.2) <==>
        FoundAfter(s, x, structural, p, issue)
  {
    hide Findings, IsFound, Next;
  }

  lemma NoneAfter(s: Json, x: Json, structural: bool, p: Path, issue: Issue)
    requires p != [] && Next(s, x, structural, p[0]).None?
    ensures !FoundAfter(s, x, structural, p, issue)
  {
    hide IsFound, Next;
  }

  lemma EntryGoesOn(s: seq<Json>, x: seq<Json>, i: nat, path: Path, structural: bool, p: Path, issue: Issue)
    requires IdAddressable(s) && i < |x| && p != [] && p[0] == Index(i)
    requires Next(Arr(s), Arr(x), structural, Index(i)).Some?
    ensures var next := Next(Arr(s), Arr(x), structural, Index(i)).value;
      EntryFindings(s, x, i, path) == Findings(next.0, next.1, path + [Index(i)], next.2)
    ensures !Wrong(Arr(s), Arr(x), structural, p, issue)
  {
    EntryNext(s, x, i, structural);
    EntryCases(s, x, i, structural, p, issue);
    if HasId(x[i]) { RepeatsIs(x, i); }
    EntryFindingsBy(s, x, i, path);
    hide Findings, IdAddressable, IndexOf, FindById, Repeats, EntryFindings, Next, Wrong;
  }

  lemma EntryStops(s: seq<Json>, x: seq<Json>, i: nat, path: Path, structural: bool, p: Path, issue: Issue)
    requires IdAddressable(s) && i < |x| && p != [] && p[0] == Index(i)
    requires Next(Arr(s), Arr(x), structural, Index(i)).None?
    ensures Finding(path + p, issue) in EntryFindings(s, x, i, path) <==>
      Wrong(Arr(s), Arr(x), structural, p, issue)
  {
    var at := path + [Index(i)];
    SamePath(path, p, [Index(i)]);
    SamePath(path, p, [Index(i), Key(ID)]);
    assert at + [Key(ID)] == path + [Index(i), Key(ID)];
    EntryNext(s, x, i, structural);
    EntryCases(s, x, i, structural, p, issue);
    if HasId(x[i]) { RepeatsIs(x, i); }
    EntryFindingsBy(s, x, i, path);
    hide Findings, IdAddressable, IndexOf, FindById, Repeats, EntryFindings, Next, Wrong;
  }

  lemma EntryNext(s: seq<Json>, x: seq<Json>, i: nat, structural: bool)
    requires IdAddressable(s) && i < |x|
    ensures Next(Arr(s), Arr(x), structural, Index(i)) ==
      if Unkeyed(x[i]) then if i < |s| then Some((s[i], x[i], false)) else None
      else if Placeable(s, x, i) && !Repeats(x, i) then Some((FindById(s, IdOf(x[i])), x[i], true)) else None
  {
    hide IdAddressable, Repeats, IndexOf, FindById;
  }

  lemma EntryFindingsBy(s: seq<Json>, x: seq<Json>, i: nat, path: Path)
    requires i < |x| && (HasId(x[i]) ==> (IndexOf(x, IdOf(x[i])) < i <==> Repeats(x, i)))
    ensures var at, fs := path + [Index(i)], EntryFindings(s, x, i, path);
      fs == if x[i].Nullish() then {}
        else if Unkeyed(x[i]) then if i < |s| then Findings(s[i], x[i], at, false) else {}
        else if !x[i].Obj? then {Finding(at, EntryNotObject)}
        else if !HasId(x[i]) then {Finding(at + [Key(ID)], BadId)}
        else if !Placeable(s, x, i) then {Finding(at, UnknownId)}
        else if Repeats(x, i) then {Finding(at, DuplicateId)}
        else Findings(FindById(s, IdOf(x[i])), x[i], at, true)
  {
    hide Findings, IndexOf, FindById;
  }

  /** What may be wrong with an entry, or below it, by what the entry is. */
  lemma EntryCases(s: seq<Json>, x: seq<Json>, i: nat, structural: bool, p: Path, issue: Issue)
    requires IdAddressable(s) && i < |x| && p != [] && p[0] == Index(i)
    ensures Wrong(Arr(s), Arr(x), structural, p, issue) <==>
      if x[i].Nullish() || Unkeyed(x[i]) then false
      else if !x[i].Obj? then p == [Index(i)] && issue == EntryNotObject
      else if !HasId(x[i]) then p == [Index(i), Key(ID)] && issue == BadId
      else if !Placeable(s, x, i) then p == [Index(i)] && issue == UnknownId
      else Repeats(x, i) && p == [Index(i)] && issue == DuplicateId
  {
    assert |p| == 2 ==> p == [p[0], p[1]] && p[..1] == [p[0]];
    assert |p| == 1 ==> p == [p[0]];
    hide IdAddressable, Repeats, IndexOf;
  }

  lemma ItemFound(s: seq<Json>, x: seq<Json>, i: nat, path: Path, structural: bool, p: Path, issue: Issue)
    requires !IdAddressable(s) && i < |x| && p != [] && p[0] == Index(i)
    requires FoundBelow(Arr(s), Arr(x), path, structural, p, issue)
    ensures Finding(path + p, issue) in ItemFindings(s, x, i, path) <==>
      Wrong(Arr(s), Arr(x), structural, p, issue) || FoundAfter(Arr(s), Arr(x), structural, p, issue)
  {
    SamePath(path, p, [Index(i)]);
    hide Findings, IsFound;
  }

  lemma FieldFound(s: map<string, Json>, x: map<string, Json>, k: string, path: Path, structural: bool, p: Path,
      issue: Issue)
    requires k in x && p != [] && p[0] == Key(k)
    requires FoundBelow(Obj(s), Obj(x), path, structural, p, issue)
    ensures Finding(path + p, issue) in FieldFindings(s, x, k, path, structural) <==>
      Wrong(Obj(s), Obj(x), structural, p, issue) || FoundAfter(Obj(s), Obj(x), structural, p, issue)
  {
    SamePath(path, p, [Key(k)]);
    hide Findings, IsFound;
    if k in s && k in STRING_VALUE_OBJECTS {
      ValuesFound(s, x, k, path, structural, p, issue);
    } else if k in s && k in STRING_ARRAYS {
      ElementsFound(s, x, k, path, structural, p, issue);
    }
  }

  lemma ValuesFound(s: map<string, Json>, x: map<string, Json>, k: string, path: Path, structural: bool, p: Path,
      issue: Issue)
    requires k in x && k in s && k in STRING_VALUE_OBJECTS && p != [] && p[0] == Key(k)
    ensures Finding(path + p, issue) in ValueObjectFindings(s[k], x[k], path + [Key(k)]) <==>
      Wrong(Obj(s), Obj(x), structural, p, issue)
  {
    var at, f := path + [Key(k)], Finding(path + p, issue);
    SamePath(path, p, [Key(k)]);
    assert |p| == 2 ==> p == [p[0], p[1]] && p[..1] == [p[0]];
    if s[k].Obj? && x[k].Obj? {
      if n :| n in x[k].fields && f in InnerFindings(s[k].fields, x[k].fields, n, at) {
        assert at + [Key(n)] == path + [Key(k), Key(n)];
        SamePath(path, p, [Key(k), Key(n)]);
        assert p == [Key(k), Key(n)];
      }
      if |p| == 2 && p[1].Key? && p[1].key in x[k].fields {
        assert path + p == at + [p[1]];
        assert f in InnerFindings(s[k].fields, x[k].fields, p[1].key, at) ==> f in ValueObjectFindings(s[k], x[k], at);
      }
    }
  }

  lemma ElementsFound(s: map<string, Json>, x: map<string, Json>, k: string, path: Path, structural: bool, p: Path,
      issue: Issue)
    requires k in x && k in s && k in STRING_ARRAYS && p != [] && p[0] == Key(k)
    ensures Finding(path + p, issue) in StringArrayFindings(s[k], x[k], path + [Key(k)]) <==>
      Wrong(Obj(s), Obj(x), structural, p, issue)
  {
    var at, f := path + [Key(k)], Finding(path + p, issue);
    SamePath(path, p, [Key(k)]);
    assert |p| == 2 ==> p == [p[0], p[1]] && p[..1] == [p[0]];
    if s[k].Arr? && x[k].Arr? {
      if f in StringArrayFindings(s[k], x[k], at) {
        var n: nat :| n < |x[k].items| && f in ElementFindings(s[k].items, x[k].items, n, at);
        assert at + [Index(n)] == path + [Key(k), Index(n)];
        SamePath(path, p, [Key(k), Index(n)]);
        assert p == [Key(k), Index(n)];
      }
      if |p| == 2 && p[1].Index? && p[1].i < |x[k].items| {
        assert path + p == at + [p[1]];
        assert f in ElementFindings(s[k].items, x[k].items, p[1].i, at) ==> f in StringArrayFindings(s[k], x[k], at);
      }
    }
  }

  // ---- All findings ----------------------------------------------------------------------------

  /** Listed if and only if something of that kind is wrong at that place. */
  lemma {:induction false} FoundExactly(s: Json, x: Json, path: Path, structural: bool, p: Path, issue: Issue)
    ensures Finding(path + p, issue) in Findings(s, x, path, structural) <==> IsFound(s, x, structural, p, issue)
    decreases |p|
  {
    IsFoundStep(s, x, structural, p, issue);
    hide Findings, IsFound, Wrong, Next;
    if x.Nullish() {
      NullIsFine(s, x, path, structural);
    } else if p == [] {
      assert path + p == path;
      FoundHere(s, x, path, structural, issue);
    } else {
      assert p == [p[0]] + p[1..] && path + p == path + [p[0]] + p[1..];
      var next := Next(s, x, structural, p[0]);
      if next.Some? {
        FoundExactly(next.value.0, next.value.1, path + [p[0]], next.value.2, p[1..], issue);
      }
      FoundStep(s, x, path, structural, p, issue);
    }
  }

  lemma IsFoundStep(s: Json, x: Json, structural: bool, p: Path, issue: Issue)
    ensures IsFound(s, x, structural, p, issue) <==>
      !x.Nullish() && (Wrong(s, x, structural, p, issue) || (p != [] && FoundAfter(s, x, structural, p, issue)))
  {
    hide Wrong, Next;
  }

  lemma NullIsFine(s: Json, x: Json, path: Path, structural: bool)
    requires x.Nullish()
    ensures Findings(s, x, path, structural) == {}
  {
  }

  lemma FoundHere(s: Json, x: Json, path: Path, structural: bool, issue: Issue)
    requires !x.Nullish()
    ensures Finding(path, issue) in Findings(s, x, path, structural) <==> Wrong(s, x, structural, [], issue)
  {
    FindingsOfContainer(s, x, path, structural);
    var f := Finding(path, issue);
    if s.Arr? && x.Arr? {
      NoneInArray(s.items, x.items, path, f);
      hide Findings, EntriesBefore, ItemsBefore;
    } else if s.Obj? && x.Obj? {
      NoneInObject(s.fields, x.fields, path, structural, f);
      hide Findings, FieldsAmong;
    }
  }

  lemma NoneInArray(s: seq<Json>, x: seq<Json>, path: Path, f: Finding)
    requires f.path == path
    ensures f !in EntriesBefore(s, x, |x|, path) && f !in ItemsBefore(s, x, |x|, path)
  {
    if f in EntriesBefore(s, x, |x|, path) {
      var i := FoundEntry(s, x, path, f);
      EntryBegins(s, x, i, path, f);
    }
    if f in ItemsBefore(s, x, |x|, path) {
      var i := FoundItem(s, x, path, f);
      ItemBegins(s, x, i, path, f);
    }
  }

  lemma NoneInObject(s: map<string, Json>, x: map<string, Json>, path: Path, structural: bool, f: Finding)
    requires f.path == path
    ensures f !in FieldsAmong(s, x, x.Keys, path, structural)
  {
    if f in FieldsAmong(s, x, x.Keys, path, structural) {
      var k := FoundField(s, x, path, structural, f);
      FieldBegins(s, x, k, path, structural, f);
    }
  }

  lemma FoundStep(s: Json, x: Json, path: Path, structural: bool, p: Path, issue: Issue)
    requires !x.Nullish() && p != [] && FoundBelow(s, x, path, structural, p, issue)
    ensures Finding(path + p, issue) in Findings(s, x, path, structural) <==>
      Wrong(s, x, structural, p, issue) || FoundAfter(s, x, structural, p, issue)
  {
    if s.Arr? && x.Arr? {
      if IdAddressable(s.items) {
        EntriesFound(s.items, x.items, path, structural, p, issue);
      } else {
        ItemsFound(s.items, x.items, path, structural, p, issue);
      }
    } else if s.Obj? && x.Obj? {
      FieldsFound(s.fields, x.fields, path, structural, p, issue);
    } else {
      NothingBelow(s, x, path, structural, p, issue);
    }
  }

  lemma NothingBelow(s: Json, x: Json, path: Path, structural: bool, p: Path, issue: Issue)
    requires !x.Nullish() && p != [] && !(s.Arr? && x.Arr?) && !(s.Obj? && x.Obj?)
    ensures Finding(path + p, issue) !in Findings(s, x, path, structural)
    ensures !Wrong(s, x, structural, p, issue) && !FoundAfter(s, x, structural, p, issue)
  {
    hide *;
    OneFindingHere(s, x, path, structural);
    NothingWrongBelow(s, x, structural, p, issue);
    assert |path + p| != |path|;
  }

  lemma OneFindingHere(s: Json, x: Json, path: Path, structural: bool)
    requires !x.Nullish() && !(s.Arr? && x.Arr?) && !(s.Obj? && x.Obj?)
    ensures forall f :: f in Findings(s, x, path, structural) ==> f.path == path
  {
  }

  lemma NothingWrongBelow(s: Json, x: Json, structural: bool, p: Path, issue: Issue)
    requires p != [] && !(s.Arr? && x.Arr?) && !(s.Obj? && x.Obj?)
    ensures !Wrong(s, x, structural, p, issue) && !FoundAfter(s, x, structural, p, issue)
  {
    hide IsFound;
  }

  lemma EntriesFound(s: seq<Json>, x: seq<Json>, path: Path, structural: bool, p: Path, issue: Issue)
    requires IdAddressable(s) && p != [] && FoundBelow(Arr(s), Arr(x), path, structural, p, issue)
    ensures Finding(path + p, issue) in Findings(Arr(s), Arr(x), path, structural) <==>
      Wrong(Arr(s), Arr(x), structural, p, issue) || FoundAfter(Arr(s), Arr(x), structural, p, issue)
  {
    var f := Finding(path + p, issue);
    FindingsOfContainer(Arr(s), Arr(x), path, structural);
    assert f !in AddressingFindings(s, x, path) by { assert path + p != path; }
    assert (path + p)[|path|] == p[0];
    if p[0].Index? && p[0].i < |x| {
      EntryIsFound(s, x, path, p[0].i);
      EntryFound(s, x, p[0].i, path, structural, p, issue);
    } else {
      OutOfArray(Arr(s), Arr(x), structural, p, issue);
    }
    hide Findings, EntryFindings, AddressingFindings, Wrong, FoundAfter;
    if f in EntriesBefore(s, x, |x|, path) {
      var i := FoundEntry(s, x, path, f);
      EntryBegins(s, x, i, path, f);
      assert (path + [Index(i)])[|path|] == f.path[|path|];
    }
  }

  lemma OutOfArray(s: Json, x: Json, structural: bool, p: Path, issue: Issue)
    requires s.Arr? && x.Arr? && p != [] && !(p[0].Index? && p[0].i < |x.items|)
    ensures !Wrong(s, x, structural, p, issue) && !FoundAfter(s, x, structural, p, issue)
  {
  }

  lemma ItemsFound(s: seq<Json>, x: seq<Json>, path: Path, structural: bool, p: Path, issue: Issue)
    requires !IdAddressable(s) && p != [] && FoundBelow(Arr(s), Arr(x), path, structural, p, issue)
    ensures Finding(path + p, issue) in Findings(Arr(s), Arr(x), path, structural) <==>
      Wrong(Arr(s), Arr(x), structural, p, issue) || FoundAfter(Arr(s), Arr(x), structural, p, issue)
  {
    var f := Finding(path + p, issue);
    FindingsOfContainer(Arr(s), Arr(x), path, structural);
    assert (path + p)[|path|] == p[0];
    if p[0].Index? && p[0].i < |x| {
      ItemIsFound(s, x, path, p[0].i);
      ItemFound(s, x, p[0].i, path, structural, p, issue);
    } else {
      OutOfArray(Arr(s), Arr(x), structural, p, issue);
    }
    hide Findings, ItemFindings, Wrong, FoundAfter;
    if f in ItemsBefore(s, x, |x|, path) {
      var i := FoundItem(s, x, path, f);
      ItemBegins(s, x, i, path, f);
      assert (path + [Index(i)])[|path|] == f.path[|path|];
    }
  }

  lemma FieldsFound(s: map<string, Json>, x: map<string, Json>, path: Path, structural: bool, p: Path, issue: Issue)
    requires p != [] && FoundBelow(Obj(s), Obj(x), path, structural, p, issue)
    ensures Finding(path + p, issue) in Findings(Obj(s), Obj(x), path, structural) <==>
      Wrong(Obj(s), Obj(x), structural, p, issue) || FoundAfter(Obj(s), Obj(x), structural, p, issue)
  {
    var f := Finding(path + p, issue);
    FindingsOfContainer(Obj(s), Obj(x), path, structural);
    assert (path + p)[|path|] == p[0];
    if p[0].Key? && p[0].key in x {
      FieldIsFound(s, x, path, structural, p[0].key);
      FieldFound(s, x, p[0].key, path, structural, p, issue);
    } else {
      OutOfObject(s, x, structural, p, issue);
    }
    hide Findings, FieldFindings, Wrong, FoundAfter;
    if f in FieldsAmong(s, x, x.Keys, path, structural) {
      var k := FoundField(s, x, path, structural, f);
      FieldBegins(s, x, k, path, structural, f);
      assert (path + [Key(k)])[|path|] == f.path[|path|];
    }
  }

  lemma OutOfObject(s: map<string, Json>, x: map<string, Json>, structural: bool, p: Path, issue: Issue)
    requires p != [] && !(p[0].Key? && p[0].key in x)
    ensures !Wrong(Obj(s), Obj(x), structural, p, issue) && !FoundAfter(Obj(s), Obj(x), structural, p, issue)
  {
  }

  /** The findings of an overlay, by place and kind. */
  lemma ListedFindings(s: Json, x: Json, f: Finding)
    ensures f in Findings(s, x, [], false) <==> IsFound(s, x, false, f.path, f.issue)
  {
    assert [] + f.path == f.path;
    FoundExactly(s, x, [], false, f.path, f.issue);
  }
}
