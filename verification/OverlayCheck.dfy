/** The rule for what an overlay may say about its source: a checker written apart from
    the merger, addressing text the way the merger does. */
module OverlayCheck {
  import opened Json
  import opened Options
  import opened Addressing
  import opened Allowlist

  datatype Issue =
    | NotAnArray
    | TooManyEntries
    | EntryNotObject
    | BadId
    | UnknownId
    | DuplicateId
    | MixedAddressing
    | NoIds
    | IdNotAddressable
    | BeyondLength
    | NotAnObject
    | NoSuchKey
    | SourceNotString
    | NotAString
    | SourceNotObject
    | NotAStringObject
    | InnerNotAString
    | SourceNotArray
    | ValueNotArray
    | ElementNotText
    | ElementBeyondLength
    | NotAllowed   // the finding that carries `rewrites`

  datatype Finding = Finding(path: Path, issue: Issue)

  // ---- What is found ------------------------------------------------------------

  /** The findings for `overlay` over `source`; `structural` says that the overlay's own
      `id` has been checked as the matching key. */
  ghost function Findings(source: Json, overlay: Json, path: Path, structural: bool): set<Finding>
    decreases overlay, 1
  {
    if overlay.Nullish() then {}
    else match source
      case Arr(s) =>
        if !overlay.Arr? then {Finding(path, NotAnArray)}
        else if IdAddressable(s) then
          AddressingFindings(s, overlay.items, path)
          + set i: nat, f | i < |overlay.items| && f in EntryFindings(s, overlay.items, i, path) :: f
        else set i: nat, f | i < |overlay.items| && f in ItemFindings(s, overlay.items, i, path) :: f
      case Obj(s) =>
        if !overlay.Obj? then {Finding(path, NotAnObject)}
        else set k, f | k in overlay.fields && f in FieldFindings(s, overlay.fields, k, path, structural) :: f
      case _ => {Finding(path, NotAllowed)}
  }

  /** An entry that names no id at all, in an array that should. */
  predicate Unkeyed(entry: Json) {
    entry.Obj? && Get(entry.fields, ID).Undefined?
  }

  predicate HasUnkeyed(o: seq<Json>) {
    exists i :: 0 <= i < |o| && Unkeyed(o[i])
  }

  ghost function AddressingFindings(s: seq<Json>, o: seq<Json>, path: Path): set<Finding> {
    (if |o| > |s| then {Finding(path, TooManyEntries)} else {})
    + (if HasIds(o) && HasUnkeyed(o) then {Finding(path, MixedAddressing)}
       else if HasUnkeyed(o) then {Finding(path, NoIds)}
       else {})
  }

  /** One entry of an overlay array over an id-addressable source array. */
  ghost function EntryFindings(s: seq<Json>, o: seq<Json>, i: nat, path: Path): set<Finding>
    requires i < |o|
    decreases o[i], 2
  {
    var at := path + [Index(i)];
    if o[i].Nullish() then {}
    else if !o[i].Obj? then {Finding(at, EntryNotObject)}
    else if Unkeyed(o[i]) then if i < |s| then Findings(s[i], o[i], at, false) else {}
    else if !HasId(o[i]) then {Finding(at + [Key(ID)], BadId)}
    else if !Knows(s, IdOf(o[i])) then {Finding(at, UnknownId)}
    else if IndexOf(o, IdOf(o[i])) < i then {Finding(at, DuplicateId)}
    else Findings(FindById(s, IdOf(o[i])), o[i], at, true)
  }

  /** One entry of an overlay array over an array matched by position. */
  ghost function ItemFindings(s: seq<Json>, o: seq<Json>, i: nat, path: Path): set<Finding>
    requires i < |o|
    decreases o[i], 2
  {
    var at := path + [Index(i)];
    (if o[i].Obj? && ID in o[i].fields then {Finding(at, IdNotAddressable)} else {})
    + (if i >= |s| then {Finding(at, BeyondLength)} else Findings(s[i], o[i], at, false))
  }

  ghost function FieldFindings(s: map<string, Json>, o: map<string, Json>, k: string, path: Path, structural: bool)
    : set<Finding>
    requires k in o
    decreases o[k], 2
  {
    var v, at := o[k], path + [Key(k)];
    if k !in s then {Finding(at, NoSuchKey)}
    else if k in STRING_FIELDS then
      if !s[k].Str? then {Finding(at, SourceNotString)} else if !v.Str? then {Finding(at, NotAString)} else {}
    else if k in STRING_VALUE_OBJECTS then ValueObjectFindings(s[k], v, at)
    else if k in STRING_ARRAYS then StringArrayFindings(s[k], v, at)
    else if k == ID && structural then {}
    else if v.Str? || v.Num? || v.Bool? then {Finding(at, NotAllowed)}
    else Findings(s[k], v, at, false)
  }

  ghost function ValueObjectFindings(sv: Json, v: Json, at: Path): set<Finding> {
    if !sv.Obj? then {Finding(at, SourceNotObject)}
    else if !v.Obj? then {Finding(at, NotAStringObject)}
    else set k, f | k in v.fields && f in InnerFindings(sv.fields, v.fields, k, at) :: f
  }

  ghost function InnerFindings(sv: map<string, Json>, v: map<string, Json>, k: string, at: Path): set<Finding>
    requires k in v
  {
    if k !in sv then {Finding(at + [Key(k)], NoSuchKey)}
    else if !v[k].Str? then {Finding(at + [Key(k)], InnerNotAString)}
    else {}
  }

  ghost function StringArrayFindings(sv: Json, v: Json, at: Path): set<Finding> {
    if !sv.Arr? then {Finding(at, SourceNotArray)}
    else if !v.Arr? then {Finding(at, ValueNotArray)}
    else set i: nat, f | i < |v.items| && f in ElementFindings(sv.items, v.items, i, at) :: f
  }

  ghost function ElementFindings(sv: seq<Json>, v: seq<Json>, i: nat, at: Path): set<Finding>
    requires i < |v|
  {
    if i >= |sv| then {Finding(at + [Index(i)], ElementBeyondLength)}
    else if !v[i].Null? && !v[i].Str? then {Finding(at + [Index(i)], ElementNotText)}
    else {}
  }

  // ---- Finding it ---------------------------------------------------------------

  class FindingList {
    var findings: seq<Finding>

    constructor ()
      ensures findings == []
    {
      findings := [];
    }

    ghost function Listed(): set<Finding>
      reads this
    {
      set f | f in findings
    }

    method Push(path: Path, issue: Issue)
      modifies this
      ensures findings == old(findings) + [Finding(path, issue)]
      ensures Listed() == old(Listed()) + {Finding(path, issue)}
    {
      findings := findings + [Finding(path, issue)];
    }
  }

  ghost function EntriesBefore(s: seq<Json>, o: seq<Json>, n: nat, path: Path): set<Finding>
    requires n <= |o|
  {
    set i: nat, f | i < n && f in EntryFindings(s, o, i, path) :: f
  }

  lemma EntriesStep(s: seq<Json>, o: seq<Json>, n: nat, path: Path)
    requires n < |o|
    ensures EntriesBefore(s, o, n + 1, path) == EntriesBefore(s, o, n, path) + EntryFindings(s, o, n, path)
  {
  }

  ghost function ItemsBefore(s: seq<Json>, o: seq<Json>, n: nat, path: Path): set<Finding>
    requires n <= |o|
  {
    set i: nat, f | i < n && f in ItemFindings(s, o, i, path) :: f
  }

  lemma ItemsStep(s: seq<Json>, o: seq<Json>, n: nat, path: Path)
    requires n < |o|
    ensures ItemsBefore(s, o, n + 1, path) == ItemsBefore(s, o, n, path) + ItemFindings(s, o, n, path)
  {
  }

  ghost function FieldsAmong(s: map<string, Json>, o: map<string, Json>, keys: set<string>, path: Path,
      structural: bool)
    : set<Finding>
    requires keys <= o.Keys
  {
    set k, f | k in keys && f in FieldFindings(s, o, k, path, structural) :: f
  }

  lemma FieldsStep(s: map<string, Json>, o: map<string, Json>, keys: set<string>, k: string, path: Path,
      structural: bool)
    requires keys <= o.Keys && k in o
    ensures FieldsAmong(s, o, keys + {k}, path, structural) ==
      FieldsAmong(s, o, keys, path, structural) + FieldFindings(s, o, k, path, structural)
  {
  }

  lemma {:induction false} FindingsOfContainer(s: Json, o: Json, path: Path, structural: bool)
    requires !o.Nullish()
    ensures s.Arr? && o.Arr? && IdAddressable(s.items) ==>
      Findings(s, o, path, structural) ==
        AddressingFindings(s.items, o.items, path) + EntriesBefore(s.items, o.items, |o.items|, path)
    ensures s.Arr? && o.Arr? && !IdAddressable(s.items) ==>
      Findings(s, o, path, structural) == ItemsBefore(s.items, o.items, |o.items|, path)
    ensures s.Obj? && o.Obj? ==>
      Findings(s, o, path, structural) == FieldsAmong(s.fields, o.fields, o.fields.Keys, path, structural)
  {
  }

  ghost function InnerAmong(sv: map<string, Json>, v: map<string, Json>, keys: set<string>, at: Path): set<Finding>
    requires keys <= v.Keys
  {
    set k, f | k in keys && f in InnerFindings(sv, v, k, at) :: f
  }

  lemma InnerStep(sv: map<string, Json>, v: map<string, Json>, keys: set<string>, k: string, at: Path)
    requires keys <= v.Keys && k in v
    ensures InnerAmong(sv, v, keys + {k}, at) == InnerAmong(sv, v, keys, at) + InnerFindings(sv, v, k, at)
  {
  }

  ghost function ElementsBefore(sv: seq<Json>, v: seq<Json>, n: nat, at: Path): set<Finding>
    requires n <= |v|
  {
    set i: nat, f | i < n && f in ElementFindings(sv, v, i, at) :: f
  }

  lemma ElementsStep(sv: seq<Json>, v: seq<Json>, n: nat, at: Path)
    requires n < |v|
    ensures ElementsBefore(sv, v, n + 1, at) == ElementsBefore(sv, v, n, at) + ElementFindings(sv, v, n, at)
  {
  }

  method Walk(source: Json, overlay: Json, path: Path, findings: FindingList, structural: bool)
    modifies findings
    ensures old(findings.findings) <= findings.findings
    ensures findings.Listed() == old(findings.Listed()) + Findings(source, overlay, path, structural)
    decreases overlay, 6
  {
    if overlay.Nullish() {
      return;
    }
    if source.Arr? {
      if !overlay.Arr? {
        findings.Push(path, NotAnArray);
        return;
      }
      var ids := IdAddressableIds(source.items);
      if ids.Some? {
        WalkIdArray(source.items, overlay.items, path, findings);
      } else {
        WalkArray(source.items, overlay.items, path, findings);
      }
    } else if source.Obj? {
      if !overlay.Obj? {
        findings.Push(path, NotAnObject);
        return;
      }
      WalkFields(source.fields, overlay.fields, path, findings, structural);
    } else {
      findings.Push(path, NotAllowed);
    }
  }

  /** The known ids of the first `n` entries. */
  ghost predicate Seen(s: seq<Json>, o: seq<Json>, n: nat, seen: set<string>) {
    forall id :: id in seen <==> Knows(s, id) && IndexOf(o, id) < n
  }

  ghost predicate HasIdBefore(o: seq<Json>, n: nat)
    requires n <= |o|
  {
    exists i :: 0 <= i < n && HasId(o[i])
  }

  ghost predicate UnkeyedBefore(o: seq<Json>, n: nat)
    requires n <= |o|
  {
    exists i :: 0 <= i < n && Unkeyed(o[i])
  }

  lemma SeenStep(s: seq<Json>, o: seq<Json>, n: nat, seen: set<string>)
    requires n < |o| && Seen(s, o, n, seen)
    ensures Seen(s, o, n + 1, if HasId(o[n]) && Knows(s, IdOf(o[n])) then seen + {IdOf(o[n])} else seen)
    ensures HasIdBefore(o, n + 1) == (HasIdBefore(o, n) || HasId(o[n]))
    ensures UnkeyedBefore(o, n + 1) == (UnkeyedBefore(o, n) || Unkeyed(o[n]))
  {
    var next := if HasId(o[n]) && Knows(s, IdOf(o[n])) then seen + {IdOf(o[n])} else seen;
    forall id ensures id in next <==> Knows(s, id) && IndexOf(o, id) < n + 1 {
      assert IndexOf(o, id) == n ==> EntryId(o[n]) == Some(id);
    }
  }

  method WalkIdArray(s: seq<Json>, o: seq<Json>, path: Path, findings: FindingList)
    requires IdAddressable(s)
    modifies findings
    ensures old(findings.findings) <= findings.findings
    ensures findings.Listed() ==
      old(findings.Listed()) + AddressingFindings(s, o, path) + EntriesBefore(s, o, |o|, path)
    decreases Arr(o), 5
  {
    if |o| > |s| {
      findings.Push(path, TooManyEntries);
    }
    var idKeyed, positional := WalkEntries(s, o, path, findings);
    if idKeyed && positional {
      findings.Push(path, MixedAddressing);
    } else if positional {
      findings.Push(path, NoIds);
    }
  }

  method WalkEntries(s: seq<Json>, o: seq<Json>, path: Path, findings: FindingList)
    returns (idKeyed: bool, positional: bool)
    modifies findings
    ensures old(findings.findings) <= findings.findings
    ensures findings.Listed() == old(findings.Listed()) + EntriesBefore(s, o, |o|, path)
    ensures idKeyed == HasIds(o) && positional == HasUnkeyed(o)
    decreases Arr(o), 4
  {
    var seen: set<string> := {};
    idKeyed, positional := false, false;
    for n := 0 to |o|
      invariant old(findings.findings) <= findings.findings
      invariant findings.Listed() == old(findings.Listed()) + EntriesBefore(s, o, n, path)
      invariant idKeyed == HasIdBefore(o, n) && positional == UnkeyedBefore(o, n)
      invariant Seen(s, o, n, seen)
    {
      EntriesStep(s, o, n, path);
      SeenStep(s, o, n, seen);
      WalkEntry(s, o, n, HasId(o[n]) && IdOf(o[n]) in seen, path, findings);
      positional := positional || Unkeyed(o[n]);
      idKeyed := idKeyed || HasId(o[n]);
      if HasId(o[n]) && Knows(s, IdOf(o[n])) {
        seen := seen + {IdOf(o[n])};
      }
    }
  }

  method WalkEntry(s: seq<Json>, o: seq<Json>, i: nat, seen: bool, path: Path, findings: FindingList)
    requires i < |o|
    requires HasId(o[i]) && Knows(s, IdOf(o[i])) ==> (seen <==> IndexOf(o, IdOf(o[i])) < i)
    modifies findings
    ensures old(findings.findings) <= findings.findings
    ensures findings.Listed() == old(findings.Listed()) + EntryFindings(s, o, i, path)
    decreases Arr(o), 3
  {
    var entry, at := o[i], path + [Index(i)];
    if entry.Nullish() {
      return;
    }
    if !entry.Obj? {
      findings.Push(at, EntryNotObject);
      return;
    }
    var id := Get(entry.fields, ID);
    if id.Undefined? {
      if i < |s| {
        Walk(s[i], entry, at, findings, false);
      }
    } else if !id.Text() {
      findings.Push(at + [Key(ID)], BadId);
    } else if !Knows(s, id.s) {
      findings.Push(at, UnknownId);
    } else if seen {
      findings.Push(at, DuplicateId);
    } else {
      Walk(s[IndexOf(s, id.s)], entry, at, findings, true);
    }
  }

  method WalkArray(s: seq<Json>, o: seq<Json>, path: Path, findings: FindingList)
    modifies findings
    ensures old(findings.findings) <= findings.findings
    ensures findings.Listed() == old(findings.Listed()) + ItemsBefore(s, o, |o|, path)
    decreases Arr(o), 4
  {
    for n := 0 to |o|
      invariant old(findings.findings) <= findings.findings
      invariant findings.Listed() == old(findings.Listed()) + ItemsBefore(s, o, n, path)
    {
      ItemsStep(s, o, n, path);
      WalkItem(s, o, n, path, findings);
    }
  }

  method WalkItem(s: seq<Json>, o: seq<Json>, n: nat, path: Path, findings: FindingList)
    requires n < |o|
    modifies findings
    ensures old(findings.findings) <= findings.findings
    ensures findings.Listed() == old(findings.Listed()) + ItemFindings(s, o, n, path)
    decreases Arr(o), 3
  {
    var at := path + [Index(n)];
    if o[n].Obj? && ID in o[n].fields {
      findings.Push(at, IdNotAddressable);
    }
    if n >= |s| {
      findings.Push(at, BeyondLength);
    } else {
      Walk(s[n], o[n], at, findings, false);
    }
  }

  method WalkFields(s: map<string, Json>, o: map<string, Json>, path: Path, findings: FindingList, structural: bool)
    modifies findings
    ensures old(findings.findings) <= findings.findings
    ensures findings.Listed() == old(findings.Listed()) + FieldsAmong(s, o, o.Keys, path, structural)
    decreases Obj(o), 4
  {
    var keys, visited: set<string> := o.Keys, {};
    assert FieldsAmong(s, o, {}, path, structural) == {};
    while keys - visited != {}
      invariant visited <= keys
      invariant old(findings.findings) <= findings.findings
      invariant findings.Listed() == old(findings.Listed()) + FieldsAmong(s, o, visited, path, structural)
      decreases keys - visited
    {
      var k :| k in keys - visited;
      FieldsStep(s, o, visited, k, path, structural);
      visited := visited + {k};
      WalkField(s, o, k, path, findings, structural);
    }
    assert forall k :: k in keys ==> k !in keys - visited;
    assert visited == keys;
  }

  method WalkField(s: map<string, Json>, o: map<string, Json>, k: string, path: Path, findings: FindingList,
      structural: bool)
    requires k in o
    modifies findings
    ensures old(findings.findings) <= findings.findings
    ensures findings.Listed() == old(findings.Listed()) + FieldFindings(s, o, k, path, structural)
    decreases Obj(o), 3
  {
    var v, at := o[k], path + [Key(k)];
    if k !in s {
      findings.Push(at, NoSuchKey);
    } else if k in STRING_FIELDS {
      if !s[k].Str? {
        findings.Push(at, SourceNotString);
      } else if !v.Str? {
        findings.Push(at, NotAString);
      }
    } else if k in STRING_VALUE_OBJECTS {
      WalkValueObject(s[k], v, at, findings);
    } else if k in STRING_ARRAYS {
      WalkStringArray(s[k], v, at, findings);
    } else if k == ID && structural {
    } else if v.Str? || v.Num? || v.Bool? {
      findings.Push(at, NotAllowed);
    } else {
      Walk(s[k], v, at, findings, false);
    }
  }

  method WalkValueObject(sv: Json, v: Json, at: Path, findings: FindingList)
    modifies findings
    ensures old(findings.findings) <= findings.findings
    ensures findings.Listed() == old(findings.Listed()) + ValueObjectFindings(sv, v, at)
  {
    if !sv.Obj? {
      findings.Push(at, SourceNotObject);
    } else if !v.Obj? {
      findings.Push(at, NotAStringObject);
    } else {
      var keys, visited: set<string> := v.fields.Keys, {};
      while keys - visited != {}
        invariant visited <= keys
        invariant old(findings.findings) <= findings.findings
        invariant findings.Listed() == old(findings.Listed()) + InnerAmong(sv.fields, v.fields, visited, at)
        decreases keys - visited
      {
        var k :| k in keys - visited;
        InnerStep(sv.fields, v.fields, visited, k, at);
        visited := visited + {k};
        if k !in sv.fields {
          findings.Push(at + [Key(k)], NoSuchKey);
        } else if !v.fields[k].Str? {
          findings.Push(at + [Key(k)], InnerNotAString);
        }
      }
      assert visited == keys;
    }
  }

  method WalkStringArray(sv: Json, v: Json, at: Path, findings: FindingList)
    modifies findings
    ensures old(findings.findings) <= findings.findings
    ensures findings.Listed() == old(findings.Listed()) + StringArrayFindings(sv, v, at)
  {
    if !sv.Arr? {
      findings.Push(at, SourceNotArray);
    } else if !v.Arr? {
      findings.Push(at, ValueNotArray);
    } else {
      for n := 0 to |v.items|
        invariant old(findings.findings) <= findings.findings
        invariant findings.Listed() == old(findings.Listed()) + ElementsBefore(sv.items, v.items, n, at)
      {
        ElementsStep(sv.items, v.items, n, at);
        if n >= |sv.items| {
          findings.Push(at + [Index(n)], ElementBeyondLength);
        } else if !v.items[n].Null? && !v.items[n].Str? {
          findings.Push(at + [Index(n)], ElementNotText);
        }
      }
    }
  }

  // ---- The check of one overlay ---------------------------------------------------

  predicate Truthy(v: Json) {
    match v
    case Undefined => false
    case Null => false
    case Bool(b) => b
    case Num(n) => n != 0.0
    case Str(s) => |s| > 0
    case _ => true
  }

  /** The loader's migration: a layer's `aliases` is read as its `slots`. */
  function NormaliseSource(raw: Json): Json {
    if raw.Obj? && Truthy(Get(raw.fields, "aliases")) && !Truthy(Get(raw.fields, "slots")) then
      Obj((raw.fields - {"aliases"})["slots" := raw.fields["aliases"]])
    else raw
  }

  method OverlayFindings(source: Json, overlay: Json) returns (findings: seq<Finding>)
    ensures (set f | f in findings) == Findings(NormaliseSource(source), overlay, [], false)
  {
    var list := new FindingList();
    Walk(NormaliseSource(source), overlay, [], list, false);
    findings := list.findings;
  }
}
