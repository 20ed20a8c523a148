/** How one array of an overlay is matched to its source array: by the `id` its
    entries carry, or by position. */
module Addressing {
  import opened Json
  import opened Options

  function EntryId(v: Json): Option<string> {
    if v.Obj? && ID in v.fields && v.fields[ID].Text() then Some(v.fields[ID].s) else None
  }

  predicate HasId(v: Json) {
    EntryId(v).Some?
  }

  /** Every entry carries an id and no id repeats. */
  predicate IdAddressable(source: seq<Json>) {
    && |source| > 0
    && (forall i :: 0 <= i < |source| ==> HasId(source[i]))
    && (forall i, j :: 0 <= i < j < |source| ==> EntryId(source[i]) != EntryId(source[j]))
  }

  /** An overlay array is id-keyed as soon as one entry carries an id. */
  predicate HasIds(overlay: seq<Json>) {
    exists i :: 0 <= i < |overlay| && HasId(overlay[i])
  }

  function IdOf(v: Json): string
    requires HasId(v)
  {
    EntryId(v).value
  }

  /** Position of the first entry carrying `id`, or the length when there is none. */
  function IndexOf(entries: seq<Json>, id: string): (r: nat)
    ensures r <= |entries|
    ensures forall j :: 0 <= j < r ==> EntryId(entries[j]) != Some(id)
    ensures r < |entries| ==> EntryId(entries[r]) == Some(id)
  {
    if |entries| == 0 || EntryId(entries[0]) == Some(id) then 0
    else 1 + IndexOf(entries[1..], id)
  }

  function FindById(entries: seq<Json>, id: string): (r: Json)
    ensures r.Undefined? || (r in entries && EntryId(r) == Some(id))
  {
    At(entries, IndexOf(entries, id))
  }

  predicate Knows(entries: seq<Json>, id: string) {
    IndexOf(entries, id) < |entries|
  }

  /** The overlay value matched to source entry `i`: the first overlay entry carrying
      its id when both arrays are addressed by id, else the entry at the same index. */
  function Slot(source: seq<Json>, overlay: seq<Json>, i: nat): (r: Json)
    requires i < |source|
    ensures r.Undefined? || r in overlay
  {
    if IdAddressable(source) && HasIds(overlay) then FindById(overlay, IdOf(source[i]))
    else At(overlay, i)
  }

  /** In an id-addressable array an entry is found under its own id. */
  lemma FindSelf(source: seq<Json>, i: nat)
    requires IdAddressable(source) && i < |source|
    ensures IndexOf(source, IdOf(source[i])) == i
  {
  }

  /** Only the entries' ids decide where a lookup lands. */
  lemma SameIds(a: seq<Json>, b: seq<Json>, id: string)
    requires |a| == |b| && forall j :: 0 <= j < |a| ==> EntryId(a[j]) == EntryId(b[j])
    ensures IndexOf(a, id) == IndexOf(b, id)
    ensures HasIds(a) == HasIds(b)
  {
    var p, q := IndexOf(a, id), IndexOf(b, id);
    assert p < |a| ==> EntryId(a[p]) == EntryId(b[p]);
    assert q < |b| ==> EntryId(a[q]) == EntryId(b[q]);
    assert forall j :: 0 <= j < |a| ==> HasId(a[j]) == HasId(b[j]);
  }

  method IdAddressableIds(source: seq<Json>) returns (ids: Option<seq<string>>)
    ensures ids.Some? <==> IdAddressable(source)
    ensures ids.Some? ==>
      ids.value == seq(|source|, i requires 0 <= i < |source| && HasId(source[i]) => IdOf(source[i]))
  {
    var found: seq<string> := [];
    var seen: set<string> := {};
    for n := 0 to |source|
      invariant |found| == n
      invariant forall i :: 0 <= i < n ==> EntryId(source[i]) == Some(found[i])
      invariant forall i :: 0 <= i < n ==> found[i] in seen
      invariant forall x :: x in seen ==> exists i :: 0 <= i < n && found[i] == x
      invariant forall i, j :: 0 <= i < j < n ==> found[i] != found[j]
    {
      var id := EntryId(source[n]);
      if id.None? || id.value in seen {
        return None;
      }
      seen := seen + {id.value};
      found := found + [id.value];
    }
    return if |found| > 0 then Some(found) else None;
  }

  method IndexOverlayById(overlay: seq<Json>) returns (byId: map<string, Json>)
    ensures byId.Keys == {} <==> !HasIds(overlay)
    ensures forall id :: id in byId <==> Knows(overlay, id)
    ensures forall id :: id in byId ==> byId[id] == FindById(overlay, id)
  {
    byId := map[];
    for n := 0 to |overlay|
      invariant forall id :: id in byId <==> IndexOf(overlay, id) < n
      invariant forall id :: id in byId ==> byId[id] == overlay[IndexOf(overlay, id)]
    {
      var id := EntryId(overlay[n]);
      if id.Some? && id.value !in byId {
        byId := byId[id.value := overlay[n]];
      }
    }
    if HasIds(overlay) {
      var i :| 0 <= i < |overlay| && HasId(overlay[i]);
      assert IdOf(overlay[i]) in byId;
    }
  }
}
