/** Which existing entries the seeder's merge reports as dropped, told place by place. */
module DropPlaces {
  import opened Json
  import opened Options
  import opened Addressing
  import opened Seed
  import opened SeedDrops

  /** What the merge brings together one step in: source, existing and seeded value. */
  function Met(s: Json, e: Json, f: Json, step: Step): Option<(Json, Json, Json)> {
    var c := Container(e, f);
    match step
    case Key(k) =>
      if e.Obj? && c.Obj? && k in e.fields then Some((SourceField(s, k), e.fields[k], Get(c.fields, k))) else None
    case Index(i) =>
      if e.Arr? && c.Arr? && i < Width(s, e.items, c.items)
      then Some((SourceItem(s, i), Pair(s, e.items, c.items, e.items, i), Pair(s, e.items, c.items, c.items, i)))
      else None
  }

  /** Why an entry has no place among the entries of an id-addressable source array. */
  function Unplaced(s: seq<Json>, x: Json): Option<Reason> {
    if x.Nullish() then None
    else
      var id := Child(x, Key(ID));
      if !id.Str? then Some(NoId) else if exists j :: 0 <= j < |s| && EntryId(s[j]) == Some(id.s) then None
      else Some(UnknownId(id.s))
  }

  /** The place is an entry, for that reason without a place, of an existing array matched by id. */
  predicate IsDropped(s: Json, e: Json, f: Json, p: Path, reason: Reason)
    decreases |p|
  {
    if p == [] then false
    else if |p| == 1 then
      var c := Container(e, f);
      && e.Arr? && c.Arr? && Keyed(s, e.items, c.items)
      && p[0].Index? && p[0].i < |e.items| && Unplaced(s.items, e.items[p[0].i]) == Some(reason)
    else
      var met := Met(s, e, f, p[0]);
      met.Some? && IsDropped(met.value.0, met.value.1, met.value.2, p[1..], reason)
  }

  lemma UnplacedIs(s: seq<Json>, e: seq<Json>, i: nat, path: Path, d: Drop)
    requires i < |e|
    ensures d in DroppedHere(s, e, i, path) <==> d.path == path + [Index(i)] && Unplaced(s, e[i]) == Some(d.reason)
  {
    if e[i].Obj? && Get(e[i].fields, ID).Str? {
      var id := e[i].fields[ID].s;
      assert Knows(s, id) <==> exists j :: 0 <= j < |s| && EntryId(s[j]) == Some(id);
    }
  }

  /** All that is reported of a pair lies below its path. */
  lemma {:induction false} DropLiesBelow(s: Json, e: Json, f: Json, path: Path, d: Drop)
    requires d in Dropped(s, e, f, path)
    ensures path < d.path
    decreases !e.Nullish(), e, 1
  {
    var c := Container(e, f);
    if e.Arr? && c.Arr? {
      DroppedArr(s, e.items, f, path);
      if Keyed(s, e.items, c.items) && d in HereBefore(s.items, e.items, |e.items|, path) {
        var i: nat :| i < |e.items| && d in DroppedHere(s.items, e.items, i, path);
        UnplacedIs(s.items, e.items, i, path, d);
      } else {
        var i := DroppedPair(s, e.items, c.items, path, d);
        DropLiesBelow(SourceItem(s, i), Pair(s, e.items, c.items, e.items, i), Pair(s, e.items, c.items, c.items, i),
          path + [Index(i)], d);
      }
    } else if e.Obj? && c.Obj? {
      DroppedObj(s, e.fields, f, path);
      var k :| k in e.fields && d in FieldDropped(s, e.fields, c.fields, k, path);
      DropLiesBelow(SourceField(s, k), e.fields[k], Get(c.fields, k), path + [Key(k)], d);
    }
  }

  lemma DroppedPair(s: Json, e: seq<Json>, f: seq<Json>, path: Path, d: Drop) returns (i: nat)
    requires d in PairsBefore(s, e, f, Width(s, e, f), path)
    ensures i < Width(s, e, f) && d in PairDropped(s, e, f, i, path)
  {
    i :| i < Width(s, e, f) && d in PairDropped(s, e, f, i, path);
  }

  lemma PairIsDropped(s: Json, e: seq<Json>, f: seq<Json>, path: Path, i: nat)
    requires i < Width(s, e, f)
    ensures PairDropped(s, e, f, i, path) <= PairsBefore(s, e, f, Width(s, e, f), path)
  {
  }

  lemma HereIsDropped(s: seq<Json>, e: seq<Json>, path: Path, d: Drop, i: nat)
    requires d.path == path + [Index(i)]
    ensures d in HereBefore(s, e, |e|, path) <==> i < |e| && Unplaced(s, e[i]) == Some(d.reason)
  {
    if j: nat :| j < |e| && d in DroppedHere(s, e, j, path) {
      UnplacedIs(s, e, j, path, d);
      assert (path + [Index(i)])[|path|] == (path + [Index(j)])[|path|];
    }
    if i < |e| { UnplacedIs(s, e, i, path, d); }
  }

  lemma HereIsShort(s: seq<Json>, e: seq<Json>, path: Path, d: Drop)
    requires d in HereBefore(s, e, |e|, path)
    ensures |d.path| == |path| + 1
  {
    var j: nat :| j < |e| && d in DroppedHere(s, e, j, path);
    UnplacedIs(s, e, j, path, d);
  }

  /** Reported with the reason for it if and only if the place is such an entry. */
  lemma {:induction false} DropsExactly(s: Json, e: Json, f: Json, path: Path, p: Path, reason: Reason)
    ensures Drop(path + p, reason) in Dropped(s, e, f, path) <==> IsDropped(s, e, f, p, reason)
    decreases |p|
  {
    var d, c := Drop(path + p, reason), Container(e, f);
    if p == [] {
      assert path + p == path;
      if d in Dropped(s, e, f, path) { DropLiesBelow(s, e, f, path, d); }
    } else {
      assert p == [p[0]] + p[1..] && path + p == path + [p[0]] + p[1..];
      if |p| > 1 {
        var met := Met(s, e, f, p[0]);
        if met.Some? {
          DropsExactly(met.value.0, met.value.1, met.value.2, path + [p[0]], p[1..], reason);
        }
      }
      hide Dropped, IsDropped;
      if e.Arr? && c.Arr? {
        ItemDrops(s, e.items, f, path, p, reason);
      } else if e.Obj? && c.Obj? {
        FieldDrops(s, e.fields, f, path, p, reason);
      } else {
        OtherDrops(s, e, f, path, p, reason);
      }
    }
  }

  /** The report below one step is that of what the merge brings together there. */
  ghost predicate DropsBelow(s: Json, e: Json, f: Json, path: Path, p: Path, reason: Reason)
    requires p != []
  {
    var met := Met(s, e, f, p[0]);
    |p| > 1 && met.Some? ==>
      (Drop(path + p, reason) in Dropped(met.value.0, met.value.1, met.value.2, path + [p[0]]) <==>
         IsDropped(met.value.0, met.value.1, met.value.2, p[1..], reason))
  }

  lemma OtherDrops(s: Json, e: Json, f: Json, path: Path, p: Path, reason: Reason)
    requires p != [] && !(e.Arr? && Container(e, f).Arr?) && !(e.Obj? && Container(e, f).Obj?)
    ensures Drop(path + p, reason) !in Dropped(s, e, f, path) && !IsDropped(s, e, f, p, reason)
  {
  }

  lemma ItemDrops(s: Json, e: seq<Json>, f: Json, path: Path, p: Path, reason: Reason)
    requires p != [] && Container(Arr(e), f).Arr? && DropsBelow(s, Arr(e), f, path, p, reason)
    ensures Drop(path + p, reason) in Dropped(s, Arr(e), f, path) <==> IsDropped(s, Arr(e), f, p, reason)
  {
    var d, c := Drop(path + p, reason), Container(Arr(e), f).items;
    DroppedArr(s, e, f, path);
    hide Dropped, PairsBefore, HereBefore;
    assert (path + p)[|path|] == p[0];
    if d in PairsBefore(s, e, c, Width(s, e, c), path) {
      var i := DroppedPair(s, e, c, path, d);
      DropLiesBelow(SourceItem(s, i), Pair(s, e, c, e, i), Pair(s, e, c, c, i), path + [Index(i)], d);
      assert (path + [Index(i)])[|path|] == d.path[|path|];
      assert |p| > 1 && p[0] == Index(i);
    }
    if |p| == 1 {
      if p[0].Index? && Keyed(s, e, c) { HereIsDropped(s.items, e, path, d, p[0].i); }
      if Keyed(s, e, c) && d in HereBefore(s.items, e, |e|, path) { HereHasIndex(s.items, e, path, d); }
    } else {
      if Keyed(s, e, c) && d in HereBefore(s.items, e, |e|, path) { HereIsShort(s.items, e, path, d); }
      if p[0].Index? && p[0].i < Width(s, e, c) { PairIsDropped(s, e, c, path, p[0].i); }
    }
  }

  lemma HereHasIndex(s: seq<Json>, e: seq<Json>, path: Path, d: Drop)
    requires d in HereBefore(s, e, |e|, path) && |d.path| > |path|
    ensures d.path[|path|].Index?
  {
    var j: nat :| j < |e| && d in DroppedHere(s, e, j, path);
    UnplacedIs(s, e, j, path, d);
  }

  lemma FieldDrops(s: Json, e: map<string, Json>, f: Json, path: Path, p: Path, reason: Reason)
    requires p != [] && Container(Obj(e), f).Obj? && DropsBelow(s, Obj(e), f, path, p, reason)
    ensures Drop(path + p, reason) in Dropped(s, Obj(e), f, path) <==> IsDropped(s, Obj(e), f, p, reason)
  {
    var d, c := Drop(path + p, reason), Container(Obj(e), f).fields;
    DroppedFields(s, e, f, path, d);
    FieldStep(s, e, f, path, p, reason);
    hide Dropped, FieldDropped, IsDropped, DropsBelow;
    if k :| k in e && d in FieldDropped(s, e, c, k, path) {
      FieldLiesBelow(s, e, c, k, path, p, reason);
    }
  }

  lemma FieldLiesBelow(s: Json, e: map<string, Json>, f: map<string, Json>, k: string, path: Path, p: Path,
      reason: Reason)
    requires p != [] && k in e && Drop(path + p, reason) in FieldDropped(s, e, f, k, path)
    ensures |p| > 1 && p[0] == Key(k)
  {
    DropLiesBelow(SourceField(s, k), e[k], Get(f, k), path + [Key(k)], Drop(path + p, reason));
    hide *;
    assert (path + p)[|path|] == p[0] && (path + [Key(k)])[|path|] == Key(k);
    assert (path + p)[..|path| + 1] == path + [Key(k)];
    assert (path + p)[..|path| + 1][|path|] == (path + p)[|path|];
  }

  lemma FieldStep(s: Json, e: map<string, Json>, f: Json, path: Path, p: Path, reason: Reason)
    requires p != [] && Container(Obj(e), f).Obj? && DropsBelow(s, Obj(e), f, path, p, reason)
    ensures IsDropped(s, Obj(e), f, p, reason) ==> |p| > 1 && p[0].Key? && p[0].key in e
    ensures |p| > 1 && p[0].Key? && p[0].key in e ==>
      (IsDropped(s, Obj(e), f, p, reason) <==>
         Drop(path + p, reason) in FieldDropped(s, e, Container(Obj(e), f).fields, p[0].key, path))
  {
    hide Dropped;
  }

  lemma DroppedFields(s: Json, e: map<string, Json>, f: Json, path: Path, d: Drop)
    requires Container(Obj(e), f).Obj?
    ensures d in Dropped(s, Obj(e), f, path) <==>
      exists k :: k in e && d in FieldDropped(s, e, Container(Obj(e), f).fields, k, path)
  {
  }

  /** The drops reported of an existing overlay over a seed. */
  lemma ReportedDrops(s: Json, e: Json, f: Json, d: Drop)
    ensures d in Dropped(s, e, f, []) <==> IsDropped(s, e, f, d.path, d.reason)
  {
    assert [] + d.path == d.path;
    DropsExactly(s, e, f, [], d.path, d.reason);
  }
}
