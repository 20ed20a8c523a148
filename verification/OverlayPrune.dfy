/** The parts of an overlay its source cannot place: reported as paths, or pruned. */
module OverlayPrune {
  import opened Json
  import opened Options
  import opened Addressing
  import opened Overlay

  // ---- The report -----------------------------------------------------------

  /** The paths under `path` at which `overlay` holds something `source` has no place for. */
  ghost function Stale(source: Json, overlay: Json, path: Path): set<Path>
    decreases overlay, 0
  {
    match overlay
    case Undefined => {}
    case Null => {}
    case Arr(o) =>
      if !source.Arr? then {path}
      else set i: nat, p | i < |o| && p in StaleEntry(source.items, o, i, path) :: p
    case Obj(o) =>
      if !source.Obj? then {path}
      else set k, p | k in o && p in StaleField(source.fields, o, k, path) :: p
    case _ => if source.Nullish() then {path} else {}
  }

  ghost function StaleEntry(s: seq<Json>, o: seq<Json>, i: nat, path: Path): set<Path>
    requires i < |o|
    decreases o[i], 1
  {
    var at := path + [Index(i)];
    if IdAddressable(s) && HasIds(o) then
      if !HasId(o[i]) then {}
      else if !Knows(s, IdOf(o[i])) then {at}
      else Stale(FindById(s, IdOf(o[i])), o[i], at)
    else if i >= |s| then {at}
    else Stale(s[i], o[i], at)
  }

  ghost function StaleField(s: map<string, Json>, o: map<string, Json>, k: string, path: Path): set<Path>
    requires k in o
    decreases o[k], 1
  {
    var at := path + [Key(k)];
    if k == ID then {}
    else if k !in s then {at}
    else Stale(s[k], o[k], at)
  }

  ghost function StaleBefore(s: seq<Json>, o: seq<Json>, n: nat, path: Path): set<Path>
    requires n <= |o|
  {
    set i: nat, p | i < n && p in StaleEntry(s, o, i, path) :: p
  }

  lemma StaleBeforeStep(s: seq<Json>, o: seq<Json>, n: nat, path: Path)
    requires n < |o|
    ensures StaleBefore(s, o, n + 1, path) == StaleBefore(s, o, n, path) + StaleEntry(s, o, n, path)
  {
  }

  ghost function StaleIn(s: map<string, Json>, o: map<string, Json>, keys: set<string>, path: Path): set<Path>
    requires keys <= o.Keys
  {
    set k, p | k in keys && p in StaleField(s, o, k, path) :: p
  }

  lemma StaleInStep(s: map<string, Json>, o: map<string, Json>, keys: set<string>, k: string, path: Path)
    requires keys <= o.Keys && k in o
    ensures StaleIn(s, o, keys + {k}, path) == StaleIn(s, o, keys, path) + StaleField(s, o, k, path)
  {
  }

  class PathList {
    var paths: seq<Path>

    constructor ()
      ensures paths == []
    {
      paths := [];
    }

    ghost function Listed(): set<Path>
      reads this
    {
      set p | p in paths
    }

    method Push(p: Path)
      modifies this
      ensures paths == old(paths) + [p]
      ensures Listed() == old(Listed()) + {p}
    {
      paths := paths + [p];
    }
  }

  method CollectStale(source: Json, overlay: Json, path: Path, out: PathList)
    modifies out
    ensures old(out.paths) <= out.paths
    ensures out.Listed() == old(out.Listed()) + Stale(source, overlay, path)
    decreases overlay, 2
  {
    match overlay
    case Undefined =>
    case Null =>
    case Arr(o) =>
      if source.Arr? {
        CollectStaleEntries(source.items, o, path, out);
        assert StaleBefore(source.items, o, |o|, path) == Stale(source, overlay, path);
      } else {
        out.Push(path);
      }
    case Obj(o) =>
      if source.Obj? {
        CollectStaleFields(source.fields, o, path, out);
        assert StaleIn(source.fields, o, o.Keys, path) == Stale(source, overlay, path);
      } else {
        out.Push(path);
      }
    case _ =>
      if source.Nullish() {
        out.Push(path);
      }
  }

  method CollectStaleEntries(s: seq<Json>, o: seq<Json>, path: Path, out: PathList)
    modifies out
    ensures old(out.paths) <= out.paths
    ensures out.Listed() == old(out.Listed()) + StaleBefore(s, o, |o|, path)
    decreases Arr(o), 1
  {
    var ids := IdAddressableIds(s);
    var byId := IndexOverlayById(o);
    assert StaleBefore(s, o, 0, path) == {};
    for n := 0 to |o|
      invariant old(out.paths) <= out.paths
      invariant out.Listed() == old(out.Listed()) + StaleBefore(s, o, n, path)
    {
      StaleBeforeStep(s, o, n, path);
      CollectStaleEntry(s, ids.Some? && byId.Keys != {}, o, n, path, out);
    }
  }

  method CollectStaleEntry(s: seq<Json>, byId: bool, o: seq<Json>, n: nat, path: Path, out: PathList)
    requires n < |o| && byId == (IdAddressable(s) && HasIds(o))
    modifies out
    ensures old(out.paths) <= out.paths
    ensures out.Listed() == old(out.Listed()) + StaleEntry(s, o, n, path)
    decreases Arr(o), 0
  {
    var at := path + [Index(n)];
    if byId {
      var id := EntryId(o[n]);
      if id.Some? {
        if Knows(s, id.value) {
          CollectStale(s[IndexOf(s, id.value)], o[n], at, out);
        } else {
          out.Push(at);
        }
      }
    } else if n >= |s| {
      out.Push(at);
    } else {
      CollectStale(s[n], o[n], at, out);
    }
  }

  method CollectStaleFields(s: map<string, Json>, o: map<string, Json>, path: Path, out: PathList)
    modifies out
    ensures old(out.paths) <= out.paths
    ensures out.Listed() == old(out.Listed()) + StaleIn(s, o, o.Keys, path)
    decreases Obj(o), 1
  {
    var rest := o.Keys;
    assert StaleIn(s, o, {}, path) == {};
    while rest != {}
      invariant rest <= o.Keys
      invariant old(out.paths) <= out.paths
      invariant out.Listed() == old(out.Listed()) + StaleIn(s, o, o.Keys - rest, path)
      decreases |rest|
    {
      var k :| k in rest;
      StaleInStep(s, o, o.Keys - rest, k, path);
      assert o.Keys - (rest - {k}) == o.Keys - rest + {k};
      rest := rest - {k};
      CollectStaleField(s, o, k, path, out);
    }
    assert o.Keys - {} == o.Keys;
  }

  method CollectStaleField(s: map<string, Json>, o: map<string, Json>, k: string, path: Path, out: PathList)
    requires k in o
    modifies out
    ensures old(out.paths) <= out.paths
    ensures out.Listed() == old(out.Listed()) + StaleField(s, o, k, path)
    decreases Obj(o), 0
  {
    var at := path + [Key(k)];
    if k != ID {
      if k !in s {
        out.Push(at);
      } else {
        CollectStale(s[k], o[k], at, out);
      }
    }
  }

  method StaleOverlayPaths(source: Json, overlay: Json) returns (paths: seq<Path>)
    ensures (set p | p in paths) == Stale(source, overlay, [])
  {
    var out := new PathList();
    CollectStale(source, overlay, [], out);
    paths := out.paths;
  }

  // ---- The cleanup ----------------------------------------------------------

  /** The entries addressing, by id, an entry of `source`. */
  function KnownEntries(source: seq<Json>, overlay: seq<Json>): (r: seq<Json>)
    ensures forall e :: e in r ==> e in overlay && HasId(e) && Knows(source, IdOf(e))
  {
    if overlay == [] then []
    else
      var rest := KnownEntries(source, overlay[1..]);
      if HasId(overlay[0]) && Knows(source, IdOf(overlay[0])) then [overlay[0]] + rest else rest
  }

  /** `overlay` without what `source` has no place for. */
  function Prune(source: Json, overlay: Json): Json
    decreases overlay
  {
    match overlay
    case Undefined => overlay
    case Null => overlay
    case Arr(o) =>
      if !source.Arr? then Undefined
      else
        var s := source.items;
        if IdAddressable(s) && HasIds(o) then
          var kept := KnownEntries(s, o);
          Arr(seq(|kept|, i requires 0 <= i < |kept| =>
            assert kept[i] in kept && kept[i] in o; Prune(FindById(s, IdOf(kept[i])), kept[i])))
        else
          var n := if |o| <= |s| then |o| else |s|;
          Arr(seq(n, i requires 0 <= i < n => Prune(s[i], o[i])))
    case Obj(o) =>
      if !source.Obj? then Undefined
      else
        var s := source.fields;
        Obj(map k | k in o && (k == ID || (k in s && !Prune(s[k], o[k]).Undefined?)) ::
          if k == ID then o[k] else Prune(s[k], o[k]))
    case _ => if source.Nullish() then Undefined else overlay
  }

  // ---- What a cleanup keeps -------------------------------------------------

  /** The entry found under an id the source knows is not lost by dropping unknown entries. */
  lemma {:induction false} FindAmongKnown(s: seq<Json>, o: seq<Json>, id: string)
    requires Knows(s, id)
    ensures FindById(KnownEntries(s, o), id) == FindById(o, id)
  {
    if o != [] {
      FindAmongKnown(s, o[1..], id);
      FindStep(o, id);
      KnownStep(s, o, id);
      hide FindById, KnownEntries, Knows;
    }
  }

  lemma FindStep(o: seq<Json>, id: string)
    requires o != []
    ensures FindById(o, id) == if EntryId(o[0]) == Some(id) then o[0] else FindById(o[1..], id)
  {
  }

  lemma KnownStep(s: seq<Json>, o: seq<Json>, id: string)
    requires o != [] && Knows(s, id)
    ensures var rest := KnownEntries(s, o[1..]);
      FindById(KnownEntries(s, o), id) == if EntryId(o[0]) == Some(id) then o[0] else FindById(rest, id)
  {
    var rest := KnownEntries(s, o[1..]);
    FindStep([o[0]] + rest, id);
    assert ([o[0]] + rest)[1..] == rest;
    hide FindById, Knows;
  }

  function PruneItems(s: seq<Json>, o: seq<Json>): seq<Json> {
    Prune(Arr(s), Arr(o)).items
  }

  lemma {:induction false} PruneKeepsId(s: Json, o: Json)
    ensures HasId(o) && s.Obj? ==> EntryId(Prune(s, o)) == EntryId(o)
    ensures !HasId(o) ==> !HasId(Prune(s, o))
  {
  }

  lemma PrunedIds(s: seq<Json>, o: seq<Json>)
    requires IdAddressable(s)
    ensures HasIds(o) ==>
      var kept := KnownEntries(s, o);
      && |PruneItems(s, o)| == |kept|
      && (forall i :: 0 <= i < |kept| ==> EntryId(PruneItems(s, o)[i]) == EntryId(kept[i]))
    ensures !HasIds(o) ==> !HasIds(PruneItems(s, o))
  {
    var q := PruneItems(s, o);
    if HasIds(o) {
      var kept := KnownEntries(s, o);
      forall i | 0 <= i < |kept| ensures EntryId(q[i]) == EntryId(kept[i]) {
        assert kept[i] in kept;
        PruneKeepsId(FindById(s, IdOf(kept[i])), kept[i]);
      }
    } else {
      forall i | 0 <= i < |q| ensures !HasId(q[i]) {
        assert q[i] == Prune(s[i], o[i]) && !HasId(o[i]);
        PruneKeepsId(s[i], o[i]);
      }
    }
  }

  /** What the merger finds for a source entry after a cleanup is what it found before, cleaned up. */
  lemma SlotOfPruned(s: seq<Json>, o: seq<Json>, i: nat)
    requires i < |s|
    ensures Slot(s, PruneItems(s, o), i) == Prune(s[i], Slot(s, o, i))
  {
    var q := PruneItems(s, o);
    if IdAddressable(s) {
      PrunedIds(s, o);
      if HasIds(o) {
        var id, kept := IdOf(s[i]), KnownEntries(s, o);
        FindSelf(s, i);
        FindAmongKnown(s, o, id);
        SameIds(kept, q, id);
        assert HasIds(q) || !Knows(q, id);
        if Knows(kept, id) { assert HasId(kept[IndexOf(kept, id)]); }
        assert FindById(q, id) == Prune(s[i], FindById(o, id));
      }
    }
  }

  /** A cleanup never changes what a reader sees. */
  lemma {:induction false} PrunePreservesRendering(s: Json, o: Json)
    ensures Merge(s, Prune(s, o)) == Merge(s, o)
    decreases s
  {
    if s.Arr? && o.Arr? {
      assert Prune(s, o) == Arr(PruneItems(s.items, o.items));
      forall i | 0 <= i < |s.items|
        ensures Merge(s.items[i], Slot(s.items, PruneItems(s.items, o.items), i))
             == Merge(s.items[i], Slot(s.items, o.items, i))
      {
        SlotOfPruned(s.items, o.items, i);
        PrunePreservesRendering(s.items[i], Slot(s.items, o.items, i));
      }
    } else if s.Obj? && o.Obj? {
      forall k | k in s.fields && !(k == ID && s.fields[k].Str?)
        ensures Merge(s.fields[k], Get(Prune(s, o).fields, k)) == Merge(s.fields[k], Get(o.fields, k))
      {
        PrunePreservesRendering(s.fields[k], Get(o.fields, k));
      }
    }
  }

  lemma {:induction false} PruneIdempotent(s: Json, o: Json)
    ensures Prune(s, Prune(s, o)) == Prune(s, o)
    decreases o, 1
  {
    if s.Arr? && o.Arr? {
      if IdAddressable(s.items) && HasIds(o.items) {
        PruneKeyedIdempotent(s.items, o.items);
      } else {
        PrunePositionalIdempotent(s.items, o.items);
      }
    } else if s.Obj? && o.Obj? {
      forall k | k in o.fields && k in s.fields
        ensures Prune(s.fields[k], Prune(s.fields[k], o.fields[k])) == Prune(s.fields[k], o.fields[k])
      {
        PruneIdempotent(s.fields[k], o.fields[k]);
      }
    }
  }

  lemma {:induction false} PruneKeyedIdempotent(s: seq<Json>, o: seq<Json>)
    requires IdAddressable(s) && HasIds(o)
    ensures Prune(Arr(s), Prune(Arr(s), Arr(o))) == Prune(Arr(s), Arr(o))
    decreases Arr(o), 0
  {
    var kept, q := KnownEntries(s, o), PruneItems(s, o);
    assert Prune(Arr(s), Arr(o)) == Arr(q);
    PrunedIds(s, o);
    forall i | 0 <= i < |q| ensures Prune(FindById(s, IdOf(q[i])), q[i]) == q[i] {
      assert kept[i] in kept && EntryId(q[i]) == EntryId(kept[i]);
      PruneIdempotent(FindById(s, IdOf(kept[i])), kept[i]);
    }
    KnownEntriesOfKnown(s, kept, q);
    hide Prune, KnownEntries, FindById;
    KeyedStays(s, q);
  }

  lemma KeyedStays(s: seq<Json>, q: seq<Json>)
    requires IdAddressable(s) && KnownEntries(s, q) == q
    requires forall i :: 0 <= i < |q| ==> Prune(FindById(s, IdOf(q[i])), q[i]) == q[i]
    ensures Prune(Arr(s), Arr(q)) == Arr(q)
  {
    if q != [] { assert q[0] in KnownEntries(s, q); }
    assert PruneItems(s, q) == q;
  }

  lemma {:induction false} PrunePositionalIdempotent(s: seq<Json>, o: seq<Json>)
    requires !(IdAddressable(s) && HasIds(o))
    ensures Prune(Arr(s), Prune(Arr(s), Arr(o))) == Prune(Arr(s), Arr(o))
    decreases Arr(o), 0
  {
    var q := PruneItems(s, o);
    assert Prune(Arr(s), Arr(o)) == Arr(q);
    if IdAddressable(s) { PrunedIds(s, o); }
    forall i | 0 <= i < |q| ensures Prune(s[i], q[i]) == q[i] {
      PruneIdempotent(s[i], o[i]);
    }
    assert PruneItems(s, q) == q;
  }

  lemma {:induction false} KnownEntriesOfKnown(s: seq<Json>, kept: seq<Json>, q: seq<Json>)
    requires |q| == |kept| && forall i :: 0 <= i < |q| ==> EntryId(q[i]) == EntryId(kept[i])
    requires forall e :: e in kept ==> HasId(e) && Knows(s, IdOf(e))
    ensures KnownEntries(s, q) == q
    decreases |q|
  {
    if q != [] {
      assert kept[0] in kept;
      KnownEntriesOfKnown(s, kept[1..], q[1..]);
    }
  }

  /** After a cleanup the report is empty. */
  lemma {:induction false} PruneLeavesNothingStale(s: Json, o: Json, path: Path)
    ensures Stale(s, Prune(s, o), path) == {}
    decreases o
  {
    if s.Arr? && o.Arr? {
      var ss, oo := s.items, o.items;
      var q := PruneItems(ss, oo);
      assert Prune(s, o) == Arr(q);
      if IdAddressable(ss) { PrunedIds(ss, oo); }
      forall i | 0 <= i < |q| ensures StaleEntry(ss, q, i, path) == {} {
        if IdAddressable(ss) && HasIds(oo) {
          var kept := KnownEntries(ss, oo);
          assert kept[i] in kept && HasId(q[i]);
          PruneLeavesNothingStale(FindById(ss, IdOf(kept[i])), kept[i], path + [Index(i)]);
        } else {
          PruneLeavesNothingStale(ss[i], oo[i], path + [Index(i)]);
        }
      }
    } else if s.Obj? && o.Obj? {
      var q := Prune(s, o).fields;
      forall k | k in q ensures StaleField(s.fields, q, k, path) == {} {
        if k != ID { PruneLeavesNothingStale(s.fields[k], o.fields[k], path + [Key(k)]); }
      }
    }
  }

  /** No absent field and, in an id-keyed array, no entry without an id: the entries
      that the merger drops and the report passes over. */
  ghost predicate NoHoles(s: Json, o: Json)
    decreases o
  {
    match (s, o)
    case (Arr(ss), Arr(oo)) =>
      if IdAddressable(ss) && HasIds(oo) then
        forall i :: 0 <= i < |oo| ==>
          HasId(oo[i]) && (Knows(ss, IdOf(oo[i])) ==> NoHoles(FindById(ss, IdOf(oo[i])), oo[i]))
      else forall i :: 0 <= i < |oo| && i < |ss| ==> NoHoles(ss[i], oo[i])
    case (Obj(ss), Obj(oo)) =>
      forall k :: k in oo && k != ID && k in ss ==> !oo[k].Undefined? && NoHoles(ss[k], oo[k])
    case _ => true
  }

  /** A cleanup changes nothing exactly when the report is empty and there are no such entries. */
  lemma StaleExactlyWhenPruneChanges(s: Json, o: Json)
    ensures Prune(s, o) == o <==> Stale(s, o, []) == {} && NoHoles(s, o)
  {
    if Prune(s, o) == o { PrunedHasNoHoles(s, o); }
    if Stale(s, o, []) == {} && NoHoles(s, o) { PruneKeepsUnstale(s, o, []); }
    PruneLeavesNothingStale(s, o, []);
  }

  lemma {:induction false} PrunedHasNoHoles(s: Json, o: Json)
    requires Prune(s, o) == o
    ensures NoHoles(s, o)
    decreases o, 1
  {
    if s.Arr? && o.Arr? {
      PrunedArrayHasNoHoles(s.items, o.items);
    } else if s.Obj? && o.Obj? {
      forall k | k in o.fields && k != ID && k in s.fields
        ensures !o.fields[k].Undefined? && NoHoles(s.fields[k], o.fields[k])
      {
        assert k in Prune(s, o).fields;
        PrunedHasNoHoles(s.fields[k], o.fields[k]);
      }
    }
  }

  lemma {:induction false} PrunedArrayHasNoHoles(s: seq<Json>, o: seq<Json>)
    requires Prune(Arr(s), Arr(o)) == Arr(o)
    ensures NoHoles(Arr(s), Arr(o))
    decreases Arr(o), 0
  {
    assert PruneItems(s, o) == o;
    if IdAddressable(s) && HasIds(o) {
      AllKnown(s, o);
      forall i | 0 <= i < |o| ensures HasId(o[i]) && NoHoles(FindById(s, IdOf(o[i])), o[i]) {
        PrunedHasNoHoles(FindById(s, IdOf(o[i])), o[i]);
      }
    } else {
      forall i | 0 <= i < |o| && i < |s| ensures NoHoles(s[i], o[i]) {
        PrunedHasNoHoles(s[i], o[i]);
      }
    }
  }

  /** Where pruning keeps an id-keyed array, all its entries were known. */
  lemma AllKnown(s: seq<Json>, o: seq<Json>)
    requires IdAddressable(s) && HasIds(o) && PruneItems(s, o) == o
    ensures KnownEntries(s, o) == o
  {
    KnownEntriesAll(s, o);
    assert |KnownEntries(s, o)| == |o|;
  }

  lemma {:induction false} KnownEntriesAll(s: seq<Json>, o: seq<Json>)
    ensures |KnownEntries(s, o)| <= |o|
    ensures |KnownEntries(s, o)| == |o| ==> KnownEntries(s, o) == o
  {
    if o != [] { KnownEntriesAll(s, o[1..]); }
  }

  lemma UnstaleEntry(s: seq<Json>, o: seq<Json>, i: nat, path: Path)
    requires Stale(Arr(s), Arr(o), path) == {} && i < |o|
    ensures StaleEntry(s, o, i, path) == {}
    ensures IdAddressable(s) && HasIds(o) ==> HasId(o[i]) ==> Knows(s, IdOf(o[i]))
    ensures !(IdAddressable(s) && HasIds(o)) ==> i < |s|
  {
    assert forall p :: p in StaleEntry(s, o, i, path) ==> p in Stale(Arr(s), Arr(o), path);
    assert path + [Index(i)] !in StaleEntry(s, o, i, path);
  }

  lemma {:induction false} PruneKeepsUnstale(s: Json, o: Json, path: Path)
    requires NoHoles(s, o) && Stale(s, o, path) == {}
    ensures Prune(s, o) == o
    decreases o, 1
  {
    assert path !in Stale(s, o, path);
    if s.Arr? && o.Arr? {
      if IdAddressable(s.items) && HasIds(o.items) {
        PruneKeepsUnstaleKeyed(s.items, o.items, path);
      } else {
        PruneKeepsUnstalePositional(s.items, o.items, path);
      }
    } else if s.Obj? && o.Obj? {
      forall k | k in o.fields && k != ID ensures k in s.fields && Prune(s.fields[k], o.fields[k]) == o.fields[k] {
        var here := StaleField(s.fields, o.fields, k, path);
        assert forall p :: p in here ==> p in Stale(s, o, path);
        assert here == {} && path + [Key(k)] !in here;
        PruneKeepsUnstale(s.fields[k], o.fields[k], path + [Key(k)]);
      }
      assert Prune(s, o).fields == o.fields;
    }
  }

  lemma {:induction false} PruneKeepsUnstaleKeyed(s: seq<Json>, o: seq<Json>, path: Path)
    requires NoHoles(Arr(s), Arr(o)) && Stale(Arr(s), Arr(o), path) == {}
    requires IdAddressable(s) && HasIds(o)
    ensures Prune(Arr(s), Arr(o)) == Arr(o)
    decreases Arr(o), 0
  {
    forall i | 0 <= i < |o|
      ensures HasId(o[i]) && Knows(s, IdOf(o[i])) && Prune(FindById(s, IdOf(o[i])), o[i]) == o[i]
    {
      UnstaleEntry(s, o, i, path);
      PruneKeepsUnstale(FindById(s, IdOf(o[i])), o[i], path + [Index(i)]);
    }
    KnownEntriesOfKnown(s, o, o);
    assert PruneItems(s, o) == o;
  }

  lemma {:induction false} PruneKeepsUnstalePositional(s: seq<Json>, o: seq<Json>, path: Path)
    requires NoHoles(Arr(s), Arr(o)) && Stale(Arr(s), Arr(o), path) == {}
    requires !(IdAddressable(s) && HasIds(o))
    ensures Prune(Arr(s), Arr(o)) == Arr(o)
    decreases Arr(o), 0
  {
    if |o| > 0 { UnstaleEntry(s, o, |o| - 1, path); }
    assert |o| <= |s|;
    forall i | 0 <= i < |o| ensures Prune(s[i], o[i]) == o[i] {
      UnstaleEntry(s, o, i, path);
      PruneKeepsUnstale(s[i], o[i], path + [Index(i)]);
    }
    assert PruneItems(s, o) == o;
  }
}
