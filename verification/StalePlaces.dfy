/** Which places of an overlay are reported as stale, told place by place. */
module StalePlaces {
  import opened Json
  import opened Options
  import opened Addressing
  import opened MergeLaws
  import opened OverlayPrune

  /** What the source has for a place of the overlay: a value, nothing, or the place does not count:
      it is an id, an entry that the merger passes over, or below a place the source has nothing for. */
  datatype Spot = Holds(source: Json) | Nothing | Passed

  /** One step into the overlay. */
  function SpotIn(s: Json, o: Json, step: Step): Spot {
    match step
    case Key(k) =>
      if !s.Obj? || !o.Obj? || k !in o.fields || k == ID then Passed
      else if k in s.fields then Holds(s.fields[k])
      else Nothing
    case Index(i) =>
      if !s.Arr? || !o.Arr? || i >= |o.items| then Passed
      else if !(IdAddressable(s.items) && HasIds(o.items)) then
        if i < |s.items| then Holds(s.items[i]) else Nothing
      else if !HasId(o.items[i]) then Passed
      else if Knows(s.items, IdOf(o.items[i])) then Holds(FindById(s.items, IdOf(o.items[i])))
      else Nothing
  }

  function SpotAt(s: Json, o: Json, p: Path): Spot
    decreases |p|
  {
    if p == [] then Holds(s)
    else match SpotIn(s, o, p[0])
      case Holds(v) => SpotAt(v, Child(o, p[0]), p[1..])
      case Nothing => if |p| == 1 then Nothing else Passed
      case Passed => Passed
  }

  /** A container where the source has none of its kind, or any other value where it has nothing. */
  predicate Misfit(v: Json, x: Json) {
    if x.Nullish() then false
    else if x.Arr? then !v.Arr?
    else if x.Obj? then !v.Obj?
    else v.Nullish()
  }

  /** The source has nothing for the place, or something that does not fit it. */
  predicate IsStale(s: Json, o: Json, p: Path) {
    match SpotAt(s, o, p)
    case Holds(v) => Misfit(v, Reach(o, p))
    case Nothing => true
    case Passed => false
  }

  /** A place is reported if and only if the source has nothing for it, or what does not fit. */
  lemma {:induction false} StaleExactly(s: Json, o: Json, path: Path, p: Path)
    ensures path + p in Stale(s, o, path) <==> IsStale(s, o, p)
    decreases |p|
  {
    if p == [] {
      assert path + p == path;
      OnlyDeeper(s, o, path);
    } else {
      var step, rest := p[0], p[1..];
      var c := Child(o, step);
      assert p == [step] + rest && path + p == path + [step] + rest;
      StaleStep(s, o, path, step, rest);
      assert Reach(o, p) == Reach(c, rest);
      match SpotIn(s, o, step)
      case Holds(v) => StaleExactly(v, c, path + [step], rest);
      case Nothing =>
        assert path + [step] + rest == path + [step] <==> rest == [] by {
          assert |path + [step] + rest| == |path + [step]| + |rest|;
          assert rest == [] ==> path + [step] + rest == path + [step];
        }
      case Passed =>
    }
  }

  /** All paths reported for a subtree begin with its own, and all but its own go into it. */
  lemma {:induction false} StaleBegins(s: Json, o: Json, path: Path, q: Path)
    requires q in Stale(s, o, path)
    ensures path <= q && (q == path ==> Misfit(s, o))
    decreases o, 0
  {
    match o
    case Arr(oo) =>
      if s.Arr? {
        var i: nat :| i < |oo| && q in StaleEntry(s.items, oo, i, path);
        EntryBegins(s.items, oo, i, path, q);
      }
    case Obj(oo) =>
      if s.Obj? {
        var k :| k in oo && q in StaleField(s.fields, oo, k, path);
        FieldBegins(s.fields, oo, k, path, q);
      }
    case _ =>
  }

  lemma {:induction false} EntryBegins(s: seq<Json>, o: seq<Json>, i: nat, path: Path, q: Path)
    requires i < |o| && q in StaleEntry(s, o, i, path)
    ensures path + [Index(i)] <= q
    decreases o[i], 1
  {
    if q != path + [Index(i)] {
      StaleBegins(if IdAddressable(s) && HasIds(o) then FindById(s, IdOf(o[i])) else s[i], o[i], path + [Index(i)], q);
    }
  }

  lemma {:induction false} FieldBegins(s: map<string, Json>, o: map<string, Json>, k: string, path: Path, q: Path)
    requires k in o && q in StaleField(s, o, k, path)
    ensures path + [Key(k)] <= q
    decreases o[k], 1
  {
    if q != path + [Key(k)] { StaleBegins(s[k], o[k], path + [Key(k)], q); }
  }

  lemma OnlyDeeper(s: Json, o: Json, path: Path)
    ensures path in Stale(s, o, path) <==> Misfit(s, o)
  {
    if path in Stale(s, o, path) { StaleBegins(s, o, path, path); }
  }

  /** What is reported at or below one step is what is reported there. */
  lemma StaleStep(s: Json, o: Json, path: Path, step: Step, rest: Path)
    ensures var q := path + [step] + rest;
      match SpotIn(s, o, step)
      case Holds(v) => q in Stale(s, o, path) <==> q in Stale(v, Child(o, step), path + [step])
      case Nothing => q in Stale(s, o, path) <==> q == path + [step]
      case Passed => q !in Stale(s, o, path)
  {
    if s.Arr? && o.Arr? {
      EntryStep(s.items, o.items, path, step, rest);
    } else if s.Obj? && o.Obj? {
      FieldStep(s.fields, o.fields, path, step, rest);
    } else {
      assert (path + [step] + rest)[|path|] == step;
    }
  }

  lemma EntryStep(s: seq<Json>, o: seq<Json>, path: Path, step: Step, rest: Path)
    ensures var q := path + [step] + rest;
      q in Stale(Arr(s), Arr(o), path) <==> step.Index? && step.i < |o| && q in StaleEntry(s, o, step.i, path)
  {
    var q := path + [step] + rest;
    assert q[|path|] == step;
    hide Stale, StaleEntry;
    if q in Stale(Arr(s), Arr(o), path) {
      var i := ListedEntry(s, o, path, q);
      EntryBegins(s, o, i, path, q);
      assert (path + [Index(i)])[|path|] == q[|path|];
    }
    if step.Index? && step.i < |o| { EntryIsListed(s, o, path, step.i); }
  }

  lemma FieldStep(s: map<string, Json>, o: map<string, Json>, path: Path, step: Step, rest: Path)
    ensures var q := path + [step] + rest;
      q in Stale(Obj(s), Obj(o), path) <==> step.Key? && step.key in o && q in StaleField(s, o, step.key, path)
  {
    var q := path + [step] + rest;
    assert q[|path|] == step;
    StaleOfObject(s, o, path, q);
    hide Stale, StaleField;
    if k :| k in o && q in StaleField(s, o, k, path) {
      FieldBegins(s, o, k, path, q);
      assert (path + [Key(k)])[|path|] == q[|path|];
    }
  }

  lemma ListedEntry(s: seq<Json>, o: seq<Json>, path: Path, q: Path) returns (i: nat)
    requires q in Stale(Arr(s), Arr(o), path)
    ensures i < |o| && q in StaleEntry(s, o, i, path)
  {
    i :| i < |o| && q in StaleEntry(s, o, i, path);
  }

  lemma EntryIsListed(s: seq<Json>, o: seq<Json>, path: Path, i: nat)
    requires i < |o|
    ensures StaleEntry(s, o, i, path) <= Stale(Arr(s), Arr(o), path)
  {
    assert Stale(Arr(s), Arr(o), path) == StaleBefore(s, o, |o|, path);
  }

  lemma StaleOfObject(s: map<string, Json>, o: map<string, Json>, path: Path, q: Path)
    ensures q in Stale(Obj(s), Obj(o), path) <==> exists k :: k in o && q in StaleField(s, o, k, path)
  {
  }

  /** The places reported of an overlay. */
  lemma ReportedPlaces(s: Json, o: Json, p: Path)
    ensures p in Stale(s, o, []) <==> IsStale(s, o, p)
  {
    assert [] + p == p;
    StaleExactly(s, o, [], p);
  }

  // ---- What a cleanup keeps, place by place ---------------------------------------------------

  /** What is found for one step after a cleanup is what was found before, cleaned up. */
  lemma FoundInPruned(s: Json, o: Json, step: Step)
    requires step != Key(ID)
    ensures var x, y := FoundIn(s, o, step), FoundIn(s, Prune(s, o), step);
      y == Prune(Child(s, step), x) || (y.Undefined? && x.Null?)
  {
    if s.Arr? && o.Arr? && step.Index? && step.i < |s.items| {
      assert Prune(s, o) == Arr(PruneItems(s.items, o.items));
      SlotOfPruned(s.items, o.items, step.i);
    }
  }

  lemma {:induction false} FoundAtPruned(s: Json, o: Json, p: Path)
    requires Key(ID) !in p
    ensures var x, y := FoundAt(s, o, p), FoundAt(s, Prune(s, o), p);
      y == Prune(Reach(s, p), x) || (y.Undefined? && x.Null?)
    decreases |p|
  {
    if p != [] {
      FoundInPruned(s, o, p[0]);
      FoundAtPruned(Child(s, p[0]), FoundIn(s, o, p[0]), p[1..]);
    }
  }

  /** At every place of the source a cleanup removes what does not fit it, and there alone: another
      value stays as it is, a container stays one of its kind. */
  lemma CleanupKeepsExactly(s: Json, o: Json, p: Path)
    requires Key(ID) !in p
    ensures var x, y := FoundAt(s, o, p), FoundAt(s, Prune(s, o), p);
      && (y.Nullish() <==> x.Nullish() || Misfit(Reach(s, p), x))
      && (!y.Nullish() ==> if x.Arr? then y.Arr? else if x.Obj? then y.Obj? else y == x)
  {
    FoundAtPruned(s, o, p);
  }

  /** The ids of what stays stay. */
  lemma CleanupKeepsIds(s: Json, o: Json, p: Path)
    requires Key(ID) !in p && Reach(s, p).Obj? && FoundAt(s, o, p).Obj?
    ensures FoundAt(s, Prune(s, o), p).Obj?
    ensures Get(FoundAt(s, Prune(s, o), p).fields, ID) == Get(FoundAt(s, o, p).fields, ID)
  {
    FoundAtPruned(s, o, p);
  }
}
