/** What re-shaping an overlay leaves at each place. */
module OverlayPlaces {
  import opened Json
  import opened Options
  import opened Addressing
  import opened Overlay
  import opened OverlayLaws
  import opened MergeLaws

  // ---- Stamping --------------------------------------------------------------------------------

  function Restamped(t: Json, x: Json, id: Option<string>): Json {
    match id
    case None => Stamp(t, x)
    case Some(i) => WithId(Stamp(t, x), i)
  }

  /** Whatever entry of the source it is matched with, an entry is at most stamped. */
  lemma StampedEntry(s: seq<Json>, o: seq<Json>, i: nat) returns (t: Json, id: Option<string>)
    requires i < |o|
    ensures StampEntry(s, o, i) == Restamped(t, o[i], id)
  {
    if !IdAddressable(s) {
      t, id := At(s, i), None;
    } else if !HasIds(o) {
      t, id := At(s, i), if i < |s| && Stamp(At(s, i), o[i]).Obj? then Some(IdOf(s[i])) else None;
    } else if HasId(o[i]) && Knows(s, IdOf(o[i])) {
      t, id := FindById(s, IdOf(o[i])), Some(IdOf(o[i]));
    } else {
      t, id := Undefined, None;
    }
  }

  lemma StampedChild(s: Json, o: Json, stamped: Option<string>, step: Step) returns (t: Json, id: Option<string>)
    requires step != Key(ID)
    ensures Child(Restamped(s, o, stamped), step) == Restamped(t, Child(o, step), id)
  {
    t, id := Undefined, None;
    match step
    case Key(k) =>
      if s.Obj? && o.Obj? && k in o.fields { t := Get(s.fields, k); }
    case Index(i) =>
      if s.Arr? && o.Arr? && i < |o.items| { t, id := StampedEntry(s.items, o.items, i); }
  }

  lemma {:induction false} StampedAt(s: Json, o: Json, stamped: Option<string>, p: Path)
    returns (t: Json, id: Option<string>)
    requires Key(ID) !in p
    ensures Reach(Restamped(s, o, stamped), p) == Restamped(t, Reach(o, p), id)
    decreases |p|
  {
    if p == [] {
      t, id := s, stamped;
    } else {
      var u, was := StampedChild(s, o, stamped, p[0]);
      t, id := StampedAt(u, Child(o, p[0]), was, p[1..]);
    }
  }

  /** Stamping writes ids and nothing else: at every place of the overlay order, holes, keys and
      values stay. */
  lemma StampKeepsPlaces(s: Json, o: Json, p: Path)
    requires Key(ID) !in p
    ensures var x, y := Reach(o, p), Reach(Stamp(s, o), p);
      if x.Arr? then y.Arr? && |y.items| == |x.items|
      else if x.Obj? then y.Obj? && y.fields.Keys - {ID} == x.fields.Keys - {ID}
      else y == x
  {
    var t, id := StampedAt(s, o, None, p);
  }

  // ---- Aligning --------------------------------------------------------------------------------

  /** What stands in place after aligning is what the merger finds, aligned. */
  lemma AlignedChild(s: Json, o: Json, step: Step)
    requires !Child(s, step).Undefined?
    ensures var x, y := FoundIn(s, o, step), Child(Align(s, o), step);
      y == Align(Child(s, step), x) || (x.Undefined? && y.Null?)
  {
  }

  lemma {:induction false} NothingFound(s: Json, o: Json, p: Path)
    requires o.Nullish()
    ensures FoundAt(s, o, p).Nullish() && Reach(o, p).Nullish()
    decreases |p|
  {
    if p != [] {
      NothingFound(Child(s, p[0]), FoundIn(s, o, p[0]), p[1..]);
      ReachNothing(o, p);
    }
  }

  /** At every place of the source, the aligned overlay holds by position what the merger finds there,
      an array matched by id having one slot per source entry. */
  lemma {:induction false} AlignedPlaces(s: Json, o: Json, p: Path)
    requires !Reach(s, p).Undefined?
    ensures var v, x, y := Reach(s, p), FoundAt(s, o, p), Reach(Align(s, o), p);
      && (x.Nullish() <==> y.Nullish())
      && (!x.Nullish() ==>
            if x.Arr? then
              var byId := v.Arr? && IdAddressable(v.items) && HasIds(x.items);
              y.Arr? && |y.items| == if byId then |v.items| else |x.items|
            else if x.Obj? then y.Obj? && y.fields.Keys == x.fields.Keys
            else y == x)
    decreases |p|
  {
    if p != [] {
      var c, x, rest := Child(s, p[0]), FoundIn(s, o, p[0]), p[1..];
      if c.Undefined? {
        if rest != [] { ReachNothing(c, rest); }
        assert false;
      }
      AlignedChild(s, o, p[0]);
      AlignedPlaces(c, x, rest);
      if x.Undefined? {
        NothingFound(c, x, rest);
        NothingFound(c, Null, rest);
      }
    }
  }
}
