/** The keep-existing merge as the seeder runs it, with its report of what it could not
    place, and what that report tells: every existing value is kept or reported. */
module SeedDrops {
  import opened Json
  import opened Options
  import opened Addressing
  import opened Seed
  import opened SeedLaws

  datatype Reason = NoId | UnknownId(id: string)

  datatype Drop = Drop(path: Path, reason: Reason)

  ghost function DroppedHere(s: seq<Json>, e: seq<Json>, i: nat, path: Path): set<Drop>
    requires i < |e|
  {
    var at := path + [Index(i)];
    if e[i].Nullish() then {}
    else if !e[i].Obj? || !Get(e[i].fields, ID).Str? then {Drop(at, NoId)}
    else if !Knows(s, e[i].fields[ID].s) then {Drop(at, UnknownId(e[i].fields[ID].s))}
    else {}
  }

  /** What the merge of `existing` over `seeded` reports as dropped. */
  ghost function Dropped(source: Json, existing: Json, seeded: Json, path: Path): set<Drop>
    decreases !existing.Nullish(), existing, 1
  {
    if existing.Nullish() then {}
    else match (existing, Container(existing, seeded))
      case (Arr(e), Arr(f)) =>
        (if Keyed(source, e, f) then HereBefore(source.items, e, |e|, path) else {})
        + set i: nat, d | i < Width(source, e, f) && d in PairDropped(source, e, f, i, path) :: d
      case (Obj(e), Obj(f)) => set k, d | k in e && d in FieldDropped(source, e, f, k, path) :: d
      case _ => {}
  }

  ghost function PairDropped(source: Json, e: seq<Json>, f: seq<Json>, i: nat, path: Path): set<Drop>
    requires i < Width(source, e, f)
    decreases true, Arr(e), 0
  {
    Dropped(SourceItem(source, i), Pair(source, e, f, e, i), Pair(source, e, f, f, i), path + [Index(i)])
  }

  ghost function FieldDropped(source: Json, e: map<string, Json>, f: map<string, Json>, k: string,
      path: Path): set<Drop>
    decreases true, Obj(e), 0
  {
    Dropped(SourceField(source, k), Get(e, k), Get(f, k), path + [Key(k)])
  }

  ghost function HereBefore(s: seq<Json>, e: seq<Json>, n: nat, path: Path): set<Drop>
    requires n <= |e|
  {
    set i: nat, d | i < n && d in DroppedHere(s, e, i, path) :: d
  }

  class DropList {
    var entries: seq<Drop>

    constructor ()
      ensures entries == []
    {
      entries := [];
    }

    ghost function Listed(): set<Drop>
      reads this
    {
      set d | d in entries
    }

    method Push(d: Drop)
      modifies this
      ensures entries == old(entries) + [d]
      ensures Listed() == old(Listed()) + {d}
    {
      entries := entries + [d];
    }
  }

  ghost function PairsBefore(source: Json, e: seq<Json>, f: seq<Json>, n: nat, path: Path): set<Drop>
    requires n <= Width(source, e, f)
  {
    set i: nat, d | i < n && d in PairDropped(source, e, f, i, path) :: d
  }

  ghost function FieldsDropped(source: Json, e: map<string, Json>, f: map<string, Json>, keys: set<string>,
      path: Path): set<Drop> {
    set k, d | k in keys && d in FieldDropped(source, e, f, k, path) :: d
  }

  lemma DroppedArr(source: Json, e: seq<Json>, seeded: Json, path: Path)
    requires Container(Arr(e), seeded).Arr?
    ensures var f := Container(Arr(e), seeded).items;
      Dropped(source, Arr(e), seeded, path) ==
        (if Keyed(source, e, f) then HereBefore(source.items, e, |e|, path) else {})
        + PairsBefore(source, e, f, Width(source, e, f), path)
  {
  }

  lemma DroppedObj(source: Json, e: map<string, Json>, seeded: Json, path: Path)
    requires Container(Obj(e), seeded).Obj?
    ensures var f := Container(Obj(e), seeded).fields;
      Dropped(source, Obj(e), seeded, path) == FieldsDropped(source, e, f, e.Keys + f.Keys, path)
  {
    var f := Container(Obj(e), seeded).fields;
    forall k | k !in e ensures FieldDropped(source, e, f, k, path) == {} { }
  }

  method MergeKeepExisting(source: Json, existing: Json, seeded: Json, dropped: DropList, path: Path)
    returns (r: Json)
    modifies dropped
    ensures r == Keep(source, existing, seeded)
    ensures dropped.Listed() == old(dropped.Listed()) + Dropped(source, existing, seeded, path)
    decreases !existing.Nullish(), existing, 5
  {
    if existing.Nullish() {
      return seeded;
    }
    var c := Container(existing, seeded);
    if existing.Arr? && c.Arr? {
      DroppedArr(source, existing.items, seeded, path);
      var items := MergeItems(source, existing.items, c.items, dropped, path);
      KeepArr(source, existing.items, seeded);
      r := Arr(items);
    } else if existing.Obj? && c.Obj? {
      DroppedObj(source, existing.fields, seeded, path);
      var fields := MergeFields(source, existing.fields, c.fields, dropped, path);
      KeepObj(source, existing.fields, seeded);
      r := Obj(fields);
    } else {
      r := existing;
    }
  }

  method MergeItems(source: Json, e: seq<Json>, f: seq<Json>, dropped: DropList, path: Path)
    returns (out: seq<Json>)
    modifies dropped
    ensures out == KeptArray(source, e, f)
    ensures dropped.Listed() == old(dropped.Listed())
      + (if Keyed(source, e, f) then HereBefore(source.items, e, |e|, path) else {})
      + PairsBefore(source, e, f, Width(source, e, f), path)
    decreases true, Arr(e), 1
  {
    var keyed := Keyed(source, e, f);
    if keyed {
      ReportUnplaced(source.items, e, dropped, path);
    }
    out := [];
    KeptArrayItems(source, e, f);
    assert KeptArray(source, e, f)[..Width(source, e, f)] == KeptArray(source, e, f);
    label Reported:
    assert PairsBefore(source, e, f, 0, path) == {};
    hide Keep, KeptArray, PairsBefore, HereBefore, PairDropped, Dropped;
    for n := 0 to Width(source, e, f)
      invariant |out| == n
      invariant out == KeptArray(source, e, f)[..n]
      invariant dropped.Listed() == old@Reported(dropped.Listed()) + PairsBefore(source, e, f, n, path)
    {
      var kept := MergeKeepExisting(SourceItem(source, n), Pair(source, e, f, e, n), Pair(source, e, f, f, n),
        dropped, path + [Index(n)]);
      PairsStep(source, e, f, n, path);
      ItemsStep(source, e, f, n);
      out := out + [if keyed then NullIfAbsent(kept) else kept];
    }
  }

  lemma ItemsStep(source: Json, e: seq<Json>, f: seq<Json>, n: nat)
    requires n < Width(source, e, f)
    ensures var all, kept := KeptArray(source, e, f), KeptPair(source, e, f, n);
      n < |all| && all[..n + 1] == all[..n] + [if Keyed(source, e, f) then NullIfAbsent(kept) else kept]
  {
    KeptArrayItems(source, e, f);
    hide KeptArray, KeptPair;
  }

  lemma PairsStep(source: Json, e: seq<Json>, f: seq<Json>, n: nat, path: Path)
    requires n < Width(source, e, f)
    ensures PairsBefore(source, e, f, n + 1, path) ==
      PairsBefore(source, e, f, n, path) + PairDropped(source, e, f, n, path)
  {
  }

  method ReportUnplaced(s: seq<Json>, e: seq<Json>, dropped: DropList, path: Path)
    modifies dropped
    ensures dropped.Listed() == old(dropped.Listed()) + HereBefore(s, e, |e|, path)
  {
    for n := 0 to |e|
      invariant dropped.Listed() == old(dropped.Listed()) + HereBefore(s, e, n, path)
    {
      HereStep(s, e, n, path);
      if !e[n].Nullish() {
        var id := if e[n].Obj? then Get(e[n].fields, ID) else Undefined;
        if !id.Str? {
          dropped.Push(Drop(path + [Index(n)], NoId));
        } else if !Knows(s, id.s) {
          dropped.Push(Drop(path + [Index(n)], UnknownId(id.s)));
        }
      }
    }
  }

  lemma HereStep(s: seq<Json>, e: seq<Json>, n: nat, path: Path)
    requires n < |e|
    ensures HereBefore(s, e, n + 1, path) == HereBefore(s, e, n, path) + DroppedHere(s, e, n, path)
  {
  }

  method MergeFields(source: Json, e: map<string, Json>, f: map<string, Json>, dropped: DropList, path: Path)
    returns (out: map<string, Json>)
    modifies dropped
    ensures out == KeptFields(source, e, f)
    ensures dropped.Listed() == old(dropped.Listed()) + FieldsDropped(source, e, f, e.Keys + f.Keys, path)
    decreases true, Obj(e), 4
  {
    var keys, visited: set<string> := e.Keys + f.Keys, {};
    out := map[];
    ghost var all := KeptFields(source, e, f);
    KeptFieldAt(source, e, f, ID);
    assert FieldsDropped(source, e, f, {}, path) == {};
    hide Keep, KeptFields, FieldsDropped, FieldDropped;
    while keys - visited != {}
      invariant visited <= keys && out.Keys == visited
      invariant forall k :: k in out ==> out[k] == all[k]
      invariant dropped.Listed() == old(dropped.Listed()) + FieldsDropped(source, e, f, visited, path)
      decreases keys - visited
    {
      var k :| k in keys - visited;
      FieldsStep(source, e, f, visited, k, path);
      visited := visited + {k};
      var kept := MergeField(source, e, f, k, dropped, path);
      out := out[k := kept];
    }
    assert visited == keys && all == out;
  }

  method MergeField(source: Json, e: map<string, Json>, f: map<string, Json>, k: string, dropped: DropList, path: Path)
    returns (kept: Json)
    modifies dropped
    ensures kept == Get(KeptFields(source, e, f), k)
    ensures dropped.Listed() == old(dropped.Listed()) + FieldDropped(source, e, f, k, path)
    decreases true, Obj(e), 3
  {
    KeptFieldAt(source, e, f, k);
    kept := MergeKeepExisting(SourceField(source, k), Get(e, k), Get(f, k), dropped, path + [Key(k)]);
  }

  lemma FieldsStep(source: Json, e: map<string, Json>, f: map<string, Json>, keys: set<string>, k: string, path: Path)
    ensures FieldsDropped(source, e, f, keys + {k}, path) ==
      FieldsDropped(source, e, f, keys, path) + FieldDropped(source, e, f, k, path)
  {
  }

  // ---- What the report tells ----------------------------------------------------

  /** Every value of `e` is still in `r`: at its own place, or where its id puts it. */
  ghost predicate Survives(source: Json, e: Json, f: Json, r: Json)
    decreases !e.Nullish(), e
  {
    || e.Nullish()
    || (match (e, Container(e, f))
        case (Arr(ee), Arr(ff)) => r.Arr? &&
          if Keyed(source, ee, ff) then
            forall i :: 0 <= i < |ee| && !ee[i].Nullish() ==> SurvivesById(source.items, ee, ff, r.items, i)
          else forall i :: 0 <= i < |ee| ==> Survives(SourceItem(source, i), ee[i], At(ff, i), At(r.items, i))
        case (Obj(ee), Obj(ff)) => r.Obj? &&
          forall k :: k in ee ==> Survives(SourceField(source, k), ee[k], Get(ff, k), Get(r.fields, k))
        case _ => r == e)
  }

  ghost predicate SurvivesById(s: seq<Json>, e: seq<Json>, f: seq<Json>, r: seq<Json>, i: nat)
    requires i < |e|
    decreases true, Arr(e), 0
  {
    && HasId(e[i]) && Knows(s, IdOf(e[i]))
    && Survives(FindById(s, IdOf(e[i])), e[i], FindById(f, IdOf(e[i])), At(r, IndexOf(s, IdOf(e[i]))))
  }

  /** `x` is what merging `y` over `g` gives. */
  ghost predicate Gives(source: Json, y: Json, g: Json, x: Json)
    decreases !y.Nullish(), y, 2
  {
    if y.Nullish() then g == x
    else match (y, Container(y, g))
      case (Arr(yy), Arr(gg)) => x.Arr? && GivesItems(source, yy, gg, x.items)
      case (Obj(yy), Obj(gg)) => x.Obj? && GivesFields(source, yy, gg, x.fields)
      case _ => y == x
  }

  ghost predicate GivesItems(source: Json, y: seq<Json>, g: seq<Json>, x: seq<Json>)
    decreases true, Arr(y), 1
  {
    && |x| == Width(source, y, g)
    && forall i :: 0 <= i < |x| ==> PairGives(source, y, g, i, x[i])
  }

  ghost predicate PairGives(source: Json, y: seq<Json>, g: seq<Json>, i: nat, x: Json)
    requires i < Width(source, y, g)
    decreases true, Arr(y), 0
  {
    var s, a, b := SourceItem(source, i), Pair(source, y, g, y, i), Pair(source, y, g, g, i);
    if Keyed(source, y, g) then !x.Undefined? && (Gives(s, a, b, x) || (x.Null? && Gives(s, a, b, Undefined)))
    else Gives(s, a, b, x)
  }

  ghost predicate GivesFields(source: Json, y: map<string, Json>, g: map<string, Json>, x: map<string, Json>)
    decreases true, Obj(y), 0
  {
    && x.Keys == y.Keys + g.Keys
    && forall k :: k in x ==> Gives(SourceField(source, k), Get(y, k), Get(g, k), x[k])
  }

  /** Every value of `x` is still in what merging `y` over `g` gives: at its own place, or where its
      id puts it. */
  ghost predicate SurvivesIn(source: Json, x: Json, f: Json, y: Json, g: Json)
    decreases !x.Nullish(), x, 1
  {
    if x.Nullish() then true
    else if y.Nullish() then Survives(source, x, f, g)
    else match (y, Container(y, g))
      case (Arr(yy), Arr(gg)) =>
        if x.Arr? && Container(x, f).Arr? then ItemsSurviveIn(source, x.items, Container(x, f).items, yy, gg)
        else !(x.Obj? && Container(x, f).Obj?) && Gives(source, y, g, x)
      case (Obj(yy), Obj(gg)) =>
        if x.Obj? && Container(x, f).Obj? then FieldsSurviveIn(source, x.fields, Container(x, f).fields, yy, gg)
        else !(x.Arr? && Container(x, f).Arr?) && Gives(source, y, g, x)
      case _ => Survives(source, x, f, y)
  }

  ghost predicate ItemsSurviveIn(source: Json, x: seq<Json>, f: seq<Json>, y: seq<Json>, g: seq<Json>)
    decreases true, Arr(x), 0
  {
    if Keyed(source, x, f) then
      forall i :: 0 <= i < |x| && !x[i].Nullish() ==>
        && HasId(x[i]) && Knows(source.items, IdOf(x[i]))
        && var id := IdOf(x[i]);
          EntrySurvivesIn(source, x[i], FindById(f, id), y, g, IndexOf(source.items, id))
    else forall i :: 0 <= i < |x| ==> EntrySurvivesIn(source, x[i], At(f, i), y, g, i)
  }

  ghost predicate EntrySurvivesIn(source: Json, x: Json, f: Json, y: seq<Json>, g: seq<Json>, j: nat)
    decreases !x.Nullish(), x, 2
  {
    || x.Nullish()
    || (j < Width(source, y, g)
        && SurvivesIn(SourceItem(source, j), x, f, Pair(source, y, g, y, j), Pair(source, y, g, g, j)))
  }

  ghost predicate FieldsSurviveIn(
      source: Json, x: map<string, Json>, f: map<string, Json>, y: map<string, Json>, g: map<string, Json>)
    decreases true, Obj(x), 0
  {
    forall k :: k in x ==> SurvivesIn(SourceField(source, k), x[k], Get(f, k), Get(y, k), Get(g, k))
  }

  /** Of several entries of an array matched by id that carry one id, the later ones survive in
      the place that the first one has: no other entry is lost without a report. */
  ghost predicate RepeatsSurvive(source: Json, e: Json, f: Json)
    decreases !e.Nullish(), e
  {
    || e.Nullish()
    || (match (e, Container(e, f))
        case (Arr(ee), Arr(ff)) =>
          && (Keyed(source, ee, ff) ==> LaterSurvive(source.items, ee, ff))
          && (forall i :: 0 <= i < Width(source, ee, ff) ==>
                RepeatsSurvive(SourceItem(source, i), Pair(source, ee, ff, ee, i), Pair(source, ee, ff, ff, i)))
        case (Obj(ee), Obj(ff)) =>
          forall k :: k in ee ==> RepeatsSurvive(SourceField(source, k), ee[k], Get(ff, k))
        case _ => true)
  }

  predicate IsLater(s: seq<Json>, e: seq<Json>, i: nat)
    requires i < |e|
  {
    HasId(e[i]) && Knows(s, IdOf(e[i])) && IndexOf(e, IdOf(e[i])) != i
  }

  ghost predicate LaterSurvive(s: seq<Json>, e: seq<Json>, f: seq<Json>) {
    forall i :: 0 <= i < |e| && IsLater(s, e, i) ==>
      var id := IdOf(e[i]);
      SurvivesIn(s[IndexOf(s, id)], e[i], FindById(f, id), FindById(e, id), FindById(f, id))
  }

  // ---- Survival in a merge, read off its inputs ------------------------------------

  lemma GivesArr(source: Json, y: seq<Json>, g: Json, x: Json)
    requires Container(Arr(y), g).Arr?
    ensures Gives(source, Arr(y), g, x) <==> x.Arr? && GivesItems(source, y, Container(Arr(y), g).items, x.items)
  {
    hide GivesItems;
  }

  lemma GivesObj(source: Json, y: map<string, Json>, g: Json, x: Json)
    requires Container(Obj(y), g).Obj?
    ensures Gives(source, Obj(y), g, x) <==> x.Obj? && GivesFields(source, y, Container(Obj(y), g).fields, x.fields)
  {
    hide GivesFields;
  }

  lemma GivesOther(source: Json, y: Json, g: Json, x: Json)
    requires !(y.Arr? && Container(y, g).Arr?) && !(y.Obj? && Container(y, g).Obj?)
    ensures Gives(source, y, g, x) <==> (if y.Nullish() then g else y) == x
  {
    hide GivesItems, GivesFields;
  }

  lemma {:induction false} GivesExactly(source: Json, y: Json, g: Json, x: Json)
    ensures Gives(source, y, g, x) <==> Keep(source, y, g) == x
    decreases !y.Nullish(), y, 2
  {
    var c := Container(y, g);
    KeepKind(source, y, g);
    hide Keep, Gives, GivesItems, GivesFields;
    if y.Arr? && c.Arr? {
      GivesArr(source, y.items, g, x);
      KeepArr(source, y.items, g);
      if x.Arr? { GivesItemsExactly(source, y.items, c.items, x.items); }
    } else if y.Obj? && c.Obj? {
      GivesObj(source, y.fields, g, x);
      KeepObj(source, y.fields, g);
      if x.Obj? { GivesFieldsExactly(source, y.fields, c.fields, x.fields); }
    } else {
      GivesOther(source, y, g, x);
      if !y.Nullish() { KeepOther(source, y, g); }
    }
  }

  lemma {:induction false} GivesItemsExactly(source: Json, y: seq<Json>, g: seq<Json>, x: seq<Json>)
    ensures GivesItems(source, y, g, x) <==> KeptArray(source, y, g) == x
    decreases true, Arr(y), 1
  {
    KeptArrayItems(source, y, g);
    hide Keep, KeptArray, Gives;
    forall i | 0 <= i < Width(source, y, g) && i < |x|
      ensures KeptArray(source, y, g)[i] == x[i] <==> PairGives(source, y, g, i, x[i])
    {
      var s, a, b := SourceItem(source, i), Pair(source, y, g, y, i), Pair(source, y, g, g, i);
      GivesExactly(s, a, b, x[i]);
      GivesExactly(s, a, b, Undefined);
    }
  }

  lemma {:induction false} GivesFieldsExactly(
      source: Json, y: map<string, Json>, g: map<string, Json>, x: map<string, Json>)
    ensures GivesFields(source, y, g, x) <==> KeptFields(source, y, g) == x
    decreases true, Obj(y), 1
  {
    var kept := KeptFields(source, y, g);
    KeptFieldAt(source, y, g, ID);
    hide Keep, KeptFields, Gives;
    forall k | k in x && k in kept
      ensures kept[k] == x[k] <==> Gives(SourceField(source, k), Get(y, k), Get(g, k), x[k])
    {
      KeptFieldAt(source, y, g, k);
      GivesExactly(SourceField(source, k), Get(y, k), Get(g, k), x[k]);
    }
    if GivesFields(source, y, g, x) { assert kept == x; }
  }

  lemma {:induction false} SurvivesInExactly(source: Json, x: Json, f: Json, y: Json, g: Json)
    ensures SurvivesIn(source, x, f, y, g) <==> Survives(source, x, f, Keep(source, y, g))
    decreases !x.Nullish(), x, 4
  {
    var c, d := Container(x, f), Container(y, g);
    hide Keep, SurvivesIn, Survives;
    if x.Nullish() || y.Nullish() {
      SurvivesInNothing(source, x, f, y, g);
    } else if y.Arr? && d.Arr? {
      SurvivesInArr(source, x, f, y.items, g);
      KeepArr(source, y.items, g);
      if x.Arr? && c.Arr? {
        SurvivesArr(source, x.items, f, KeptArray(source, y.items, d.items));
        ItemsSurviveInExactly(source, x.items, c.items, y.items, d.items);
      } else {
        SurvivesOther(source, x, f, Keep(source, y, g));
        GivesExactly(source, y, g, x);
      }
    } else if y.Obj? && d.Obj? {
      SurvivesInObj(source, x, f, y.fields, g);
      KeepObj(source, y.fields, g);
      if x.Obj? && c.Obj? {
        SurvivesObj(source, x.fields, f, KeptFields(source, y.fields, d.fields));
        FieldsSurviveInExactly(source, x.fields, c.fields, y.fields, d.fields);
      } else {
        SurvivesOther(source, x, f, Keep(source, y, g));
        GivesExactly(source, y, g, x);
      }
    } else {
      SurvivesInOther(source, x, f, y, g);
      KeepOther(source, y, g);
    }
  }

  lemma SurvivesInNothing(source: Json, x: Json, f: Json, y: Json, g: Json)
    requires x.Nullish() || y.Nullish()
    ensures SurvivesIn(source, x, f, y, g) <==> Survives(source, x, f, Keep(source, y, g))
  {
    KeepKind(source, y, g);
    if x.Nullish() { hide Keep; }
  }

  lemma SurvivesInArr(source: Json, x: Json, f: Json, y: seq<Json>, g: Json)
    requires !x.Nullish() && Container(Arr(y), g).Arr?
    ensures var c, d := Container(x, f), Container(Arr(y), g);
      SurvivesIn(source, x, f, Arr(y), g) <==>
        if x.Arr? && c.Arr? then ItemsSurviveIn(source, x.items, c.items, y, d.items)
        else !(x.Obj? && c.Obj?) && Gives(source, Arr(y), g, x)
  {
    hide Gives, Survives, FieldsSurviveIn;
  }

  lemma SurvivesInObj(source: Json, x: Json, f: Json, y: map<string, Json>, g: Json)
    requires !x.Nullish() && Container(Obj(y), g).Obj?
    ensures var c, d := Container(x, f), Container(Obj(y), g);
      SurvivesIn(source, x, f, Obj(y), g) <==>
        if x.Obj? && c.Obj? then FieldsSurviveIn(source, x.fields, c.fields, y, d.fields)
        else !(x.Arr? && c.Arr?) && Gives(source, Obj(y), g, x)
  {
    hide Gives, Survives, ItemsSurviveIn;
  }

  lemma SurvivesInOther(source: Json, x: Json, f: Json, y: Json, g: Json)
    requires !x.Nullish() && !y.Nullish()
    requires !(y.Arr? && Container(y, g).Arr?) && !(y.Obj? && Container(y, g).Obj?)
    ensures SurvivesIn(source, x, f, y, g) <==> Survives(source, x, f, y)
  {
    hide Gives, Survives, ItemsSurviveIn, FieldsSurviveIn;
  }

  /** What is no container over a container of its kind survives only as it is, and a container
      only in one of its kind. */
  lemma SurvivesOther(source: Json, x: Json, f: Json, r: Json)
    requires !x.Nullish()
    ensures x.Arr? && Container(x, f).Arr? && !r.Arr? ==> !Survives(source, x, f, r)
    ensures x.Obj? && Container(x, f).Obj? && !r.Obj? ==> !Survives(source, x, f, r)
    ensures !(x.Arr? && Container(x, f).Arr?) && !(x.Obj? && Container(x, f).Obj?) ==>
      (Survives(source, x, f, r) <==> r == x)
  {
  }

  lemma {:induction false} ItemsSurviveInExactly(
      source: Json, x: seq<Json>, f: seq<Json>, y: seq<Json>, g: seq<Json>)
    ensures ItemsSurviveIn(source, x, f, y, g) <==> ItemsSurvive(source, x, f, KeptArray(source, y, g))
    decreases true, Arr(x), 3
  {
    var r := KeptArray(source, y, g);
    hide EntrySurvivesIn, Survives, KeptArray, FindById, IndexOf;
    if Keyed(source, x, f) {
      forall i | 0 <= i < |x| && !x[i].Nullish() && HasId(x[i]) && Knows(source.items, IdOf(x[i]))
        ensures var id := IdOf(x[i]);
          EntrySurvivesIn(source, x[i], FindById(f, id), y, g, IndexOf(source.items, id)) <==>
            Survives(FindById(source.items, id), x[i], FindById(f, id), At(r, IndexOf(source.items, id)))
      {
        var id := IdOf(x[i]);
        EntrySurvivesInExactly(source, x[i], FindById(f, id), y, g, IndexOf(source.items, id));
        FoundIsItem(source, id);
      }
    } else {
      forall i | 0 <= i < |x|
        ensures EntrySurvivesIn(source, x[i], At(f, i), y, g, i) <==>
          Survives(SourceItem(source, i), x[i], At(f, i), At(r, i))
      {
        EntrySurvivesInExactly(source, x[i], At(f, i), y, g, i);
      }
    }
  }

  lemma FoundIsItem(source: Json, id: string)
    requires source.Arr?
    ensures FindById(source.items, id) == SourceItem(source, IndexOf(source.items, id))
  {
  }

  lemma {:induction false} EntrySurvivesInExactly(source: Json, x: Json, f: Json, y: seq<Json>, g: seq<Json>, j: nat)
    ensures EntrySurvivesIn(source, x, f, y, g, j) <==>
      Survives(SourceItem(source, j), x, f, At(KeptArray(source, y, g), j))
    decreases !x.Nullish(), x, 5
  {
    if x.Nullish() {
      assert Survives(SourceItem(source, j), x, f, At(KeptArray(source, y, g), j));
    } else {
      KeptArrayItems(source, y, g);
      SurvivesNowhere(SourceItem(source, j), x, f);
      hide Keep, KeptArray, Survives, SurvivesIn;
      if j < Width(source, y, g) {
        SurvivesInExactly(SourceItem(source, j), x, f, Pair(source, y, g, y, j), Pair(source, y, g, g, j));
      }
    }
  }

  lemma SurvivesNowhere(source: Json, x: Json, f: Json)
    requires !x.Nullish()
    ensures !Survives(source, x, f, Undefined) && !Survives(source, x, f, Null)
  {
    SurvivesOther(source, x, f, Undefined);
    SurvivesOther(source, x, f, Null);
    hide Survives;
  }

  lemma {:induction false} FieldsSurviveInExactly(
      source: Json, x: map<string, Json>, f: map<string, Json>, y: map<string, Json>, g: map<string, Json>)
    ensures FieldsSurviveIn(source, x, f, y, g) <==> FieldsSurvive(source, x, f, KeptFields(source, y, g))
    decreases true, Obj(x), 3
  {
    hide Keep, KeptFields, Survives, SurvivesIn;
    forall k | k in x
      ensures SurvivesIn(SourceField(source, k), x[k], Get(f, k), Get(y, k), Get(g, k)) <==>
        Survives(SourceField(source, k), x[k], Get(f, k), Get(KeptFields(source, y, g), k))
    {
      KeptFieldAt(source, y, g, k);
      SurvivesInExactly(SourceField(source, k), x[k], Get(f, k), Get(y, k), Get(g, k));
    }
  }

  lemma LaterExactly(s: seq<Json>, e: seq<Json>, f: seq<Json>)
    requires Keyed(Arr(s), e, f)
    ensures LaterSurvive(s, e, f) <==>
      forall i :: 0 <= i < |e| && IsLater(s, e, i) ==> SurvivesById(s, e, f, KeptArray(Arr(s), e, f), i)
  {
    forall i | 0 <= i < |e| && IsLater(s, e, i)
      ensures var id := IdOf(e[i]);
        SurvivesIn(s[IndexOf(s, id)], e[i], FindById(f, id), FindById(e, id), FindById(f, id)) <==>
          SurvivesById(s, e, f, KeptArray(Arr(s), e, f), i)
    {
      LaterEntry(s, e, f, i);
    }
    hide SurvivesIn, SurvivesById, KeptArray;
  }

  lemma LaterEntry(s: seq<Json>, e: seq<Json>, f: seq<Json>, i: nat)
    requires Keyed(Arr(s), e, f) && i < |e| && IsLater(s, e, i)
    ensures var id := IdOf(e[i]);
      SurvivesIn(s[IndexOf(s, id)], e[i], FindById(f, id), FindById(e, id), FindById(f, id)) <==>
        SurvivesById(s, e, f, KeptArray(Arr(s), e, f), i)
  {
    var id := IdOf(e[i]);
    var j := IndexOf(s, id);
    assert EntryId(s[j]) == Some(id);
    assert Pair(Arr(s), e, f, e, j) == FindById(e, id) && Pair(Arr(s), e, f, f, j) == FindById(f, id);
    EntrySurvivesInExactly(Arr(s), e[i], FindById(f, id), e, f, j);
    FoundIsItem(Arr(s), id);
    hide SurvivesIn, Survives, KeptArray, FindById;
  }

  ghost predicate PairRepeatsSurvive(source: Json, e: seq<Json>, f: seq<Json>, i: nat)
    requires i < Width(source, e, f)
  {
    RepeatsSurvive(SourceItem(source, i), Pair(source, e, f, e, i), Pair(source, e, f, f, i))
  }

  lemma RepeatsArr(source: Json, e: seq<Json>, f: Json)
    requires Container(Arr(e), f).Arr?
    ensures var c := Container(Arr(e), f).items;
      RepeatsSurvive(source, Arr(e), f) <==>
        && (Keyed(source, e, c) ==> LaterSurvive(source.items, e, c))
        && forall i :: 0 <= i < Width(source, e, c) ==> PairRepeatsSurvive(source, e, c, i)
  {
    var c := Container(Arr(e), f).items;
    forall i | 0 <= i < Width(source, e, c)
      ensures PairRepeatsSurvive(source, e, c, i) <==>
        RepeatsSurvive(SourceItem(source, i), Pair(source, e, c, e, i), Pair(source, e, c, c, i))
    {
    }
  }

  ghost predicate ItemsSurvive(source: Json, e: seq<Json>, f: seq<Json>, r: seq<Json>) {
    if Keyed(source, e, f) then
      forall i :: 0 <= i < |e| && !e[i].Nullish() ==> SurvivesById(source.items, e, f, r, i)
    else forall i :: 0 <= i < |e| ==> Survives(SourceItem(source, i), e[i], At(f, i), At(r, i))
  }

  lemma SurvivesArr(source: Json, e: seq<Json>, f: Json, r: seq<Json>)
    requires Container(Arr(e), f).Arr?
    ensures Survives(source, Arr(e), f, Arr(r)) <==> ItemsSurvive(source, e, Container(Arr(e), f).items, r)
  {
    hide Keyed;
  }

  ghost predicate FieldsSurvive(source: Json, e: map<string, Json>, f: map<string, Json>, r: map<string, Json>) {
    forall k :: k in e ==> Survives(SourceField(source, k), e[k], Get(f, k), Get(r, k))
  }

  lemma SurvivesObj(source: Json, e: map<string, Json>, f: Json, r: map<string, Json>)
    requires Container(Obj(e), f).Obj?
    ensures Survives(source, Obj(e), f, Obj(r)) <==> FieldsSurvive(source, e, Container(Obj(e), f).fields, r)
  {
  }

  ghost predicate FieldRepeatsSurvive(source: Json, e: map<string, Json>, f: map<string, Json>) {
    forall k :: k in e ==> RepeatsSurvive(SourceField(source, k), e[k], Get(f, k))
  }

  lemma RepeatsObj(source: Json, e: map<string, Json>, f: Json)
    requires Container(Obj(e), f).Obj?
    ensures RepeatsSurvive(source, Obj(e), f) <==> FieldRepeatsSurvive(source, e, Container(Obj(e), f).fields)
  {
  }

  /** Nothing is lost exactly when nothing is reported and all repeats survive. A loss is
      unreported, then, exactly when it is that of a later entry under an id already taken. */
  lemma {:induction false} ReportedExactlyWhenLost(source: Json, e: Json, f: Json, path: Path)
    ensures Survives(source, e, f, Keep(source, e, f)) <==>
      Dropped(source, e, f, path) == {} && RepeatsSurvive(source, e, f)
    decreases !e.Nullish(), e, 4
  {
    hide Keep, Dropped, Survives, RepeatsSurvive;
    var c := Container(e, f);
    if e.Arr? && c.Arr? {
      ArrayReport(source, e.items, f, path);
    } else if e.Obj? && c.Obj? {
      ObjectReport(source, e.fields, f, path);
    } else {
      OtherReport(source, e, f, path);
    }
  }

  lemma OtherReport(source: Json, e: Json, f: Json, path: Path)
    requires !(e.Arr? && Container(e, f).Arr?) && !(e.Obj? && Container(e, f).Obj?)
    ensures Survives(source, e, f, Keep(source, e, f))
    ensures Dropped(source, e, f, path) == {} && RepeatsSurvive(source, e, f)
  {
    if e.Nullish() {
      KeepKind(source, e, f);
    } else {
      KeepOther(source, e, f);
      SurvivesOther(source, e, f, e);
      NoContainersNoReport(source, e, f, path);
      hide Survives;
    }
    hide Keep;
  }

  lemma NoContainersNoReport(source: Json, e: Json, f: Json, path: Path)
    requires !(e.Arr? && Container(e, f).Arr?) && !(e.Obj? && Container(e, f).Obj?)
    ensures Dropped(source, e, f, path) == {} && RepeatsSurvive(source, e, f)
  {
  }

  lemma KeepOther(source: Json, e: Json, f: Json)
    requires !e.Nullish() && !(e.Arr? && Container(e, f).Arr?) && !(e.Obj? && Container(e, f).Obj?)
    ensures Keep(source, e, f) == e
  {
  }

  lemma {:induction false} ObjectReport(source: Json, e: map<string, Json>, f: Json, path: Path)
    requires Container(Obj(e), f).Obj?
    ensures Survives(source, Obj(e), f, Keep(source, Obj(e), f)) <==>
      Dropped(source, Obj(e), f, path) == {} && RepeatsSurvive(source, Obj(e), f)
    decreases true, Obj(e), 3
  {
    var c := Container(Obj(e), f).fields;
    hide *;
    DroppedObj(source, e, f, path);
    KeepObj(source, e, f);
    SurvivesObj(source, e, f, KeptFields(source, e, c));
    RepeatsObj(source, e, f);
    FieldsReport(source, e, c, path);
  }

  lemma {:induction false} ArrayReport(source: Json, e: seq<Json>, f: Json, path: Path)
    requires Container(Arr(e), f).Arr?
    ensures Survives(source, Arr(e), f, Keep(source, Arr(e), f)) <==>
      Dropped(source, Arr(e), f, path) == {} && RepeatsSurvive(source, Arr(e), f)
    decreases true, Arr(e), 3
  {
    var c := Container(Arr(e), f).items;
    DroppedArr(source, e, f, path);
    KeepArr(source, e, f);
    SurvivesArr(source, e, f, KeptArray(source, e, c));
    RepeatsArr(source, e, f);
    hide Keep, Dropped, HereBefore, PairsBefore, Survives, RepeatsSurvive, PairRepeatsSurvive, LaterSurvive, KeptArray;
    if Keyed(source, e, c) {
      KeyedReport(source.items, e, c, path);
    } else {
      PositionalReport(source, e, c, path);
    }
  }

  lemma HereEmpty(s: seq<Json>, e: seq<Json>, path: Path)
    ensures HereBefore(s, e, |e|, path) == {} <==> forall i :: 0 <= i < |e| ==> DroppedHere(s, e, i, path) == {}
  {
    assert forall i, d :: 0 <= i < |e| && d in DroppedHere(s, e, i, path) ==> d in HereBefore(s, e, |e|, path);
  }

  ghost predicate NoPairDrops(source: Json, e: seq<Json>, f: seq<Json>, path: Path) {
    forall i :: 0 <= i < Width(source, e, f) ==> PairDropped(source, e, f, i, path) == {}
  }

  lemma PairsEmpty(source: Json, e: seq<Json>, f: seq<Json>, path: Path)
    ensures PairsBefore(source, e, f, Width(source, e, f), path) == {} <==> NoPairDrops(source, e, f, path)
  {
    var all := PairsBefore(source, e, f, Width(source, e, f), path);
    if all == {} {
      forall i | 0 <= i < Width(source, e, f) ensures PairDropped(source, e, f, i, path) == {} {
        assert forall d :: d in PairDropped(source, e, f, i, path) ==> d in all;
      }
    }
    if NoPairDrops(source, e, f, path) {
      assert forall d :: d !in all;
    }
  }

  lemma {:induction false} KeyedReport(s: seq<Json>, e: seq<Json>, f: seq<Json>, path: Path)
    requires Keyed(Arr(s), e, f)
    ensures (forall i :: 0 <= i < |e| && !e[i].Nullish() ==> SurvivesById(s, e, f, KeptArray(Arr(s), e, f), i)) <==>
      && HereBefore(s, e, |e|, path) == {} && PairsBefore(Arr(s), e, f, |s|, path) == {}
      && LaterSurvive(s, e, f) && forall j :: 0 <= j < |s| ==> PairRepeatsSurvive(Arr(s), e, f, j)
    decreases true, Arr(e), 2
  {
    HereEmpty(s, e, path);
    PairsEmpty(Arr(s), e, f, path);
    LaterExactly(s, e, f);
    var r := KeptArray(Arr(s), e, f);
    hide LaterSurvive, SurvivesById, DroppedHere, PairDropped, PairRepeatsSurvive, KeptArray, HereBefore, PairsBefore;
    if forall i :: 0 <= i < |e| && !e[i].Nullish() ==> SurvivesById(s, e, f, r, i) {
      forall i | 0 <= i < |e| ensures DroppedHere(s, e, i, path) == {} {
        if e[i].Nullish() { NullIsNotDropped(s, e, i, path); } else { HereReport(s, e, f, i, path); }
      }
      forall j | 0 <= j < |s| ensures PairDropped(Arr(s), e, f, j, path) == {} && PairRepeatsSurvive(Arr(s), e, f, j) {
        PairUnreported(s, e, f, j, path);
      }
      forall i | 0 <= i < |e| && IsLater(s, e, i) ensures SurvivesById(s, e, f, r, i) { }
    }
    if && HereBefore(s, e, |e|, path) == {} && PairsBefore(Arr(s), e, f, |s|, path) == {}
       && LaterSurvive(s, e, f) && forall j :: 0 <= j < |s| ==> PairRepeatsSurvive(Arr(s), e, f, j) {
      forall i | 0 <= i < |e| && !e[i].Nullish() ensures SurvivesById(s, e, f, r, i) {
        HereReport(s, e, f, i, path);
        if !IsLater(s, e, i) { FirstReport(s, e, f, i, path); }
      }
    }
  }

  lemma {:induction false} PairUnreported(s: seq<Json>, e: seq<Json>, f: seq<Json>, j: nat, path: Path)
    requires Keyed(Arr(s), e, f) && j < |s|
    requires forall i :: 0 <= i < |e| && !e[i].Nullish() ==> SurvivesById(s, e, f, KeptArray(Arr(s), e, f), i)
    ensures PairDropped(Arr(s), e, f, j, path) == {} && PairRepeatsSurvive(Arr(s), e, f, j)
    decreases true, Arr(e), 1
  {
    var i := IndexOf(e, IdOf(s[j]));
    hide SurvivesById, PairDropped, PairRepeatsSurvive, KeptArray;
    if i == |e| || e[i].Nullish() {
      AbsentReport(s, e, f, j, path);
    } else {
      FindSelf(s, j);
      FirstReport(s, e, f, i, path);
    }
  }

  lemma NullIsNotDropped(s: seq<Json>, e: seq<Json>, i: nat, path: Path)
    requires i < |e| && e[i].Nullish()
    ensures DroppedHere(s, e, i, path) == {}
  {
  }

  lemma HereReport(s: seq<Json>, e: seq<Json>, f: seq<Json>, i: nat, path: Path)
    requires i < |e| && !e[i].Nullish()
    ensures DroppedHere(s, e, i, path) == {} <==> HasId(e[i]) && Knows(s, IdOf(e[i]))
    ensures SurvivesById(s, e, f, KeptArray(Arr(s), e, f), i) ==> HasId(e[i]) && Knows(s, IdOf(e[i]))
  {
    var at := path + [Index(i)];
    assert Drop(at, NoId) in {Drop(at, NoId)};
    if e[i].Obj? && Get(e[i].fields, ID).Str? {
      var id := e[i].fields[ID].s;
      assert Drop(at, UnknownId(id)) in {Drop(at, UnknownId(id))};
    }
    hide Survives, KeptArray;
  }

  lemma AbsentReport(s: seq<Json>, e: seq<Json>, f: seq<Json>, j: nat, path: Path)
    requires Keyed(Arr(s), e, f) && j < |s|
    requires IndexOf(e, IdOf(s[j])) == |e| || e[IndexOf(e, IdOf(s[j]))].Nullish()
    ensures PairDropped(Arr(s), e, f, j, path) == {} && PairRepeatsSurvive(Arr(s), e, f, j)
  {
  }

  lemma {:induction false} FirstReport(s: seq<Json>, e: seq<Json>, f: seq<Json>, i: nat, path: Path)
    requires Keyed(Arr(s), e, f) && i < |e| && HasId(e[i]) && Knows(s, IdOf(e[i])) && !IsLater(s, e, i)
    ensures var j := IndexOf(s, IdOf(e[i]));
      SurvivesById(s, e, f, KeptArray(Arr(s), e, f), i) <==>
        PairDropped(Arr(s), e, f, j, path) == {} && PairRepeatsSurvive(Arr(s), e, f, j)
    decreases true, Arr(e), 0
  {
    var id := IdOf(e[i]);
    var j := IndexOf(s, id);
    assert EntryId(s[j]) == Some(id) && e[i] in e;
    assert Pair(Arr(s), e, f, e, j) == e[i] && Pair(Arr(s), e, f, f, j) == FindById(f, id);
    KeptArrayItems(Arr(s), e, f);
    KeepKind(s[j], e[i], FindById(f, id));
    ReportedExactlyWhenLost(s[j], e[i], FindById(f, id), path + [Index(j)]);
    assert FindById(s, id) == s[j] && SourceItem(Arr(s), j) == s[j];
    hide Survives, Dropped, RepeatsSurvive, Keep;
  }

  lemma {:induction false} PositionalReport(source: Json, e: seq<Json>, f: seq<Json>, path: Path)
    requires !Keyed(source, e, f)
    ensures
      (forall i :: 0 <= i < |e| ==>
         Survives(SourceItem(source, i), e[i], At(f, i), At(KeptArray(source, e, f), i))) <==>
      && PairsBefore(source, e, f, Width(source, e, f), path) == {}
      && forall i :: 0 <= i < Width(source, e, f) ==> PairRepeatsSurvive(source, e, f, i)
    decreases true, Arr(e), 1
  {
    KeptArrayItems(source, e, f);
    PairsEmpty(source, e, f, path);
    hide Keep, PairsBefore, KeptArray;
    forall i | 0 <= i < Width(source, e, f)
      ensures PairDropped(source, e, f, i, path) == {} && PairRepeatsSurvive(source, e, f, i) <==>
        (i < |e| ==> Survives(SourceItem(source, i), e[i], At(f, i), At(KeptArray(source, e, f), i)))
    {
      ReportedExactlyWhenLost(SourceItem(source, i), At(e, i), At(f, i), path + [Index(i)]);
    }
    hide Survives, PairDropped, PairRepeatsSurvive;
  }

  lemma FieldsEmpty(source: Json, e: map<string, Json>, f: map<string, Json>, path: Path)
    ensures FieldsDropped(source, e, f, e.Keys + f.Keys, path) == {} <==>
      forall k :: k in e.Keys + f.Keys ==> FieldDropped(source, e, f, k, path) == {}
  {
    hide FieldDropped;
    assert forall k, d :: k in e.Keys + f.Keys && d in FieldDropped(source, e, f, k, path) ==>
      d in FieldsDropped(source, e, f, e.Keys + f.Keys, path);
  }

  lemma {:induction false} FieldsReport(source: Json, e: map<string, Json>, f: map<string, Json>, path: Path)
    ensures FieldsSurvive(source, e, f, KeptFields(source, e, f)) <==>
      FieldsDropped(source, e, f, e.Keys + f.Keys, path) == {} && FieldRepeatsSurvive(source, e, f)
    decreases true, Obj(e), 1
  {
    FieldsEmpty(source, e, f, path);
    hide Keep, FieldsDropped, KeptFields;
    forall k | k in e
      ensures FieldDropped(source, e, f, k, path) == {} && RepeatsSurvive(SourceField(source, k), e[k], Get(f, k)) <==>
        Survives(SourceField(source, k), e[k], Get(f, k), Get(KeptFields(source, e, f), k))
    {
      KeptFieldAt(source, e, f, k);
      ReportedExactlyWhenLost(SourceField(source, k), Get(e, k), Get(f, k), path + [Key(k)]);
    }
    forall k | k in f && k !in e ensures FieldDropped(source, e, f, k, path) == {} { }
    hide Survives, FieldDropped, RepeatsSurvive;
  }

  // ---- A repeat that is lost ------------------------------------------------------

  function Titled(title: string): Json {
    Obj(map[ID := Str("a"), "title" := Str(title)])
  }

  lemma TitledEntries(t: string, u: string, v: string)
    ensures Keyed(Arr([Titled(t)]), [Titled(u), Titled(v)], [])
    ensures Pair(Arr([Titled(t)]), [Titled(u), Titled(v)], [], [Titled(u), Titled(v)], 0) == Titled(u)
    ensures forall i :: 0 <= i < 2 ==> HasId([Titled(u), Titled(v)][i]) && IdOf([Titled(u), Titled(v)][i]) == "a"
    ensures Knows([Titled(t)], "a") && IndexOf([Titled(t)], "a") == 0
  {
    var s, e := [Titled(t)], [Titled(u), Titled(v)];
    assert EntryId(s[0]) == EntryId(e[0]) == EntryId(e[1]) == Some("a");
    assert HasId(e[0]);
  }

  lemma TitleIsKept(t: string, u: string)
    ensures Dropped(Titled(t), Titled(u), Undefined, [Index(0)]) == {}
    ensures var k := Keep(Titled(t), Titled(u), Undefined); k.Obj? && Get(k.fields, "title") == Str(u)
  {
    var s, e := Titled(t), Titled(u).fields;
    DroppedObj(s, e, Undefined, [Index(0)]);
    FieldsEmpty(s, e, map[], [Index(0)]);
    forall k | k in e ensures FieldDropped(s, e, map[], k, [Index(0)]) == {} { }
    KeepObj(s, e, Undefined);
    KeptFieldAt(s, e, map[], "title");
    hide Dropped, FieldsDropped;
  }

  lemma RepeatIsUnreported(t: string, u: string, v: string)
    ensures Dropped(Arr([Titled(t)]), Arr([Titled(u), Titled(v)]), Undefined, []) == {}
  {
    var s, e := [Titled(t)], [Titled(u), Titled(v)];
    TitledEntries(t, u, v);
    TitleIsKept(t, u);
    DroppedArr(Arr(s), e, Undefined, []);
    HereEmpty(s, e, []);
    PairsEmpty(Arr(s), e, [], []);
    assert [] + [Index(0)] == [Index(0)];
    hide Dropped, HereBefore, PairsBefore, Titled;
    forall i | 0 <= i < |e| ensures DroppedHere(s, e, i, []) == {} { }
  }

  /** A second entry under an id already taken, with another title, is lost and not reported. */
  lemma RepeatedIdIsLostUnreported(t: string, u: string, v: string)
    requires u != v
    ensures var s, e := Arr([Titled(t)]), Arr([Titled(u), Titled(v)]);
      Dropped(s, e, Undefined, []) == {} && !Survives(s, e, Undefined, Keep(s, e, Undefined))
  {
    var s, e := [Titled(t)], [Titled(u), Titled(v)];
    RepeatIsUnreported(t, u, v);
    TitledEntries(t, u, v);
    TitleIsKept(t, u);
    KeepArr(Arr(s), e, Undefined);
    KeptArrayItems(Arr(s), e, []);
    OtherTitleIsLost(t, u, v);
    hide Dropped, Keep, Titled;
    assert !SurvivesById(s, e, [], KeptArray(Arr(s), e, []), 1);
  }

  lemma OtherTitleIsLost(t: string, u: string, v: string)
    requires u != v
    ensures !Survives(Titled(t), Titled(v), Undefined, Keep(Titled(t), Titled(u), Undefined))
  {
    TitleIsKept(t, u);
    hide Dropped, Keep;
    assert !Survives(SourceField(Titled(t), "title"), Str(v), Undefined, Str(u));
    assert "title" in Titled(v).fields;
  }
}
