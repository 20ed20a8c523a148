/** What merging keeps of the source, and what of an overlay array matters to it. */
module MergeLaws {
  import opened Json
  import opened Options
  import opened Addressing
  import opened Overlay
  import opened OverlayLaws

  /** Same array lengths, key sets, ids and non-text leaves; empty text stays empty. */
  ghost predicate SameShape(s: Json, t: Json)
    decreases s
  {
    match s
    case Arr(ss) => t.Arr? && |t.items| == |ss| && forall i :: 0 <= i < |ss| ==> SameShape(ss[i], t.items[i])
    case Obj(ss) =>
      && t.Obj? && t.fields.Keys == ss.Keys
      && (forall k :: k in ss ==> SameShape(ss[k], t.fields[k]))
      && (ID in ss && ss[ID].Str? ==> t.fields[ID] == ss[ID])
    case Str(_) => t.Str? && (s.Text() <==> t.Text())
    case _ => t == s
  }

  lemma {:induction false} MergeKeepsShape(s: Json, o: Json)
    ensures SameShape(s, Merge(s, o))
    ensures EntryId(Merge(s, o)) == EntryId(s)
    decreases s
  {
    match s
    case Arr(ss) =>
      forall i | 0 <= i < |ss| && o.Arr? { MergeKeepsShape(ss[i], Slot(ss, o.items, i)); }
      if !o.Arr? { SameShapeReflexive(s); }
    case Obj(ss) =>
      forall k | k in ss && o.Obj? { MergeKeepsShape(ss[k], Get(o.fields, k)); }
      if o.Obj? {
        var t := Merge(s, o);
        forall k | k in ss ensures SameShape(ss[k], t.fields[k]) { }
      } else {
        SameShapeReflexive(s);
      }
    case _ =>
  }

  lemma {:induction false} SameShapeReflexive(s: Json)
    ensures SameShape(s, s)
    decreases s
  {
    match s
    case Arr(ss) => forall i | 0 <= i < |ss| { SameShapeReflexive(ss[i]); }
    case Obj(ss) => forall k | k in ss { SameShapeReflexive(ss[k]); }
    case _ =>
  }

  /** Only the ids of a source array decide which overlay entry each of its entries gets. */
  lemma SlotBySourceIds(s: seq<Json>, t: seq<Json>, o: seq<Json>, i: nat)
    requires |s| == |t| && i < |s|
    requires forall j :: 0 <= j < |s| ==> EntryId(s[j]) == EntryId(t[j])
    ensures Slot(s, o, i) == Slot(t, o, i)
  {
    assert IdAddressable(s) <==> IdAddressable(t) by {
      assert forall j :: 0 <= j < |s| ==> HasId(s[j]) == HasId(t[j]);
    }
  }

  lemma {:induction false} SlotOfMerged(s: Json, f: Json, o: seq<Json>, i: nat)
    requires s.Arr? && i < |s.items|
    ensures Merge(s, f).Arr? && |Merge(s, f).items| == |s.items|
    ensures Slot(Merge(s, f).items, o, i) == Slot(s.items, o, i)
  {
    var t := Merge(s, f).items;
    forall j | 0 <= j < |t| ensures EntryId(t[j]) == EntryId(s.items[j]) {
      if f.Arr? { MergeKeepsShape(s.items[j], Slot(s.items, f.items, j)); }
    }
    SlotBySourceIds(s.items, t, o, i);
  }

  lemma {:induction false} MergeIdempotent(s: Json, o: Json)
    ensures Merge(Merge(s, o), o) == Merge(s, o)
    decreases s
  {
    var t := Merge(s, o);
    match s
    case Arr(ss) =>
      if o.Arr? {
        forall i | 0 <= i < |ss| ensures Merge(t.items[i], Slot(t.items, o.items, i)) == t.items[i] {
          SlotOfMerged(s, o, o.items, i);
          MergeIdempotent(ss[i], Slot(ss, o.items, i));
        }
      }
    case Obj(ss) =>
      if o.Obj? {
        forall k | k in ss && !(k == ID && ss[k].Str?)
          ensures Merge(t.fields[k], Get(o.fields, k)) == t.fields[k]
        {
          MergeIdempotent(ss[k], Get(o.fields, k));
          MergeKeepsShape(ss[k], Get(o.fields, k));
        }
      }
    case _ =>
  }

  // ---- Rearranging an id-addressable source ---------------------------------

  /** The entries of `s` at the positions `p`: `s` reordered, with entries removed. */
  function Pick(s: seq<Json>, p: seq<nat>): seq<Json>
    requires forall i :: 0 <= i < |p| ==> p[i] < |s|
  {
    seq(|p|, i requires 0 <= i < |p| => s[p[i]])
  }

  predicate Selection(p: seq<nat>, n: nat) {
    && |p| > 0
    && (forall i :: 0 <= i < |p| ==> p[i] < n)
    && (forall i, j :: 0 <= i < j < |p| ==> p[i] != p[j])
  }

  /** Reordering and deleting widgets, and read the other way inserting them, commutes with merging. */
  lemma {:induction false} RearrangingCommutesWithMerge(s: seq<Json>, o: seq<Json>, p: seq<nat>)
    requires IdAddressable(s) && HasIds(o) && Selection(p, |s|)
    ensures IdAddressable(Pick(s, p))
    ensures Merge(Arr(Pick(s, p)), Arr(o)) == Arr(Pick(Merge(Arr(s), Arr(o)).items, p))
  {
    var t := Pick(s, p);
    forall i, j | 0 <= i < j < |t| ensures EntryId(t[i]) != EntryId(t[j]) {
      assert p[i] != p[j];
      assert p[i] < p[j] || p[j] < p[i];
    }
    forall i | 0 <= i < |t| ensures HasId(t[i]) { }
    forall i | 0 <= i < |t| ensures Slot(t, o, i) == Slot(s, o, p[i]) { }
  }

  // ---- Stamped overlays and the positional merger ---------------------------

  /** An overlay whose id-keyed arrays are in source order, once stamped, still reads right under
      the positional merger of an older release. */
  lemma {:induction false} MigratedRendersByPosition(s: Json, o: Json)
    requires Aligned(s, o)
    ensures MergeByPosition(s, Stamp(s, o)) == Merge(s, o)
    decreases s
  {
    if o.Nullish() {
    } else if s.Arr? && o.Arr? {
      assert Stamp(s, o) == Arr(StampItems(s.items, o.items));
      forall i | 0 <= i < |s.items|
        ensures MergeByPosition(s.items[i], At(StampItems(s.items, o.items), i))
          == Merge(s.items[i], Slot(s.items, o.items, i))
      {
        MigratedRendersByPosition(s.items[i], At(o.items, i));
        StampedInPlace(s.items, o.items, i);
      }
    } else if s.Obj? && o.Obj? {
      forall k | k in s.fields
        ensures MergeByPosition(s.fields[k], Get(Stamp(s, o).fields, k)) == Merge(s.fields[k], Get(o.fields, k))
      {
        MigratedRendersByPosition(s.fields[k], Get(o.fields, k));
      }
    }
  }

  lemma StampedInPlace(s: seq<Json>, o: seq<Json>, i: nat)
    requires i < |s| && (IdAddressable(s) && HasIds(o) ==> InPlace(s, o))
    requires var x := At(o, i); MergeByPosition(s[i], Stamp(s[i], x)) == Merge(s[i], x)
    ensures MergeByPosition(s[i], At(StampItems(s, o), i)) == Merge(s[i], Slot(s, o, i))
  {
    var x := At(o, i);
    if IdAddressable(s) {
      if HasIds(o) { SlotInPlace(s, o, i); }
      if i < |o| {
        FindSelf(s, i);
        StampEntryByOwner(s, o, i);
        PositionalMergeIgnoresId(s[i], Stamp(s[i], x), IdOf(s[i]));
      }
    }
  }

  lemma {:induction false} PositionalMergeIgnoresId(s: Json, o: Json, id: string)
    requires HasId(s)
    ensures MergeByPosition(s, WithId(o, id)) == MergeByPosition(s, o)
  {
  }

  /** An overlay written before ids: none of its arrays is id-keyed. */
  ghost predicate IdFree(o: Json)
    decreases o
  {
    match o
    case Arr(oo) => !HasIds(oo) && forall i :: 0 <= i < |oo| ==> IdFree(oo[i])
    case Obj(oo) => forall k :: k in oo ==> IdFree(oo[k])
    case _ => true
  }

  lemma {:induction false} LegacyIsAligned(s: Json, o: Json)
    requires IdFree(o)
    ensures Aligned(s, o)
    decreases o
  {
    match (s, o)
    case (Arr(ss), Arr(oo)) => forall i | 0 <= i < |oo| && i < |ss| { LegacyIsAligned(ss[i], oo[i]); }
    case (Obj(ss), Obj(oo)) => forall k | k in oo && k in ss { LegacyIsAligned(ss[k], oo[k]); }
    case _ =>
  }

  /** What an overlay array has for a source entry when read by position, and by id. */
  function Place(x: Json, i: nat): Json {
    if x.Arr? then At(x.items, i) else Undefined
  }

  function Found(s: seq<Json>, y: Json, i: nat): Json
    requires i < |s|
  {
    if y.Arr? then Slot(s, y.items, i) else Undefined
  }

  function Field(x: Json, k: string): Json {
    if x.Obj? then Get(x.fields, k) else Undefined
  }

  /** A field that merging goes into; a string id is the source's own. */
  ghost predicate Localized(s: map<string, Json>, k: string) {
    k in s && !(k == ID && s[k].Str?)
  }

  /** For every text of the source, reading `x` by position and `y` by id finds the same wording. */
  ghost predicate ReadAlike(s: Json, x: Json, y: Json)
    decreases s
  {
    match s
    case Arr(ss) => forall i :: 0 <= i < |ss| ==> ReadAlike(ss[i], Place(x, i), Found(ss, y, i))
    case Obj(ss) =>
      forall k :: Localized(ss, k) ==> ReadAlike(ss[k], Field(x, k), Field(y, k))
    case Str(_) => s.Text() ==> (if x.Text() then x else s) == (if y.Text() then y else s)
    case _ => true
  }

  lemma ItemsRead(s: seq<Json>, x: Json, y: Json)
    ensures MergeByPosition(Arr(s), x).Arr? && Merge(Arr(s), y).Arr?
    ensures |MergeByPosition(Arr(s), x).items| == |s| && |Merge(Arr(s), y).items| == |s|
    ensures forall i :: 0 <= i < |s| ==> MergeByPosition(Arr(s), x).items[i] == MergeByPosition(s[i], Place(x, i))
    ensures forall i :: 0 <= i < |s| ==> Merge(Arr(s), y).items[i] == Merge(s[i], Found(s, y, i))
  {
    forall i | 0 <= i < |s| ensures MergeByPosition(s[i], Undefined) == s[i] == Merge(s[i], Undefined) {
      NothingByPosition(s[i], Undefined);
      MergeNothing(s[i], Undefined);
    }
    hide Slot;
  }

  lemma FieldsRead(s: map<string, Json>, x: Json, y: Json)
    ensures MergeByPosition(Obj(s), x).Obj? && Merge(Obj(s), y).Obj?
    ensures MergeByPosition(Obj(s), x).fields.Keys == s.Keys && Merge(Obj(s), y).fields.Keys == s.Keys
    ensures forall k :: k in s && !Localized(s, k) ==>
      MergeByPosition(Obj(s), x).fields[k] == s[k] && Merge(Obj(s), y).fields[k] == s[k]
    ensures forall k :: Localized(s, k) ==>
      && MergeByPosition(Obj(s), x).fields[k] == MergeByPosition(s[k], Field(x, k))
      && Merge(Obj(s), y).fields[k] == Merge(s[k], Field(y, k))
  {
    forall k | k in s ensures MergeByPosition(s[k], Undefined) == s[k] == Merge(s[k], Undefined) {
      NothingByPosition(s[k], Undefined);
      MergeNothing(s[k], Undefined);
    }
  }

  lemma ItemsReadAlike(s: seq<Json>, x: Json, y: Json)
    requires forall i :: 0 <= i < |s| ==>
      (MergeByPosition(s[i], Place(x, i)) == Merge(s[i], Found(s, y, i)) <==>
         ReadAlike(s[i], Place(x, i), Found(s, y, i)))
    ensures MergeByPosition(Arr(s), x) == Merge(Arr(s), y) <==> ReadAlike(Arr(s), x, y)
  {
    ItemsRead(s, x, y);
    hide Merge, MergeByPosition, Place, Found;
    var m, n := MergeByPosition(Arr(s), x), Merge(Arr(s), y);
    if m == n {
      forall i | 0 <= i < |s| ensures ReadAlike(s[i], Place(x, i), Found(s, y, i)) {
        assert m.items[i] == n.items[i];
      }
    }
    if ReadAlike(Arr(s), x, y) { assert m.items == n.items; }
  }

  lemma FieldsReadAlike(s: map<string, Json>, x: Json, y: Json)
    requires forall k :: Localized(s, k) ==>
      (MergeByPosition(s[k], Field(x, k)) == Merge(s[k], Field(y, k)) <==> ReadAlike(s[k], Field(x, k), Field(y, k)))
    ensures MergeByPosition(Obj(s), x) == Merge(Obj(s), y) <==> ReadAlike(Obj(s), x, y)
  {
    FieldsRead(s, x, y);
    hide Merge, MergeByPosition, Field;
    var m, n := MergeByPosition(Obj(s), x), Merge(Obj(s), y);
    if m == n {
      forall k | Localized(s, k) ensures ReadAlike(s[k], Field(x, k), Field(y, k)) {
        assert m.fields[k] == n.fields[k];
      }
    }
    if ReadAlike(Obj(s), x, y) { assert m.fields == n.fields; }
  }

  /** The positional merger renders one overlay as the real one renders another if and only if the
      two readings find the same wording everywhere. */
  lemma {:induction false} RendersByPositionExactly(s: Json, x: Json, y: Json)
    ensures MergeByPosition(s, x) == Merge(s, y) <==> ReadAlike(s, x, y)
    decreases s
  {
    match s
    case Arr(ss) =>
      forall i | 0 <= i < |ss|
        ensures MergeByPosition(ss[i], Place(x, i)) == Merge(ss[i], Found(ss, y, i))
          <==> ReadAlike(ss[i], Place(x, i), Found(ss, y, i))
      {
        RendersByPositionExactly(ss[i], Place(x, i), Found(ss, y, i));
      }
      ItemsReadAlike(ss, x, y);
    case Obj(ss) =>
      forall k | Localized(ss, k)
        ensures MergeByPosition(ss[k], Field(x, k)) == Merge(ss[k], Field(y, k))
          <==> ReadAlike(ss[k], Field(x, k), Field(y, k))
      {
        RendersByPositionExactly(ss[k], Field(x, k), Field(y, k));
      }
      FieldsReadAlike(ss, x, y);
    case _ =>
  }

  lemma {:induction false} NothingByPosition(s: Json, o: Json)
    requires o.Nullish()
    ensures MergeByPosition(s, o) == s
  {
  }

  /** The stamped catalog still reads right by position exactly when its every text is also found
      there by id. */
  lemma MigratedRendersByPositionExactly(s: Json, o: Json)
    ensures MergeByPosition(s, Stamp(s, o)) == Merge(s, o) <==> ReadAlike(s, Stamp(s, o), Stamp(s, o))
  {
    StampPreservesRendering(s, o);
    RendersByPositionExactly(s, Stamp(s, o), Stamp(s, o));
  }

  // ---- What is rendered at a place -------------------------------------------

  /** What the merger finds in an overlay for one step into the source. */
  function FoundIn(s: Json, o: Json, step: Step): Json {
    match step
    case Key(k) => Field(o, k)
    case Index(i) => if s.Arr? && i < |s.items| then Found(s.items, o, i) else Undefined
  }

  /** ... and for a place of the source. */
  function FoundAt(s: Json, o: Json, p: Path): Json
    decreases |p|
  {
    if p == [] then o else FoundAt(Child(s, p[0]), FoundIn(s, o, p[0]), p[1..])
  }

  function TextAt(v: Json, p: Path): Option<string> {
    if Reach(v, p).Str? then Some(Reach(v, p).s) else None
  }

  predicate EndsInId(p: Path) {
    p != [] && p[|p| - 1] == Key(ID)
  }

  /** The text rendered at a place of the source: its own, unless both it and what is found for it
      have one and it is no id. */
  function Rendered(s: Json, found: Json, p: Path): Option<string> {
    if !Reach(s, p).Str? then None
    else if Reach(s, p).Text() && found.Text() && !EndsInId(p) then Some(found.s)
    else Some(Reach(s, p).s)
  }

  lemma MergedChild(s: Json, o: Json, step: Step)
    ensures var c := Child(s, step);
      Child(Merge(s, o), step) == if step == Key(ID) && c.Str? then c else Merge(c, FoundIn(s, o, step))
  {
    MergeNothing(Child(s, step), Undefined);
    hide Slot;
  }

  /** For every source, overlay and place: the text rendered there. */
  lemma {:induction false} MergedText(s: Json, o: Json, p: Path)
    ensures TextAt(Merge(s, o), p) == Rendered(s, FoundAt(s, o, p), p)
    decreases |p|
  {
    if p != [] {
      var c, m, rest := Child(s, p[0]), Child(Merge(s, o), p[0]), p[1..];
      MergedChild(s, o, p[0]);
      assert TextAt(Merge(s, o), p) == TextAt(m, rest) && Reach(s, p) == Reach(c, rest);
      assert rest != [] ==> EndsInId(p) == EndsInId(rest);
      hide Merge, FoundIn;
      if p[0] == Key(ID) && c.Str? {
        if rest != [] { ReachNothing(c, rest); }
      } else {
        MergedText(c, FoundIn(s, o, p[0]), rest);
      }
    }
  }

  function Titled(id: string, title: string): Json {
    Obj(map[ID := Str(id), "title" := Str(title)])
  }

  /** A stamped overlay of the second of two entries alone: an older release renders its title on
      the first. */
  lemma SecondAloneRendersOnFirst(a: string, b: string, english: string, title: string)
    requires a != "" && b != "" && a != b && english != title && english != "" && title != ""
    ensures var s, o := Arr([Titled(a, english), Titled(b, english)]), Arr([Titled(b, title)]);
      && Stamp(s, o) == o
      && Merge(s, o) == Arr([Titled(a, english), Titled(b, title)])
      && MergeByPosition(s, o) == Arr([Titled(a, title), Titled(b, english)])
  {
    var ss, oo := [Titled(a, english), Titled(b, english)], [Titled(b, title)];
    assert EntryId(ss[0]) == Some(a) && EntryId(ss[1]) == Some(b) && EntryId(oo[0]) == Some(b);
    assert IdAddressable(ss) && HasIds(oo);
    FindSelf(ss, 1);
    StampEntryByOwner(ss, oo, 0);
    assert StampEntry(ss, oo, 0) == oo[0];
    assert Stamp(Arr(ss), Arr(oo)).items == oo;
    assert Slot(ss, oo, 0) == Undefined && Slot(ss, oo, 1) == oo[0];
    TitledMerges(a, english, oo[0]);
    TitledMerges(b, english, oo[0]);
    MergeNothing(ss[0], Undefined);
    NothingByPosition(ss[1], Undefined);
    assert Merge(Arr(ss), Arr(oo)).items == [Titled(a, english), Titled(b, title)];
    assert MergeByPosition(Arr(ss), Arr(oo)).items == [Titled(a, title), Titled(b, english)];
  }

  lemma TitledMerges(id: string, english: string, o: Json)
    requires english != "" && o.Obj? && "title" in o.fields && o.fields["title"].Text()
    ensures Merge(Titled(id, english), o) == Titled(id, o.fields["title"].s)
    ensures MergeByPosition(Titled(id, english), o) == Titled(id, o.fields["title"].s)
  {
    var t := o.fields["title"];
    assert Merge(Str(english), t) == t && MergeByPosition(Str(english), t) == t;
    assert Merge(Titled(id, english), o).fields == Titled(id, t.s).fields;
    assert MergeByPosition(Titled(id, english), o).fields == Titled(id, t.s).fields;
  }
}
