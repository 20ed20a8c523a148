/** The seeder's promises, for every source, lexicon and existing overlay. */
module SeedTheorems {
  import opened Json
  import opened Addressing
  import opened Overlay
  import opened OverlayLaws
  import opened Seed
  import opened SeedLaws
  import opened Reseed

  // ---- Re-seeding -------------------------------------------------------------

  /** What pruning leaves carries a translation at every node, so nothing shadows the seed. */
  lemma {:induction false} PrunedIsSettled(s: Json, x: Json, f: Json)
    requires x.Nullish() || PruneUntranslated(x) == x
    ensures Settled(s, x, f)
    decreases x
  {
    if x.Arr? && f.Arr? {
      PrunedArray(x.items);
      forall i | 0 <= i < |x.items| ensures x.items[i].Nullish() || PruneUntranslated(x.items[i]) == x.items[i] {
        assert x.items[i] == NullIfAbsent(PruneUntranslated(x.items[i]));
      }
      forall i | 0 <= i < Width(s, x.items, f.items)
        ensures Settled(
          SourceItem(s, i), Pair(s, x.items, f.items, x.items, i), Pair(s, x.items, f.items, f.items, i))
      {
        var y := Pair(s, x.items, f.items, x.items, i);
        if !y.Undefined? {
          PrunedIsSettled(SourceItem(s, i), y, Pair(s, x.items, f.items, f.items, i));
        }
      }
    } else if x.Obj? && f.Obj? {
      PrunedObject(x.fields);
      forall k | k in x.fields && k != ID ensures PruneUntranslated(x.fields[k]) == x.fields[k] {
        assert Get(x.fields, k) == PruneUntranslated(Get(x.fields, k));
      }
      forall k | k in x.fields && k != ID ensures Settled(SourceField(s, k), x.fields[k], Get(f.fields, k)) {
        PrunedIsSettled(SourceField(s, k), x.fields[k], Get(f.fields, k));
      }
    }
  }

  /** One more run of the seeder returns its output unchanged exactly when no existing value
      that translates nothing sat where the lexicon has a translation, and no id that is no
      string where the seed has one. */
  lemma ReseedIsFixedPoint(s: Json, lex: Lexicon, e: Json)
    requires s.Obj?
    ensures SeedCatalog(s, lex, SeedCatalog(s, lex, e)) == SeedCatalog(s, lex, e)
      <==> Settled(s, Stamp(s, e), Fresh(s, lex))
  {
    var e', f := Stamp(s, e), Fresh(s, lex);
    FreshMirrors(s, lex);
    ReseedStep(s, e', f);
    StampIdempotent(s, e);
    KeepIsPlaced(s, e', f);
    var x := PruneUntranslated(Keep(s, e', f));
    PruneKeepsPlaced(s, Keep(s, e', f));
    assert Placed(s, OrEmpty(x));
    PlacedIsStamped(s, OrEmpty(x));
    if x.Undefined? { WrittenObj(s, x, f, map[], f.fields); KeepObj(s, map[], f); }
    PrunedOrEmpty(Keep(s, e', f));
    PrunedOrEmpty(Keep(s, x, f));
  }

  lemma PrunedOrEmpty(x: Json)
    ensures var p := PruneUntranslated(x); p.Undefined? || (!p.Nullish() && p != Obj(map[]))
  {
    PruneKind(x);
    if x.Obj? { PrunedObject(x.fields); }
  }

  /** Whatever was on disk, from the second run on the catalog no longer changes. */
  lemma ReseedSettles(s: Json, lex: Lexicon, e: Json)
    requires s.Obj?
    ensures var once := SeedCatalog(s, lex, e);
      var twice := SeedCatalog(s, lex, once);
      SeedCatalog(s, lex, twice) == twice
  {
    FreshMirrors(s, lex);
    var k := Keep(s, Stamp(s, e), Fresh(s, lex));
    var x := PruneUntranslated(k);
    PruneIdempotent(k);
    PrunedOrEmpty(k);
    PrunedIsSettled(s, x, Fresh(s, lex));
    StampIdempotent(s, e);
    KeepIsPlaced(s, Stamp(s, e), Fresh(s, lex));
    PruneKeepsPlaced(s, k);
    PlacedIsStamped(s, OrEmpty(x));
    ReseedIsFixedPoint(s, lex, OrEmpty(x));
  }

  // ---- Overlays that conform to their source ---------------------------------

  /** Every object's `id` is absent or a string. */
  ghost predicate StringIds(e: Json)
    decreases e
  {
    match e
    case Arr(ee) => forall i :: 0 <= i < |ee| ==> StringIds(ee[i])
    case Obj(ee) =>
      && (Get(ee, ID).Nullish() || Get(ee, ID).Str?)
      && (forall k :: k in ee ==> StringIds(ee[k]))
    case _ => true
  }

  lemma {:induction false} StampKeepsStringIds(s: Json, e: Json)
    requires StringIds(e)
    ensures StringIds(Stamp(s, e))
    decreases e, 0
  {
    if e.Nullish() {
    } else if s.Arr? && e.Arr? {
      var e' := StampItems(s.items, e.items);
      assert Stamp(s, e) == Arr(e');
      forall i | 0 <= i < |e'| ensures StringIds(e'[i]) { StampEntryKeepsStringIds(s.items, e.items, i); }
    } else if s.Obj? && e.Obj? {
      forall k | k in e.fields && k in s.fields { StampKeepsStringIds(s.fields[k], e.fields[k]); }
      var e' := Stamp(s, e).fields;
      forall k | k in e' ensures StringIds(e'[k]) { }
      assert ID in e.fields && ID in s.fields ==> e'[ID] == Stamp(s.fields[ID], e.fields[ID]);
    }
  }

  lemma {:induction false} StampEntryKeepsStringIds(s: seq<Json>, e: seq<Json>, i: nat)
    requires i < |e| && StringIds(e[i])
    ensures StringIds(StampEntry(s, e, i))
    decreases e[i], 1
  {
    if IdAddressable(s) {
      StampEntryByOwner(s, e, i);
      StampKeepsStringIds(Owner(s, e, i), e[i]);
    } else {
      StampKeepsStringIds(At(s, i), e[i]);
    }
  }

  /** Wherever the merger would read it, the overlay is absent or of the source's kind,
      and its texts are not empty. */
  ghost predicate Conforms(s: Json, e: Json)
    decreases s
  {
    || e.Nullish()
    || (match (s, e)
        case (Arr(ss), Arr(ee)) => forall i :: 0 <= i < |ss| ==> Conforms(ss[i], Slot(ss, ee, i))
        case (Obj(ss), Obj(ee)) => forall k :: k in ss && k != ID ==> Conforms(ss[k], Get(ee, k))
        case (Str(_), _) => e.Text()
        case (Arr(_), _) => false
        case (Obj(_), _) => false
        case _ => true)
  }

  lemma {:induction false} StampedConforms(s: Json, e: Json)
    requires Conforms(s, e)
    ensures Conforms(s, Stamp(s, e))
    decreases s
  {
    if e.Nullish() {
    } else if s.Arr? && e.Arr? {
      var ss, e' := s.items, StampItems(s.items, e.items);
      assert Stamp(s, e) == Arr(e');
      forall i | 0 <= i < |ss| ensures Conforms(ss[i], Slot(ss, e', i)) {
        var x := Slot(ss, e.items, i);
        StampedConforms(ss[i], x);
        if IdAddressable(ss) {
          SlotOfStamped(ss, e.items, i);
          if x.Obj? { ConformsIgnoresId(ss[i], Stamp(ss[i], x), IdOf(ss[i])); }
        }
      }
    } else if s.Obj? && e.Obj? {
      forall k | k in s.fields && k != ID ensures Conforms(s.fields[k], Get(Stamp(s, e).fields, k)) {
        StampedConforms(s.fields[k], Get(e.fields, k));
      }
    }
  }

  lemma {:induction false} ConformsIgnoresId(s: Json, e: Json, id: string)
    requires HasId(s) && e.Obj? && Conforms(s, e)
    ensures Conforms(s, WithId(e, id))
  {
  }

  lemma {:induction false} ConformingFits(s: Json, e: Json, f: Json)
    requires Conforms(s, e) && Mirrors(s, f) && Stamp(s, e) == e
    ensures Fits(s, e, f)
    decreases s
  {
    if e.Nullish() || f.Nullish() {
    } else if s.Arr? {
      forall i | 0 <= i < |s.items|
        ensures Fits(s.items[i], Pair(s, e.items, f.items, e.items, i), Pair(s, e.items, f.items, f.items, i))
      {
        PairIsSlot(s.items, e.items, f.items, i);
        ConformingFits(s.items[i], Pair(s, e.items, f.items, e.items, i), Pair(s, e.items, f.items, f.items, i));
      }
    } else if s.Obj? {
      forall k | k in s.fields && k != ID ensures Fits(s.fields[k], Get(e.fields, k), Get(f.fields, k)) {
        assert k in e.fields ==> Stamp(s, e).fields[k] == e.fields[k];
        ConformingFits(s.fields[k], Get(e.fields, k), Get(f.fields, k));
      }
    }
  }

  lemma {:induction false} ConformingIsSettled(s: Json, e: Json, f: Json)
    requires f.Nullish() || (Conforms(s, e) && Mirrors(s, f) && Stamp(s, e) == e && StringIds(e))
    ensures Settled(s, e, f)
    decreases e
  {
    if e.Nullish() || f.Nullish() {
    } else if s.Arr? {
      var ee, ff := e.items, f.items;
      forall i | 0 <= i < Width(s, ee, ff)
        ensures Settled(SourceItem(s, i), Pair(s, ee, ff, ee, i), Pair(s, ee, ff, ff, i))
      {
        var x, y := Pair(s, ee, ff, ee, i), Pair(s, ee, ff, ff, i);
        if i < |s.items| { PairIsSlot(s.items, ee, ff, i); }
        if !x.Nullish() { ConformingIsSettled(SourceItem(s, i), x, y); }
      }
    } else if s.Obj? {
      forall k | k in e.fields && k != ID ensures Settled(SourceField(s, k), e.fields[k], Get(f.fields, k)) {
        assert k in s.fields ==> Stamp(s, e).fields[k] == e.fields[k];
        ConformingIsSettled(SourceField(s, k), e.fields[k], Get(f.fields, k));
      }
    }
  }

  lemma ConformingIsInPlace(s: Json, lex: Lexicon, e: Json)
    requires s.Obj? && Conforms(s, e)
    ensures Fits(s, Stamp(s, e), Fresh(s, lex))
    ensures StringIds(e) ==> Settled(s, Stamp(s, e), Fresh(s, lex))
  {
    FreshMirrors(s, lex);
    StampedConforms(s, e);
    StampIdempotent(s, e);
    ConformingFits(s, Stamp(s, e), Fresh(s, lex));
    if StringIds(e) {
      StampKeepsStringIds(s, e);
      ConformingIsSettled(s, Stamp(s, e), Fresh(s, lex));
    }
  }

  /** A conforming overlay's translations win, the lexicon fills the rest, English remains,
      exactly when containers under `id` stay as they are in the source. */
  lemma ConformingSeed(s: Json, lex: Lexicon, e: Json)
    requires s.Obj? && Conforms(s, e)
    ensures var rendered := Merge(Merge(s, SeedNode(s, lex)), e);
      Merge(s, SeedCatalog(s, lex, e)) == rendered <==> IdsUntouched(s, rendered)
  {
    hide *;
    ConformingIsInPlace(s, lex, e);
    SeedingLaw(s, lex, e);
  }

  /** Seeding over a conforming overlay and then seeding again writes the same catalog. */
  lemma ConformingReseed(s: Json, lex: Lexicon, e: Json)
    requires s.Obj? && Conforms(s, e) && StringIds(e)
    ensures SeedCatalog(s, lex, SeedCatalog(s, lex, e)) == SeedCatalog(s, lex, e)
  {
    hide *;
    ConformingIsInPlace(s, lex, e);
    ReseedIsFixedPoint(s, lex, e);
  }

  // ---- Where the promises stop ------------------------------------------------

  lemma SeedOneField(k: string, v: Json, lex: Lexicon)
    requires !SeedField(k, v, lex).Undefined?
    ensures SeedNode(Obj(map[k := v]), lex) == Obj(map[k := SeedField(k, v, lex)])
  {
    var s := map[k := v];
    var out := map n | n in s && !SeedField(n, s[n], lex).Undefined? :: SeedField(n, s[n], lex);
    assert k in out && out == map[k := SeedField(k, v, lex)];
  }

  function Titled(text: string): Json {
    Obj(map["title" := Str(text)])
  }

  lemma SeedOfTitle(text: string, lex: Lexicon)
    requires text in lex && |lex[text]| > 0
    ensures SeedNode(Titled(text), lex) == Titled(lex[text])
    ensures Stamp(Titled(text), Titled(lex[text])) == Titled(lex[text])
  {
    assert SeedField("title", Str(text), lex) == Str(lex[text]);
    SeedOneField("title", Str(text), lex);
    assert Stamp(Titled(text), Titled(lex[text])).fields == Titled(lex[text]).fields;
  }

  lemma EmptyTextFits(text: string, hit: string)
    requires |text| > 0 && |hit| > 0 && text != hit
    ensures Stamp(Titled(text), Titled("")) == Titled("")
    ensures !Fits(Titled(text), Titled(""), Titled(hit)) && !Settled(Titled(text), Titled(""), Titled(hit))
  {
    assert Stamp(Titled(text), Titled("")).fields == Titled("").fields;
    assert !Fits(Str(text), Str(""), Str(hit)) && !Settled(Str(text), Str(""), Str(hit));
    var s, e, f := Titled(text).fields, Titled("").fields, Titled(hit).fields;
    assert "title" in s && Get(e, "title") == Str("") && Get(f, "title") == Str(hit);
    assert !Fits(s["title"], Get(e, "title"), Get(f, "title"));
    assert !Settled(SourceField(Titled(text), "title"), e["title"], Get(f, "title"));
  }

  /** An empty text on disk hides the lexicon's translation, and the next run brings it back. */
  lemma EmptyTextHidesSeed(text: string, lex: Lexicon)
    requires |text| > 0 && text in lex && |lex[text]| > 0 && lex[text] != text
    ensures var s, e := Titled(text), Titled("");
      && Merge(s, SeedCatalog(s, lex, e)) != Merge(Merge(s, SeedNode(s, lex)), e)
      && SeedCatalog(s, lex, SeedCatalog(s, lex, e)) != SeedCatalog(s, lex, e)
  {
    SeedOfTitle(text, lex);
    EmptyTextFits(text, lex[text]);
    SeedingLaw(Titled(text), lex, Titled(""));
    ReseedIsFixedPoint(Titled(text), lex, Titled(""));
  }

  lemma NothingOutsideId(v: Json)
    ensures PruneUntranslated(Obj(map[ID := v])).Undefined?
  {
    PrunedObject(map[ID := v]);
  }

  lemma SeedOfIdContainer(text: string, lex: Lexicon)
    requires text in lex && |lex[text]| > 0
    ensures var s, seeded := Obj(map[ID := Titled(text)]), Obj(map[ID := Titled(lex[text])]);
      SeedNode(s, lex) == seeded && Fresh(s, lex) == seeded
  {
    SeedOfTitle(text, lex);
    assert SeedField(ID, Titled(text), lex) == Titled(lex[text]);
    SeedOneField(ID, Titled(text), lex);
    var s, seeded := Obj(map[ID := Titled(text)]), Obj(map[ID := Titled(lex[text])]);
    assert Stamp(s, seeded).fields == seeded.fields;
  }

  /** Text inside a source's `id` is seeded but never written: the pruning keeps only string ids. */
  lemma IdContainerIsNotWritten(text: string, lex: Lexicon)
    requires |text| > 0 && text in lex && |lex[text]| > 0 && lex[text] != text
    ensures var s := Obj(map[ID := Titled(text)]);
      && SeedCatalog(s, lex, Obj(map[])) == Obj(map[])
      && Merge(s, SeedNode(s, lex)) != s
  {
    var s, seeded := Obj(map[ID := Titled(text)]), Obj(map[ID := Titled(lex[text])]);
    SeedOfIdContainer(text, lex);
    assert Stamp(s, Obj(map[])).fields == map[];
    KeepObj(s, map[], seeded);
    EmptyKeepsFields(s, seeded.fields);
    NothingOutsideId(Titled(lex[text]));
    assert Merge(s, seeded).fields[ID] == Merge(Titled(text), Titled(lex[text]));
    assert Merge(Titled(text), Titled(lex[text])).fields["title"] == Str(lex[text]);
  }
}
