/** Which texts of a source the lexicon translates, told place by place. */
module SeedPlaces {
  import opened Json
  import opened Options
  import opened Addressing
  import opened Allowlist
  import opened Overlay
  import opened OverlayLaws
  import opened MergeLaws
  import opened Seed
  import opened SeedLaws

  // ---- Places of wording -----------------------------------------------------------------------

  /** A container whose own texts are wording, whatever their keys: nothing below them is. */
  predicate HoldsWording(k: string, v: Json) {
    (k in STRING_VALUE_OBJECTS && v.Obj?) || (k in STRING_ARRAYS && v.Arr?)
  }

  /** Step `j` of the path enters such a container. */
  predicate EntersWording(s: Json, p: Path, j: nat) {
    j < |p| && p[j].Key? && HoldsWording(p[j].key, Reach(s, p[..j + 1]))
  }

  /** A text under a name of wording, or right inside a container of wording, and inside no other. */
  predicate Translatable(s: Json, p: Path) {
    && p != [] && Reach(s, p).Str?
    && (forall j :: 0 <= j < |p| && EntersWording(s, p, j) ==> j == |p| - 2)
    && ((p[|p| - 1].Key? && p[|p| - 1].key in STRING_FIELDS) || (|p| > 1 && EntersWording(s, p, |p| - 2)))
  }

  predicate Hits(lex: Lexicon, text: string) {
    text in lex && lex[text] != ""
  }

  /** The text that the lexicon has for a place: an empty one only inside an array of wording. */
  function Translation(s: Json, p: Path, lex: Lexicon): Option<string> {
    if Translatable(s, p) && Reach(s, p).s in lex && (lex[Reach(s, p).s] != "" || p[|p| - 1].Index?)
    then Some(lex[Reach(s, p).s]) else None
  }

  // ---- One step of a path ----------------------------------------------------------------------

  lemma EntersFirst(s: Json, step: Step, rest: Path)
    ensures EntersWording(s, [step] + rest, 0) <==> step.Key? && HoldsWording(step.key, Child(s, step))
  {
    assert ([step] + rest)[..1] == [step] + [];
    ReachStep(s, step, []);
  }

  lemma EntersLater(s: Json, step: Step, rest: Path, j: nat)
    ensures EntersWording(s, [step] + rest, j + 1) <==> EntersWording(Child(s, step), rest, j)
  {
    if j < |rest| {
      assert ([step] + rest)[..j + 2] == [step] + rest[..j + 1];
      ReachStep(s, step, rest[..j + 1]);
    }
  }

  lemma LastTextEntersNothing(s: Json, p: Path)
    requires p != [] && Reach(s, p).Str?
    ensures !EntersWording(s, p, |p| - 1)
  {
    assert p[..|p|] == p;
  }

  lemma TranslatableStep(s: Json, step: Step, rest: Path)
    requires rest != []
    ensures Translatable(s, [step] + rest) <==>
      if step.Key? && HoldsWording(step.key, Child(s, step)) then |rest| == 1 && Reach(Child(s, step), rest).Str?
      else Translatable(Child(s, step), rest)
  {
    var p, c := [step] + rest, Child(s, step);
    ReachStep(s, step, rest);
    EntersFirst(s, step, rest);
    assert p[|p| - 1] == rest[|rest| - 1];
    forall j: nat ensures EntersWording(s, p, j + 1) <==> EntersWording(c, rest, j) {
      EntersLater(s, step, rest, j);
    }
    hide EntersWording, Reach, HoldsWording;
    if step.Key? && HoldsWording(step.key, c) {
      WordingStep(s, step, rest);
    } else {
      PlainStep(s, step, rest);
    }
  }

  lemma WordingStep(s: Json, step: Step, rest: Path)
    requires rest != [] && EntersWording(s, [step] + rest, 0) && Reach(s, [step] + rest) == Reach(Child(s, step), rest)
    ensures Translatable(s, [step] + rest) <==> |rest| == 1 && Reach(Child(s, step), rest).Str?
  {
    var p := [step] + rest;
    if |rest| == 1 && Reach(s, p).Str? {
      LastTextEntersNothing(s, p);
    }
    hide EntersWording, Reach;
  }

  lemma PlainStep(s: Json, step: Step, rest: Path)
    requires rest != [] && !EntersWording(s, [step] + rest, 0)
    requires Reach(s, [step] + rest) == Reach(Child(s, step), rest)
    requires forall j: nat :: EntersWording(s, [step] + rest, j + 1) <==> EntersWording(Child(s, step), rest, j)
    ensures Translatable(s, [step] + rest) <==> Translatable(Child(s, step), rest)
  {
    hide EntersWording, Reach;
    var p, c := [step] + rest, Child(s, step);
    if Translatable(c, rest) {
      forall j | 0 <= j < |p| && EntersWording(s, p, j) ensures j == |p| - 2 {
        assert EntersWording(c, rest, j - 1);
      }
      assert |rest| > 1 ==> (EntersWording(s, p, (|rest| - 2) + 1) <==> EntersWording(c, rest, |rest| - 2));
    }
    if Translatable(s, p) {
      forall j | 0 <= j < |rest| && EntersWording(c, rest, j) ensures j == |rest| - 2 {
        assert EntersWording(s, p, j + 1);
      }
      assert |rest| > 1 ==> (EntersWording(s, p, (|rest| - 2) + 1) <==> EntersWording(c, rest, |rest| - 2));
    }
  }

  lemma TranslatableOne(s: Json, step: Step)
    ensures Translatable(s, [step]) <==> Child(s, step).Str? && step.Key? && step.key in STRING_FIELDS
  {
    assert [step] == [step] + [];
    ReachStep(s, step, []);
    if Reach(s, [step]).Str? { LastTextEntersNothing(s, [step]); }
  }

  // ---- What the seeder writes ------------------------------------------------------------------

  lemma TextStep(v: Json, step: Step, rest: Path)
    ensures TextAt(v, [step] + rest) == TextAt(Child(v, step), rest)
  {
    ReachStep(v, step, rest);
  }

  lemma NoText(v: Json, p: Path)
    requires !v.Str? && !v.Arr? && !v.Obj?
    ensures TextAt(v, p) == None
  {
    if p != [] { ReachNothing(v, p); }
  }

  lemma TranslationStep(s: Json, step: Step, rest: Path, lex: Lexicon)
    requires rest != [] && !(step.Key? && HoldsWording(step.key, Child(s, step)))
    ensures Translation(s, [step] + rest, lex) == Translation(Child(s, step), rest, lex)
  {
    TranslatableStep(s, step, rest);
    ReachStep(s, step, rest);
    assert ([step] + rest)[|rest|] == rest[|rest| - 1];
    hide Translatable, Reach;
  }

  lemma NoTranslation(s: Json, p: Path, lex: Lexicon)
    requires !Reach(s, p).Str?
    ensures Translation(s, p, lex) == None
  {
  }

  lemma SeedChild(s: Json, step: Step, lex: Lexicon)
    ensures var c, x := Child(s, step), Child(SeedNode(s, lex), step);
      if step.Key? then x == if s.Obj? && step.key in s.fields then SeedField(step.key, c, lex) else Undefined
      else x == SeedNode(c, lex) || (x.Null? && SeedNode(c, lex).Undefined?)
  {
    SeedHasNoId(s, lex);
    if s.Obj? && step.Key? && step.key in s.fields {
      var out := map k | k in s.fields && !SeedField(k, s.fields[k], lex).Undefined? ::
        SeedField(k, s.fields[k], lex);
      assert step.key in out <==> !SeedField(step.key, s.fields[step.key], lex).Undefined?;
      assert SeedNode(s, lex) == if out == map[] then Undefined else Obj(out);
    }
  }

  /** The seed has a text exactly at the places of wording that the lexicon knows, and there it is
      the lexicon's. */
  lemma {:induction false} SeedText(s: Json, lex: Lexicon, p: Path)
    ensures TextAt(SeedNode(s, lex), p) == Translation(s, p, lex)
    decreases |p|, 0
  {
    SeedHasNoId(s, lex);
    if p != [] {
      var step, rest := p[0], p[1..];
      assert p == [step] + rest;
      var c, x := Child(s, step), Child(SeedNode(s, lex), step);
      TextStep(SeedNode(s, lex), step, rest);
      SeedChild(s, step, lex);
      ReachStep(s, step, rest);
      hide SeedNode, SeedField, Translation, TextAt, Reach, Child;
      if step.Key? {
        if x.Undefined? && c.Undefined? {
          NoText(x, rest);
          NoTextToTranslate(s, p, c, rest, lex);
        } else {
          FieldText(s, step.key, lex, rest);
        }
      } else {
        SeedText(c, lex, rest);
        NoText(Null, rest);
        NoText(Undefined, rest);
        ItemTranslation(s, step, rest, lex);
      }
    }
  }

  lemma NoTextToTranslate(s: Json, p: Path, c: Json, rest: Path, lex: Lexicon)
    requires Reach(s, p) == Reach(c, rest) && !c.Str? && !c.Arr? && !c.Obj?
    ensures Translation(s, p, lex) == None
  {
    if rest != [] { ReachNothing(c, rest); }
  }

  lemma ItemTranslation(s: Json, step: Step, rest: Path, lex: Lexicon)
    requires step.Index?
    ensures Translation(s, [step] + rest, lex) == Translation(Child(s, step), rest, lex)
  {
    if rest == [] {
      assert [step] + rest == [step];
      TranslatableOne(s, step);
    } else {
      TranslationStep(s, step, rest, lex);
    }
  }

  lemma {:induction false} FieldText(s: Json, k: string, lex: Lexicon, rest: Path)
    requires s.Obj? && k in s.fields
    ensures TextAt(SeedField(k, s.fields[k], lex), rest) == Translation(s, [Key(k)] + rest, lex)
    decreases |rest|, 1
  {
    var c := s.fields[k];
    assert Child(s, Key(k)) == c;
    ReachStep(s, Key(k), rest);
    TranslatableOne(s, Key(k));
    if rest != [] { TranslatableStep(s, Key(k), rest); }
    if k in STRING_FIELDS && c.Str? {
      NameText(s, k, lex, rest);
    } else if HoldsWording(k, c) {
      WordingText(s, k, lex, rest);
    } else if c.Arr? || c.Obj? {
      assert SeedField(k, c, lex) == SeedNode(c, lex);
      SeedHasNoId(c, lex);
      if rest == [] {
        assert [Key(k)] + rest == [Key(k)];
      } else {
        SeedText(c, lex, rest);
        TranslationStep(s, Key(k), rest, lex);
      }
    } else {
      LeafText(s, k, lex, rest);
    }
  }

  lemma NameText(s: Json, k: string, lex: Lexicon, rest: Path)
    requires s.Obj? && k in s.fields && k in STRING_FIELDS && s.fields[k].Str?
    ensures TextAt(SeedField(k, s.fields[k], lex), rest) == Translation(s, [Key(k)] + rest, lex)
  {
    var c, x := s.fields[k], SeedField(k, s.fields[k], lex);
    ReachStep(s, Key(k), rest);
    if rest == [] {
      assert [Key(k)] + rest == [Key(k)];
      TranslatableOne(s, Key(k));
    } else {
      ReachNothing(c, rest);
      ReachNothing(x, rest);
    }
  }

  lemma LeafText(s: Json, k: string, lex: Lexicon, rest: Path)
    requires s.Obj? && k in s.fields && !s.fields[k].Arr? && !s.fields[k].Obj?
    requires !(k in STRING_FIELDS && s.fields[k].Str?)
    ensures TextAt(SeedField(k, s.fields[k], lex), rest) == Translation(s, [Key(k)] + rest, lex)
  {
    var c := s.fields[k];
    assert SeedField(k, c, lex) == Undefined;
    NoText(Undefined, rest);
    ReachStep(s, Key(k), rest);
    if rest == [] {
      assert [Key(k)] + rest == [Key(k)];
      TranslatableOne(s, Key(k));
    } else {
      ReachNothing(c, rest);
    }
  }

  lemma WordingText(s: Json, k: string, lex: Lexicon, rest: Path)
    requires s.Obj? && k in s.fields && HoldsWording(k, s.fields[k])
    ensures TextAt(SeedField(k, s.fields[k], lex), rest) == Translation(s, [Key(k)] + rest, lex)
  {
    var c, x := s.fields[k], SeedField(k, s.fields[k], lex);
    assert Child(s, Key(k)) == c;
    ReachStep(s, Key(k), rest);
    if rest == [] {
      assert [Key(k)] + rest == [Key(k)];
      TranslatableOne(s, Key(k));
    } else if |rest| == 1 {
      assert rest == [rest[0]];
      WordText(s, k, lex, rest[0]);
    } else {
      assert rest == [rest[0]] + rest[1..];
      TranslatableStep(s, Key(k), rest);
      TextStep(x, rest[0], rest[1..]);
      InnerText(k, c, lex, rest[0]);
      hide SeedField, Translatable, HoldsWording;
      ReachNothing(Child(x, rest[0]), rest[1..]);
    }
  }

  lemma WordText(s: Json, k: string, lex: Lexicon, step: Step)
    requires s.Obj? && k in s.fields && HoldsWording(k, s.fields[k])
    ensures TextAt(SeedField(k, s.fields[k], lex), [step]) == Translation(s, [Key(k)] + [step], lex)
  {
    var c, x, p := s.fields[k], SeedField(k, s.fields[k], lex), [Key(k)] + [step];
    assert Child(s, Key(k)) == c && p[|p| - 1] == step;
    TranslatableStep(s, Key(k), [step]);
    ReachStep(s, Key(k), [step]);
    ReachOne(c, step);
    ReachOne(x, step);
    InnerText(k, c, lex, step);
    hide SeedField, Translatable, HoldsWording, Reach;
  }

  lemma ReachOne(v: Json, step: Step)
    ensures Reach(v, [step]) == Child(v, step)
  {
    assert [step] == [step] + [];
    ReachStep(v, step, []);
  }

  /** One text of a container of wording. */
  lemma InnerText(k: string, c: Json, lex: Lexicon, step: Step)
    requires HoldsWording(k, c)
    ensures var x, t := Child(SeedField(k, c, lex), step), Child(c, step);
      && !x.Arr? && !x.Obj?
      && (x.Str? <==> t.Str? && t.s in lex && (lex[t.s] != "" || step.Index?))
      && (x.Str? ==> x.s == lex[t.s])
  {
    if c.Obj? {
      var inner := map ik | ik in c.fields && c.fields[ik].Str? && !Hit(lex, c.fields[ik].s).Undefined? ::
        Hit(lex, c.fields[ik].s);
      assert SeedField(k, c, lex) == if inner == map[] then Undefined else Obj(inner);
      assert step.Key? ==> (step.key in inner <==>
        step.key in c.fields && c.fields[step.key].Str? && !Hit(lex, c.fields[step.key].s).Undefined?);
    } else {
      var inner := seq(|c.items|, i requires 0 <= i < |c.items| => SeedElement(c.items[i], lex));
      assert SeedField(k, c, lex) ==
        if forall i :: 0 <= i < |inner| ==> inner[i].Null? then Undefined else Arr(inner);
      assert step.Index? && step.i < |c.items| ==> inner[step.i] == SeedElement(c.items[step.i], lex);
    }
  }

  // ---- What is rendered of it ------------------------------------------------------------------

  /** None of the overlay's arrays is matched by id. */
  lemma {:induction false} FoundByPlace(s: Json, o: Json, p: Path)
    requires IdFree(o) && Reach(s, p).Str?
    ensures FoundAt(s, o, p) == Reach(o, p)
    decreases |p|
  {
    if p != [] {
      var c, x, rest := Child(s, p[0]), Child(o, p[0]), p[1..];
      if c.Undefined? {
        if rest != [] { ReachNothing(c, rest); }
      } else {
        assert FoundIn(s, o, p[0]) == x && IdFree(x);
        FoundByPlace(c, x, rest);
      }
    }
  }

  lemma {:induction false} SeedIsIdFree(s: Json, lex: Lexicon)
    ensures IdFree(SeedNode(s, lex))
    decreases s, 1
  {
    var x := SeedNode(s, lex);
    SeedHasNoId(s, lex);
    if s.Arr? && x.Arr? {
      forall i | 0 <= i < |x.items| ensures IdFree(x.items[i]) && !HasId(x.items[i]) {
        SeedIsIdFree(s.items[i], lex);
        SeedHasNoId(s.items[i], lex);
      }
    } else if s.Obj? && x.Obj? {
      forall k | k in x.fields ensures IdFree(x.fields[k]) {
        SeedFieldIsIdFree(k, s.fields[k], lex);
      }
    }
  }

  lemma {:induction false} SeedFieldIsIdFree(k: string, v: Json, lex: Lexicon)
    ensures IdFree(SeedField(k, v, lex))
    decreases v, 2
  {
    if (v.Arr? || v.Obj?) && !HoldsWording(k, v) { SeedIsIdFree(v, lex); }
  }

  lemma SeededText(s: Json, lex: Lexicon, p: Path)
    ensures TextAt(Merge(s, SeedNode(s, lex)), p) == Rendered(s, Reach(SeedNode(s, lex), p), p)
  {
    MergedText(s, SeedNode(s, lex), p);
    SeedIsIdFree(s, lex);
    if Reach(s, p).Str? { FoundByPlace(s, SeedNode(s, lex), p); }
    hide Merge, SeedNode;
  }

  /** The path goes into a container under `id`. */
  predicate PassesId(p: Path) {
    p != [] && Key(ID) in p[..|p| - 1]
  }

  lemma {:induction false} AlikeText(s: Json, t: Json, u: Json, p: Path)
    requires Alike(s, t, u) && Reach(s, p).Str? && !PassesId(p)
    ensures TextAt(t, p) == TextAt(u, p)
    decreases |p|
  {
    if p != [] {
      var c, rest := Child(s, p[0]), p[1..];
      if rest != [] {
        assert p[0] in p[..|p| - 1] && p[..|p| - 1] == [p[0]] + rest[..|rest| - 1];
      }
      if c.Undefined? {
        if rest != [] { ReachNothing(c, rest); }
      } else {
        assert p[0] == Key(ID) ==> rest == [] && c.Str?;
        AlikeText(c, Child(t, p[0]), Child(u, p[0]), rest);
      }
    }
  }

  lemma {:induction false} UntouchedText(s: Json, t: Json, p: Path)
    requires IdsUntouched(s, t) && SameShape(s, t) && Reach(s, p).Str? && PassesId(p)
    ensures TextAt(t, p) == TextAt(s, p)
    decreases |p|
  {
    var c, rest := Child(s, p[0]), p[1..];
    if c.Undefined? {
      if rest != [] { ReachNothing(c, rest); }
    } else if p[0] == Key(ID) && (c.Arr? || c.Obj?) {
      assert IdContainer(s.fields, ID);
    } else {
      assert rest != [];
      assert p[..|p| - 1] == [p[0]] + rest[..|rest| - 1];
      if p[0] == Key(ID) { ReachNothing(c, rest); }
      UntouchedText(c, Child(t, p[0]), rest);
    }
  }

  lemma {:induction false} ShapeText(s: Json, t: Json, p: Path)
    requires SameShape(s, t)
    ensures Reach(t, p).Str? <==> Reach(s, p).Str?
    decreases |p|
  {
    if p != [] {
      var c, rest := Child(s, p[0]), p[1..];
      if c.Undefined? {
        if rest != [] { ReachNothing(c, rest); ReachNothing(Child(t, p[0]), rest); }
      } else {
        ShapeText(c, Child(t, p[0]), rest);
      }
    }
  }

  /** The text of a template in a locale of which nothing was on disk. */
  function SeededTextOf(s: Json, lex: Lexicon, p: Path): Option<string> {
    if !Reach(s, p).Str? then None
    else
      var text := Reach(s, p).s;
      if Translatable(s, p) && Key(ID) !in p && text != "" && Hits(lex, text) then Some(lex[text]) else Some(text)
  }

  /** A catalog seeded from nothing renders the lexicon's text at every place of wording that the
      lexicon translates and that is not at or under an `id`, and English everywhere else. */
  lemma SeededCatalogText(s: Json, lex: Lexicon, p: Path)
    requires s.Obj?
    ensures TextAt(Merge(s, SeedCatalog(s, lex, Undefined)), p) == SeededTextOf(s, lex, p)
  {
    var f := Fresh(s, lex);
    var t := Merge(s, SeedCatalog(s, lex, Undefined));
    CatalogOfNothing(s, lex);
    FreshMirrors(s, lex);
    MirrorsIsPlaced(s, f);
    PrunePreservesRendering(s, f);
    FreshRenders(s, lex);
    MergeKeepsShape(s, SeedCatalog(s, lex, Undefined));
    ShapeText(s, t, p);
    if Reach(s, p).Str? {
      SeededText(s, lex, p);
      SeedText(s, lex, p);
      if PassesId(p) {
        UntouchedText(s, t, p);
        assert forall step :: step in p[..|p| - 1] ==> step in p;
      } else {
        AlikeText(s, t, Merge(s, f), p);
        IdIsLast(p);
      }
    }
    hide Merge, SeedNode, SeedCatalog, Fresh, Translatable, Reach, Alike, IdsUntouched;
  }

  lemma IdIsLast(p: Path)
    requires !PassesId(p)
    ensures Key(ID) in p <==> EndsInId(p)
  {
    if p != [] { assert p == p[..|p| - 1] + [p[|p| - 1]]; }
  }

  lemma CatalogOfNothing(s: Json, lex: Lexicon)
    requires s.Obj?
    ensures Merge(s, SeedCatalog(s, lex, Undefined)) == Merge(s, PruneUntranslated(Fresh(s, lex)))
  {
    assert Merge(s, Obj(map[])).fields == s.fields;
  }

  lemma FreshRenders(s: Json, lex: Lexicon)
    requires s.Obj?
    ensures Merge(s, Fresh(s, lex)) == Merge(s, SeedNode(s, lex))
  {
    StampPreservesRendering(s, OrEmpty(SeedNode(s, lex)));
    assert Merge(s, Obj(map[])).fields == s.fields;
  }
}
