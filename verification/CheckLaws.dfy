/** What the checker's verdict tells of what the merger will do. */
module CheckLaws {
  import opened Json
  import opened Options
  import opened Addressing
  import opened Allowlist
  import opened Overlay
  import opened OverlayCheck

  // ---- Only wording changes ---------------------------------------------------------

  ghost predicate SameOrText(v: Json, w: Json) {
    v == w || (v.Str? && w.Str?)
  }

  /** `t` is `s` but for texts in the allowlisted places: strings under a text field, values
      of a text-valued object, elements of a text array. */
  ghost predicate OnlyWording(s: Json, t: Json)
    decreases s
  {
    match s
    case Arr(ss) => t.Arr? && |t.items| == |ss| && forall i :: 0 <= i < |ss| ==> OnlyWording(ss[i], t.items[i])
    case Obj(ss) =>
      && t.Obj? && t.fields.Keys == ss.Keys
      && (forall k :: k in ss ==> AllowedField(k, ss[k], t.fields[k]) || OnlyWording(ss[k], t.fields[k]))
    case _ => s == t
  }

  ghost predicate AllowedField(k: string, v: Json, w: Json) {
    || (k in STRING_FIELDS && SameOrText(v, w))
    || (k in STRING_VALUE_OBJECTS && v.Obj? && w.Obj? && w.fields.Keys == v.fields.Keys
        && forall n :: n in v.fields ==> SameOrText(v.fields[n], w.fields[n]))
    || (k in STRING_ARRAYS && v.Arr? && w.Arr? && |w.items| == |v.items|
        && forall i :: 0 <= i < |v.items| ==> SameOrText(v.items[i], w.items[i]))
  }

  lemma {:induction false} OnlyWordingReflexive(s: Json)
    ensures OnlyWording(s, s)
    decreases s
  {
    match s
    case Arr(ss) => forall i | 0 <= i < |ss| { OnlyWordingReflexive(ss[i]); }
    case Obj(ss) => forall k | k in ss { OnlyWordingReflexive(ss[k]); }
    case _ =>
  }

  // ---- The source that is checked -----------------------------------------------------

  /** What is found in an overlay and rendered of it is the same over both sources. */
  ghost predicate CheckedAlike(s: Json, t: Json) {
    forall o :: Findings(s, o, [], false) == Findings(t, o, [], false) && Merge(s, o) == Merge(t, o)
  }

  /** A layer's `aliases` is checked and rendered as its `slots`, unless it has those besides. */
  lemma AliasesAreSlots(t: map<string, Json>, a: Json)
    requires Truthy(a) && "aliases" !in t && !Truthy(Get(t, "slots"))
    ensures CheckedAlike(NormaliseSource(Obj(t["aliases" := a])), Obj(t["slots" := a]))
  {
    var raw := t["aliases" := a];
    assert raw - {"aliases"} == t - {"aliases"} == t;
    assert Get(raw, "slots") == Get(t, "slots");
    assert NormaliseSource(Obj(raw)) == Obj(t["slots" := a]);
    hide Findings, Merge;
  }

  /** Any other source is checked and rendered as it stands. */
  lemma OthersStand(s: Json)
    requires s.Obj? ==> !Truthy(Get(s.fields, "aliases")) || Truthy(Get(s.fields, "slots"))
    ensures CheckedAlike(NormaliseSource(s), s)
  {
    hide Findings, Merge;
  }

  /** A text under `slots` is no finding over a layer that has the slot among its `aliases`, and is
      rendered there. */
  lemma SlotOverAliases(slot: string, english: string, text: string)
    requires english != "" && text != "" && slot != ID
    ensures var s := NormaliseSource(Obj(map["aliases" := Obj(map[slot := Str(english)])]));
      var o := Obj(map["slots" := Obj(map[slot := Str(text)])]);
      Findings(s, o, [], false) == {} && Merge(s, o) == o
  {
    var a, b, t: map<string, Json> := Obj(map[slot := Str(english)]), Obj(map[slot := Str(text)]), map[];
    AliasesAreSlots(t, a);
    assert t["aliases" := a] == map["aliases" := a] && t["slots" := a] == map["slots" := a];
    var s, o := Obj(map["slots" := a]), Obj(map["slots" := b]);
    assert FieldFindings(s.fields, o.fields, "slots", [], false) == {};
    assert Findings(s, o, [], false) == {};
    assert Merge(Str(english), Str(text)) == Str(text);
    assert Merge(a, b).fields == b.fields;
    assert Merge(s, o).fields == o.fields;
  }

  // ---- Findings that matter -----------------------------------------------------------

  /** Where one of these is found the checker looks no further, but the merger may still
      apply what is there. */
  const UNJUDGED: set<Issue> :=
    {BadId, SourceNotString, SourceNotObject, InnerNotAString, SourceNotArray, ElementNotText, ElementBeyondLength}

  ghost predicate Harmless(fs: set<Finding>) {
    forall f :: f in fs ==> f.issue != NotAllowed && f.issue !in UNJUDGED
  }

  /** Every finding but a rewrite and those seven kinds is drift the merger ignores. */
  lemma {:induction false} HarmlessChangesOnlyWording(s: Json, o: Json, path: Path, structural: bool)
    requires structural ==> HasId(s)
    requires Harmless(Findings(s, o, path, structural))
    ensures OnlyWording(s, Merge(s, o))
    decreases s, 1
  {
    var fs := Findings(s, o, path, structural);
    assert Finding(path, NotAllowed) !in fs;
    if o.Nullish() || (s.Arr? && !o.Arr?) || (s.Obj? && !o.Obj?) {
      OnlyWordingReflexive(s);
    } else if s.Arr? {
      forall i | 0 <= i < |s.items| ensures OnlyWording(s.items[i], Merge(s.items[i], Slot(s.items, o.items, i))) {
        HarmlessSlot(s.items, o.items, i, path);
      }
    } else if s.Obj? {
      forall k | k in s.fields
        ensures var t := Merge(s, o).fields[k]; AllowedField(k, s.fields[k], t) || OnlyWording(s.fields[k], t)
      {
        if k in o.fields && !(k == ID && s.fields[k].Str?) {
          assert FieldFindings(s.fields, o.fields, k, path, structural) <= fs;
          HarmlessField(s.fields, o.fields, k, path, structural);
        } else {
          OnlyWordingReflexive(s.fields[k]);
        }
      }
    }
  }

  lemma {:induction false} HarmlessSlot(s: seq<Json>, o: seq<Json>, i: nat, path: Path)
    requires i < |s| && Harmless(Findings(Arr(s), Arr(o), path, false))
    ensures OnlyWording(s[i], Merge(s[i], Slot(s, o, i)))
    decreases Arr(s), 0
  {
    var fs := Findings(Arr(s), Arr(o), path, false);
    var x := Slot(s, o, i);
    if x.Nullish() || (IdAddressable(s) && !x.Obj?) {
      OnlyWordingReflexive(s[i]);
    } else if IdAddressable(s) {
      var j := if HasIds(o) then IndexOf(o, IdOf(s[i])) else i;
      var at := path + [Index(j)];
      assert EntryFindings(s, o, j, path) <= fs;
      FindSelf(s, i);
      if HasIds(o) {
        assert EntryFindings(s, o, j, path) == Findings(s[i], x, at, true);
        HarmlessChangesOnlyWording(s[i], x, at, true);
      } else {
        assert !HasId(o[i]) && Finding(at + [Key(ID)], BadId) !in fs;
        assert EntryFindings(s, o, j, path) == Findings(s[i], x, at, false);
        HarmlessChangesOnlyWording(s[i], x, at, false);
      }
    } else {
      assert ItemFindings(s, o, i, path) <= fs;
      assert Findings(s[i], x, path + [Index(i)], false) <= ItemFindings(s, o, i, path);
      HarmlessChangesOnlyWording(s[i], x, path + [Index(i)], false);
    }
  }

  lemma {:induction false} HarmlessField(s: map<string, Json>, o: map<string, Json>, k: string, path: Path,
      structural: bool)
    requires k in s && k in o && !(k == ID && s[k].Str?)
    requires structural ==> HasId(Obj(s))
    requires Harmless(FieldFindings(s, o, k, path, structural))
    ensures var t := Merge(s[k], o[k]); AllowedField(k, s[k], t) || OnlyWording(s[k], t)
    decreases Obj(s), 0
  {
    var at := path + [Key(k)];
    var fs := FieldFindings(s, o, k, path, structural);
    assert Finding(at, SourceNotString) !in fs && Finding(at, NotAllowed) !in fs;
    if k in STRING_FIELDS {
    } else if k in STRING_VALUE_OBJECTS {
      HarmlessValueObject(s[k], o[k], at);
    } else if k in STRING_ARRAYS {
      HarmlessStringArray(s[k], o[k], at);
    } else {
      HarmlessChangesOnlyWording(s[k], o[k], at, false);
    }
  }

  lemma HarmlessValueObject(sv: Json, v: Json, at: Path)
    requires Harmless(ValueObjectFindings(sv, v, at))
    ensures var t := Merge(sv, v);
      sv.Obj? && t.Obj? && t.fields.Keys == sv.fields.Keys
      && forall n :: n in sv.fields ==> SameOrText(sv.fields[n], t.fields[n])
  {
    var fs := ValueObjectFindings(sv, v, at);
    assert Finding(at, SourceNotObject) !in fs;
    if v.Obj? {
      forall n | n in v.fields && n in sv.fields ensures v.fields[n].Str? {
        assert InnerFindings(sv.fields, v.fields, n, at) <= fs;
        assert Finding(at + [Key(n)], InnerNotAString) !in fs;
      }
    }
  }

  lemma HarmlessStringArray(sv: Json, v: Json, at: Path)
    requires Harmless(StringArrayFindings(sv, v, at))
    ensures var t := Merge(sv, v);
      sv.Arr? && t.Arr? && |t.items| == |sv.items|
      && forall i :: 0 <= i < |sv.items| ==> SameOrText(sv.items[i], t.items[i])
  {
    var fs := StringArrayFindings(sv, v, at);
    assert Finding(at, SourceNotArray) !in fs;
    if v.Arr? {
      forall i | 0 <= i < |v.items| ensures i < |sv.items| && (v.items[i].Null? || v.items[i].Str?) {
        assert ElementFindings(sv.items, v.items, i, at) <= fs;
        assert Finding(at + [Index(i)], ElementNotText) !in fs && Finding(at + [Index(i)], ElementBeyondLength) !in fs;
      }
      assert !HasIds(v.items);
      forall i | 0 <= i < |sv.items| ensures SameOrText(sv.items[i], Merge(sv.items[i], At(v.items, i))) { }
    }
  }

  /** An overlay the checker accepts changes wording and nothing else. */
  lemma AcceptedChangesOnlyWording(source: Json, overlay: Json)
    requires Findings(NormaliseSource(source), overlay, [], false) == {}
    ensures var s := NormaliseSource(source); OnlyWording(s, Merge(s, overlay))
  {
    HarmlessChangesOnlyWording(NormaliseSource(source), overlay, [], false);
  }

  // ---- Exactly which findings matter ------------------------------------------------------

  ghost predicate FoundOnly(kinds: set<Issue>, s: Json, o: Json) {
    forall f :: f in Findings(s, o, [], false) ==> f.issue in kinds
  }

  /** Of a template, an overlay with findings of these kinds alone never changes more than wording. */
  ghost predicate SafeToMerge(kinds: set<Issue>) {
    forall s: Json, o: Json :: s.Obj? && FoundOnly(kinds, s, o) ==> OnlyWording(s, Merge(s, o))
  }

  /** A set of kinds of findings may be let pass exactly when it holds neither the rewrite nor
      one of the seven kinds; passing all but rewrites, as the read side does, is too much. */
  lemma SafeExactly(kinds: set<Issue>)
    ensures SafeToMerge(kinds) <==> NotAllowed !in kinds && kinds !! UNJUDGED
  {
    if NotAllowed !in kinds && kinds !! UNJUDGED {
      forall s: Json, o: Json | s.Obj? && FoundOnly(kinds, s, o) ensures OnlyWording(s, Merge(s, o)) {
        HarmlessChangesOnlyWording(s, o, [], false);
      }
    } else {
      var issue :| issue in kinds && (issue == NotAllowed || issue in UNJUDGED);
      EveryUnjudgedKindHides(issue);
      hide Hides, OnlyWording;
      var s, o :| Hides(issue, s, o);
      HiddenIsFound(issue, kinds, s, o);
    }
  }

  lemma HiddenIsFound(issue: Issue, kinds: set<Issue>, s: Json, o: Json)
    requires Hides(issue, s, o) && issue in kinds
    ensures s.Obj? && FoundOnly(kinds, s, o) && !OnlyWording(s, Merge(s, o))
  {
    hide Findings, OnlyWording, Merge;
  }

  /** An overlay of a template with findings of this one kind alone, and text changed outside
      the allowlist. */
  ghost predicate Hides(issue: Issue, s: Json, o: Json) {
    && s.Obj?
    && (forall f :: f in Findings(s, o, [], false) ==> f.issue == issue)
    && !OnlyWording(s, Merge(s, o))
  }

  /** There is such an overlay for the rewrite and for each of the seven kinds. */
  lemma EveryUnjudgedKindHides(issue: Issue)
    requires issue == NotAllowed || issue in UNJUDGED
    ensures exists s, o :: Hides(issue, s, o)
  {
    match issue
    case NotAllowed => HiddenRewrite();
    case SourceNotString => HiddenUnderTextField();
    case SourceNotArray => HiddenUnderTextArray();
    case SourceNotObject => HiddenUnderTextObject();
    case InnerNotAString => HiddenInObject();
    case ElementNotText => HiddenInElement();
    case ElementBeyondLength => HiddenBeyondLength();
    case BadId => HiddenBadId();
    case _ =>
  }

  const X := Obj(map["e" := Str("x")])
  const Y := Obj(map["e" := Str("y")])

  lemma HiddenContainers()
    ensures Merge(X, Y) == Y && !OnlyWording(X, Y)
  {
    assert Merge(X, Y).fields == Y.fields;
    assert X.fields["e"] != Y.fields["e"];
  }

  lemma HiddenInArray()
    ensures Merge(Arr([Str("x")]), Arr([Str("y")])) == Arr([Str("y")])
    ensures !OnlyWording(Arr([Str("x")]), Arr([Str("y")]))
  {
    assert !IdAddressable([Str("x")]) by { assert !HasId([Str("x")][0]); }
    assert Merge(Arr([Str("x")]), Arr([Str("y")])).items == [Str("y")];
    assert !OnlyWording([Str("x")][0], [Str("y")][0]);
  }

  lemma HiddenUnderTextField()
    ensures exists s, o :: Hides(SourceNotString, s, o)
  {
    HiddenContainers();
    HiddenField(SourceNotString, "title", X, Y);
  }

  lemma HiddenUnderTextArray()
    ensures exists s, o :: Hides(SourceNotArray, s, o)
  {
    HiddenContainers();
    HiddenField(SourceNotArray, "tableHeaders", X, Y);
  }

  lemma HiddenUnderTextObject()
    ensures exists s, o :: Hides(SourceNotObject, s, o)
  {
    HiddenInArray();
    HiddenField(SourceNotObject, "slots", Arr([Str("x")]), Arr([Str("y")]));
  }

  lemma HiddenInObject()
    ensures exists s, o :: Hides(InnerNotAString, s, o)
  {
    HiddenInnerMerge();
    HiddenField(InnerNotAString, "slots", Obj(map["a" := X]), Obj(map["a" := Y]));
  }

  lemma HiddenInnerMerge()
    ensures var s, o := Obj(map["a" := X]), Obj(map["a" := Y]);
      Merge(s, o) == o && !OnlyWording(s, o) && !AllowedField("slots", s, o)
  {
    HiddenContainers();
    var s, o := Obj(map["a" := X]), Obj(map["a" := Y]);
    assert Merge(s, o).fields == o.fields;
    assert s.fields["a"] != o.fields["a"];
  }

  lemma HiddenElementMerge()
    ensures Merge(Arr([X]), Arr([Y])) == Arr([Y]) && !OnlyWording(Arr([X]), Arr([Y]))
  {
    HiddenContainers();
    assert !IdAddressable([X]) by { assert !HasId([X][0]); }
    assert Merge(Arr([X]), Arr([Y])).items == [Y];
    assert !OnlyWording([X][0], [Y][0]);
  }

  lemma HiddenInElement()
    ensures exists s, o :: Hides(ElementNotText, s, o)
  {
    HiddenElementMerge();
    HiddenField(ElementNotText, "tableHeaders", Arr([X]), Arr([Y]));
  }

  lemma OneFieldFound(issue: Issue, k: string, sv: Json, v: Json)
    requires forall f :: f in FieldFindings(map[k := sv], map[k := v], k, [], false) ==> f.issue == issue
    ensures forall f :: f in Findings(Obj(map[k := sv]), Obj(map[k := v]), [], false) ==> f.issue == issue
  {
    FindingsOfContainer(Obj(map[k := sv]), Obj(map[k := v]), [], false);
    hide Findings, FieldFindings;
  }

  lemma OneFieldMerged(k: string, sv: Json, v: Json)
    requires k != ID && !AllowedField(k, sv, Merge(sv, v)) && !OnlyWording(sv, Merge(sv, v))
    ensures !OnlyWording(Obj(map[k := sv]), Merge(Obj(map[k := sv]), Obj(map[k := v])))
  {
    var s, o := Obj(map[k := sv]), Obj(map[k := v]);
    assert Merge(s, o).fields[k] == Merge(sv, v) && s.fields[k] == sv;
    hide Merge, AllowedField;
  }

  lemma HiddenField(issue: Issue, k: string, sv: Json, v: Json)
    requires k != ID
    requires forall f :: f in FieldFindings(map[k := sv], map[k := v], k, [], false) ==> f.issue == issue
    requires !AllowedField(k, sv, Merge(sv, v)) && !OnlyWording(sv, Merge(sv, v))
    ensures exists s, o :: Hides(issue, s, o)
  {
    OneFieldFound(issue, k, sv, v);
    OneFieldMerged(k, sv, v);
    hide Findings, FieldFindings, Merge, OnlyWording, AllowedField;
    assert Hides(issue, Obj(map[k := sv]), Obj(map[k := v]));
  }

  /** Under a field the allowlist does not name, a container is looked into. */
  lemma PlainFieldFindings(k: string, sv: Json, v: Json)
    requires k != ID && k !in STRING_FIELDS && k !in STRING_VALUE_OBJECTS && k !in STRING_ARRAYS
    requires !v.Str? && !v.Num? && !v.Bool?
    ensures FieldFindings(map[k := sv], map[k := v], k, [], false) == Findings(sv, v, [Key(k)], false)
  {
    assert [] + [Key(k)] == [Key(k)];
  }

  function Entry(id: string, e: string): Json {
    Obj(map[ID := Str(id), "e" := Str(e)])
  }

  lemma BeyondLengthSlot()
    ensures Slot([Entry("a", "x")], [Null, Entry("a", "y")], 0) == Entry("a", "y")
  {
    var x, y := Entry("a", "x"), Entry("a", "y");
    assert EntryId(x) == EntryId(y) == Some("a");
    assert HasIds([Null, y]) by { assert HasId([Null, y][1]); }
    assert IndexOf([Null, y], "a") == 1;
  }

  lemma EntryMerged(id: string)
    ensures Entry("a", "x").Obj?
    ensures !OnlyWording(Entry("a", "x"), Merge(Entry("a", "x"), Entry(id, "y")))
  {
    var x, y := Entry("a", "x"), Entry(id, "y");
    assert Merge(x, y).fields["e"] == Str("y");
    assert x.fields["e"] != Merge(x, y).fields["e"];
  }

  /** An array of one object whose merger changes more than wording. */
  lemma OneItemMerged(x: Json, v: seq<Json>, y: Json)
    requires Slot([x], v, 0) == y && x.Obj? && !OnlyWording(x, Merge(x, y))
    ensures !OnlyWording(Arr([x]), Merge(Arr([x]), Arr(v)))
    ensures forall k :: k !in STRING_FIELDS && k !in STRING_VALUE_OBJECTS ==>
      !AllowedField(k, Arr([x]), Merge(Arr([x]), Arr(v)))
  {
    var t := Merge(Arr([x]), Arr(v));
    assert t.items[0] == Merge(x, y);
    OnlyWordingReflexive(x);
    hide Merge, Slot;
    assert Merge(x, y) != x;
  }

  lemma BeyondLengthMerged()
    ensures var sv, v := Arr([Entry("a", "x")]), Arr([Null, Entry("a", "y")]);
      !OnlyWording(sv, Merge(sv, v)) && !AllowedField("tableHeaders", sv, Merge(sv, v))
  {
    hide Merge, Slot, Entry, OnlyWording, AllowedField;
    BeyondLengthSlot();
    EntryMerged("a");
    OneItemMerged(Entry("a", "x"), [Null, Entry("a", "y")], Entry("a", "y"));
  }

  lemma HiddenBeyondLength()
    ensures exists s, o :: Hides(ElementBeyondLength, s, o)
  {
    BeyondLengthMerged();
    hide OnlyWording, AllowedField;
    HiddenField(ElementBeyondLength, "tableHeaders", Arr([Entry("a", "x")]), Arr([Null, Entry("a", "y")]));
  }

  lemma BadIdFound(path: Path)
    ensures forall f :: f in Findings(Arr([Entry("a", "x")]), Arr([Entry("", "y")]), path, false) ==> f.issue == BadId
  {
    var x, y := Entry("a", "x"), Entry("", "y");
    assert EntryId(x) == Some("a") && EntryId(y).None? && Get(y.fields, ID) == Str("");
    assert IdAddressable([x]) && !HasIds([y]) && !HasUnkeyed([y]);
    assert EntryFindings([x], [y], 0, path) == {Finding(path + [Index(0)] + [Key(ID)], BadId)};
  }

  lemma BadIdSlot()
    ensures Slot([Entry("a", "x")], [Entry("", "y")], 0) == Entry("", "y")
  {
    assert !HasIds([Entry("", "y")]) by { assert EntryId(Entry("", "y")).None?; }
  }

  lemma BadIdIsRendered()
    ensures var sv, v := Arr([Entry("a", "x")]), Arr([Entry("", "y")]);
      !OnlyWording(sv, Merge(sv, v)) && !AllowedField("widgets", sv, Merge(sv, v))
  {
    hide Merge, Slot, Entry, OnlyWording, AllowedField;
    BadIdSlot();
    EntryMerged("");
    OneItemMerged(Entry("a", "x"), [Entry("", "y")], Entry("", "y"));
  }

  lemma HiddenBadId()
    ensures exists s, o :: Hides(BadId, s, o)
  {
    hide Findings, FieldFindings, OnlyWording, Merge, Entry, AllowedField;
    var sv, v := Arr([Entry("a", "x")]), Arr([Entry("", "y")]);
    BadIdFound([Key("widgets")]);
    BadIdIsRendered();
    PlainFieldFindings("widgets", sv, v);
    HiddenField(BadId, "widgets", sv, v);
  }

  lemma HiddenRewrite()
    ensures exists s, o :: Hides(NotAllowed, s, o)
  {
    assert FieldFindings(map["type" := Str("x")], map["type" := Str("y")], "type", [], false)
      == {Finding([] + [Key("type")], NotAllowed)};
    assert Merge(Str("x"), Str("y")) == Str("y");
    HiddenField(NotAllowed, "type", Str("x"), Str("y"));
  }
}
