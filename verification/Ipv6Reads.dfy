/** Which texts are read as IPv6 addresses. */
module Ipv6Reads {
  import opened Options
  import opened Text
  import opened Hex
  import opened Ipv6

  // ---- Texts of groups -------------------------------------------------------------------------

  lemma {:induction false} HalvesJoin(s: string)
    ensures Join(Halves(s), "::") == s
  {
    if s == "" {
    } else if |s| > 1 && s[0] == ':' && s[1] == ':' {
      HalvesJoin(s[2..]);
      assert ([""] + Halves(s[2..]))[1..] == Halves(s[2..]);
      assert "" + "::" + s[2..] == s;
    } else {
      HalvesJoin(s[1..]);
      JoinFirst(s[0], Halves(s[1..]), "::");
      assert [s[0]] + s[1..] == s;
    }
  }

  lemma PiecesJoin(half: string)
    ensures Join(Pieces(half), ":") == half
  {
    JoinSplit(half, ':');
    assert [':'] == ":";
  }

  lemma AreGroupsParts(a: seq<string>, b: seq<string>, c: seq<string>)
    requires AreGroups(a + b + c)
    ensures AreGroups(a) && AreGroups(c)
  {
    hide IsGroup;
    var all := a + b + c;
    assert forall i :: 0 <= i < |a| ==> all[i] == a[i];
    assert forall i :: 0 <= i < |c| ==> all[|a| + |b| + i] == c[i];
  }

  lemma WholeIsSpelled(head: seq<string>)
    requires AreGroups(head) && |head| == 8
    ensures Legal(Spelling(head, None, None)) && TextOf(Spelling(head, None, None)) == Join(head, ":")
  {
    TextWithoutQuad(Spelling(head, None, None));
    hide TextOf, Join, AreGroups;
  }

  lemma HalvesAreSpelled(head: seq<string>, tail: seq<string>)
    requires AreGroups(head) && AreGroups(tail) && |head| + |tail| <= 8
    ensures Legal(Spelling(head, Some(tail), None))
    ensures TextOf(Spelling(head, Some(tail), None)) == Join(head, ":") + "::" + Join(tail, ":")
  {
    TextWithoutQuad(Spelling(head, Some(tail), None));
    hide TextOf, Join, AreGroups;
  }

  /** The groups that a text is taken for. */
  lemma TakenFor(s: string)
    requires Groups(s).Some? && AreGroups(Groups(s).value)
    ensures var h := Halves(s);
      |h| <= 2 && AreGroups(Pieces(h[0])) && (|h| == 1 ==> |Pieces(h[0])| == 8) &&
      (|h| == 2 ==> AreGroups(Pieces(h[1])) && |Pieces(h[0])| + |Pieces(h[1])| <= 8)
  {
    var h := Halves(s);
    if |h| == 2 {
      var head, tail := Pieces(h[0]), Pieces(h[1]);
      hide Halves, Pieces, AreGroups, ZeroGroups;
      AreGroupsParts(head, ZeroGroups(8 - |head| - |tail|), tail);
    } else {
      hide Halves, Pieces, AreGroups, ZeroGroups;
    }
  }

  /** What is taken for eight groups is the text of a spelling without a quad. */
  lemma GroupsAreSpelled(s: string) returns (p: Spelling)
    requires Groups(s).Some? && AreGroups(Groups(s).value)
    ensures Legal(p) && p.quad.None? && TextOf(p) == s
  {
    hide *;
    TakenFor(s);
    HalvesJoin(s);
    var halves := Halves(s);
    var head := Pieces(halves[0]);
    PiecesJoin(halves[0]);
    if |halves| == 1 {
      p := Spelling(head, None, None);
      WholeIsSpelled(head);
      assert halves == [halves[0]];
      JoinOne(halves[0]);
    } else {
      var tail := Pieces(halves[1]);
      p := Spelling(head, Some(tail), None);
      PiecesJoin(halves[1]);
      HalvesAreSpelled(head, tail);
      assert halves == [halves[0], halves[1]];
      JoinPair(halves[0], halves[1]);
    }
  }

  lemma JoinOne(a: string)
    ensures Join([a], "::") == a
  {
  }

  lemma JoinPair(a: string, b: string)
    ensures Join([a, b], "::") == a + "::" + b
  {
    assert [a, b][1..] == [b];
  }

  /** A text is read exactly when, its final quad written as two groups, it is the text of a
      spelling without a quad; and it is then read as that spelling's address. */
  lemma ReadExactly(text: string, h: seq<nat>)
    ensures Hextets(text) == Some(h) <==>
      exists p :: Legal(p) && p.quad.None? && QuadAsGroups(text) == Some(TextOf(p)) && h == Address(p)
  {
    if Hextets(text) == Some(h) {
      var s := QuadAsGroups(text).value;
      var p := GroupsAreSpelled(s);
      GroupsOfText(p);
      AllGroupsAreAddress(p);
    }
    if p :| Legal(p) && p.quad.None? && QuadAsGroups(text) == Some(TextOf(p)) && h == Address(p) {
      GroupsOfText(p);
      AllGroupsAreAddress(p);
    }
  }

  // ---- Legal spellings -------------------------------------------------------------------------

  ghost predicate IsSpelling(text: string) {
    exists p :: Legal(p) && TextOf(p) == text
  }

  /** A final quad that does not stand at the start of a group. */
  predicate Glued(text: string) {
    match QuadAt(text)
    case None => false
    case Some(i) => i == 0 || text[i - 1] != ':'
  }

  lemma SpellingIsNotGlued(p: Spelling)
    requires Legal(p)
    ensures !Glued(TextOf(p))
  {
    if p.quad.None? {
      QuadlessHasNoDot(p);
      hide *;
      NoQuadAt(TextOf(p));
      assert Glued(TextOf(p)) ==> QuadAt(TextOf(p)).Some? by { GluedIs(TextOf(p)); }
    } else {
      OctetsJoin(p.quad.value);
      hide *;
      PrefixEndsInColon(p);
      QuadIsPrefixed(p);
      QuadAfterColon(Prefix(p), Join(p.quad.value, "."));
      NotGluedAfterColon(Prefix(p), Join(p.quad.value, "."));
    }
  }

  lemma GluedIs(text: string)
    ensures Glued(text) ==> QuadAt(text).Some?
  {
  }

  lemma NotGluedAfterColon(prefix: string, q: string)
    requires QuadAt(prefix + q) == Some(|prefix|) && prefix != "" && prefix[|prefix| - 1] == ':'
    ensures !Glued(prefix + q)
  {
    hide QuadAt, IsQuad;
    var text := prefix + q;
    assert text[|prefix| - 1] == ':';
  }

  lemma QuadlessHasNoDot(p: Spelling)
    requires Legal(p) && p.quad.None?
    ensures '.' !in TextOf(p)
  {
    TextWithoutQuad(p);
    GroupsJoin(p.before);
    if p.after.Some? { GroupsJoin(p.after.value); }
    hide Join, IsGroup, TextOf;
  }

  lemma LastColon(a: string, x: string, b: string, y: string)
    requires a + ":" + x == b + ":" + y && ':' !in x && ':' !in y
    ensures a == b && x == y
  {
    var s := a + ":" + x;
    assert s[|a|] == ':' && s[|b|] == ':';
    assert forall i :: |a| < i < |s| ==> s[i] == x[i - |a| - 1];
    assert forall i :: |b| < i < |s| ==> s[i] == y[i - |b| - 1];
    assert |a| == |b|;
    assert a == s[..|a|] && b == s[..|b|] && x == s[|a| + 1..] && y == s[|b| + 1..];
  }

  lemma EndsInColon(a: string, x: string, b: string, y: string)
    requires a + x == b + y && ':' !in x && ':' !in y
    requires (a == "" || a[|a| - 1] == ':') && b != "" && b[|b| - 1] == ':'
    ensures a == b && x == y
  {
    var s := a + x;
    assert s[|b| - 1] == ':';
    assert forall i :: |a| <= i < |s| ==> s[i] == x[i - |a|];
    assert a != "" && a == a[..|a| - 1] + ":" && b == b[..|b| - 1] + ":";
    LastColon(a[..|a| - 1], x, b[..|b| - 1], y);
  }

  lemma GroupHasNoColon(groups: seq<string>, i: nat)
    requires AreGroups(groups) && i < |groups|
    ensures ':' !in groups[i] && groups[i] != ""
  {
    assert IsGroup(groups[i]);
  }

  ghost predicate EndsInTwo(s: string, prefix: string, h1: string, h2: string) {
    && s == prefix + h1 + ":" + h2
    && prefix != "" && prefix[|prefix| - 1] == ':'
    && h1 != "" && h2 != "" && ':' !in h1 && ':' !in h2
  }

  /** Where a text of groups ends in two groups after a colon, those are its last two. */
  lemma LastTwo(base: string, groups: seq<string>, prefix: string, h1: string, h2: string)
    requires AreGroups(groups) && (if base == "" then |groups| > 1 else |base| > 1 && base[|base| - 2..] == "::")
    requires EndsInTwo(base + Join(groups, ":"), prefix, h1, h2)
    ensures |groups| > 1
    ensures var front := groups[..|groups| - 2];
      groups == front + [h1, h2] && base + Lead(front) == prefix
  {
    hide EndsInTwo, AreGroups, Lead;
    var n := |groups|;
    if n == 0 {
      NoGroups(base, prefix, h1, h2);
    } else if n == 1 {
      GroupHasNoColon(groups, 0);
      OneGroup(base, groups[0], prefix, h1, h2);
    } else {
      MoreGroups(base, groups, prefix, h1, h2);
    }
  }

  lemma MoreGroups(base: string, groups: seq<string>, prefix: string, h1: string, h2: string)
    requires AreGroups(groups) && |groups| > 1 && (base == "" || base[|base| - 1] == ':')
    requires EndsInTwo(base + Join(groups, ":"), prefix, h1, h2)
    ensures var front := groups[..|groups| - 2];
      groups == front + [h1, h2] && base + Lead(front) == prefix
  {
    hide *;
    var n := |groups|;
    var front, x, y := groups[..n - 2], groups[n - 2], groups[n - 1];
    assert groups == front + [x, y];
    JoinAppendTwo(front, x, y);
    GroupHasNoColon(groups, n - 2);
    GroupHasNoColon(groups, n - 1);
    LastTwoOf(base, front, x, y, prefix, h1, h2);
  }

  lemma NoGroups(base: string, prefix: string, h1: string, h2: string)
    requires |base| > 1 && base[|base| - 2..] == "::"
    ensures !EndsInTwo(base + "", prefix, h1, h2)
  {
    assert base + "" == base && base[|base| - 1] == ':';
    if h2 != "" && base == prefix + h1 + ":" + h2 {
      assert base[|base| - 1] == h2[|h2| - 1];
      assert ':' in h2;
    }
  }

  lemma OneGroup(base: string, x: string, prefix: string, h1: string, h2: string)
    requires |base| > 1 && base[|base| - 2..] == "::" && ':' !in x
    ensures !EndsInTwo(base + x, prefix, h1, h2)
  {
    assert base == base[..|base| - 1] + ":" && base[..|base| - 1][|base| - 2] == ':';
    if EndsInTwo(base + x, prefix, h1, h2) {
      assert (prefix + h1)[|prefix + h1| - 1] == h1[|h1| - 1];
      LastColon(base[..|base| - 1], x, prefix + h1, h2);
      assert false;
    }
  }

  lemma LastTwoOf(
      base: string, front: seq<string>, x: string, y: string, prefix: string, h1: string, h2: string)
    requires (base == "" || base[|base| - 1] == ':') && ':' !in x && ':' !in y
    requires EndsInTwo(base + (Lead(front) + x + ":" + y), prefix, h1, h2)
    ensures x == h1 && y == h2 && base + Lead(front) == prefix
  {
    var lead := Lead(front);
    assert lead == "" || lead[|lead| - 1] == ':';
    hide Lead;
    assert base + (lead + x + ":" + y) == (base + lead + x) + ":" + y;
    LastColon(base + lead + x, y, prefix + h1, h2);
    EndsInColon(base + lead, x, prefix, h1);
  }

  function Base(g: Spelling): string {
    if g.after.Some? then Join(g.before, ":") + "::" else ""
  }

  function LastGroups(g: Spelling): seq<string> {
    if g.after.Some? then g.after.value else g.before
  }

  lemma TextFromBase(g: Spelling)
    requires Legal(g) && g.quad.None?
    ensures TextOf(g) == Base(g) + Join(LastGroups(g), ":") && AreGroups(LastGroups(g))
    ensures if Base(g) == "" then |LastGroups(g)| > 1 else |Base(g)| > 1 && Base(g)[|Base(g)| - 2..] == "::"
  {
    TextWithoutQuad(g);
    hide Join, AreGroups, TextOf;
    if g.after.Some? {
      assert Base(g)[|Base(g)| - 2..] == "::";
    } else {
      assert "" + Join(g.before, ":") == Join(g.before, ":");
    }
  }

  /** The spelling with a quad for its last two groups. */
  function Requad(g: Spelling, front: seq<string>, quad: seq<string>): Spelling {
    if g.after.Some? then Spelling(g.before, Some(front), Some(quad)) else Spelling(front, None, Some(quad))
  }

  lemma RequadIsLegal(g: Spelling, front: seq<string>, h1: string, h2: string, quad: seq<string>)
    requires Legal(g) && g.quad.None? && IsOctets(quad) && LastGroups(g) == front + [h1, h2]
    ensures Legal(Requad(g, front, quad)) && Prefix(Requad(g, front, quad)) == Base(g) + Lead(front)
  {
    hide IsGroup, IsOctets, Join, Lead;
    assert AreGroups(front) by {
      assert forall i :: 0 <= i < |front| ==> (front + [h1, h2])[i] == front[i];
    }
    assert "" + Lead(front) == Lead(front);
  }

  /** The last two groups of a spelling replaced by the quad they stand for. */
  lemma WithQuad(g: Spelling, prefix: string, t: string)
    requires Legal(g) && g.quad.None? && IsQuad(t) && TwoGroups(QuadValues(t)).Some?
    requires prefix != "" && prefix[|prefix| - 1] == ':'
    requires TextOf(g) == prefix + TwoGroups(QuadValues(t)).value
    ensures IsSpelling(prefix + t)
  {
    var quad := Split(t, '.');
    QuadIsOctets(t);
    QuadTextsHaveNoColon(quad);
    JoinSplit(t, '.');
    assert Join(quad, ".") == t by { assert ['.'] == "."; }
    TextFromBase(g);
    var h1, h2, groups := QuadTexts(quad)[0], QuadTexts(quad)[1], LastGroups(g);
    assert prefix + (h1 + ":" + h2) == prefix + h1 + ":" + h2;
    assert EndsInTwo(TextOf(g), prefix, h1, h2);
    hide *;
    LastTwo(Base(g), groups, prefix, h1, h2);
    var front := groups[..|groups| - 2];
    RequadIsLegal(g, front, h1, h2, quad);
    QuadEnds(g, front, quad, prefix);
  }

  lemma QuadEnds(g: Spelling, front: seq<string>, quad: seq<string>, prefix: string)
    requires Legal(Requad(g, front, quad)) && Prefix(Requad(g, front, quad)) == prefix
    ensures IsSpelling(prefix + Join(quad, "."))
  {
    QuadIsPrefixed(Requad(g, front, quad));
    hide Legal, TextOf, Prefix, Join;
  }

  lemma QuadIsOctets(t: string)
    requires IsQuad(t) && TwoGroups(QuadValues(t)).Some?
    ensures var quad := Split(t, '.');
      IsOctets(quad) && TwoGroups(QuadValues(t)) == Some(QuadTexts(quad)[0] + ":" + QuadTexts(quad)[1])
  {
    hide Split, Decimal, HexText;
    var quad, q := Split(t, '.'), QuadValues(t);
    assert q[0] == Decimal(quad[0]) && q[1] == Decimal(quad[1]) && q[2] == Decimal(quad[2]) && q[3] == Decimal(quad[3]);
  }

  lemma QuadTextsHaveNoColon(quad: seq<string>)
    requires IsOctets(quad)
    ensures forall i :: 0 <= i < 2 ==> ':' !in QuadTexts(quad)[i] && QuadTexts(quad)[i] != ""
  {
    QuadTextsAreGroups(quad);
    hide HexText;
    GroupHasNoColon(QuadTexts(quad), 0);
    GroupHasNoColon(QuadTexts(quad), 1);
  }

  lemma ReadIsSpelling(text: string)
    requires Hextets(text).Some? && !Glued(text)
    ensures IsSpelling(text)
  {
    hide *;
    HextetsAreGroups(text);
    var g := GroupsAreSpelled(QuadAsGroups(text).value);
    if QuadAt(text).Some? {
      var i := QuadAt(text).value;
      QuadAsGroupsIs(text, i);
      assert text[..i] + text[i..] == text;
      WithQuad(g, text[..i], text[i..]);
    } else {
      TextStays(text);
      SpelledBy(g);
    }
  }

  lemma HextetsAreGroups(text: string)
    requires Hextets(text).Some?
    ensures QuadAsGroups(text).Some? && Groups(QuadAsGroups(text).value).Some?
    ensures AreGroups(Groups(QuadAsGroups(text).value).value)
  {
    hide QuadAsGroups, Groups, AreGroups;
  }

  lemma TextStays(text: string)
    requires QuadAt(text).None?
    ensures QuadAsGroups(text) == Some(text)
  {
  }

  lemma SpelledBy(g: Spelling)
    requires Legal(g)
    ensures IsSpelling(TextOf(g))
  {
    hide Legal, TextOf;
  }

  lemma QuadAsGroupsIs(text: string, i: nat)
    requires QuadAt(text) == Some(i) && QuadAsGroups(text).Some? && !Glued(text)
    ensures 0 < i <= |text| && text[i - 1] == ':' && IsQuad(text[i..]) && TwoGroups(QuadValues(text[i..])).Some?
    ensures QuadAsGroups(text).value == text[..i] + TwoGroups(QuadValues(text[i..])).value
  {
    hide IsQuad, QuadValues, TwoGroups;
  }

  /** The legal spellings are exactly the texts that are read and whose final quad, if they have
      one, is not glued to what stands before it. */
  lemma SpellingsExactly(text: string)
    ensures IsSpelling(text) <==> Hextets(text).Some? && !Glued(text)
  {
    if p :| Legal(p) && TextOf(p) == text {
      SpellingsAreRead(p);
      SpellingIsNotGlued(p);
    }
    if Hextets(text).Some? && !Glued(text) {
      ReadIsSpelling(text);
    }
  }

  // ---- A double colon for no group -------------------------------------------------------------

  /** A spelling in the sense of section 2.2 of RFC 4291: its double colon stands for at least one
      group. */
  predicate Strict(p: Spelling) {
    Legal(p) && (p.after.Some? ==> Count(p) < 8)
  }

  ghost predicate IsStrictSpelling(text: string) {
    exists p :: Strict(p) && TextOf(p) == text
  }

  /** With its final quad written as groups, a text with a double colon and eight pieces around it. */
  predicate Idle(text: string) {
    match QuadAsGroups(text)
    case None => false
    case Some(s) =>
      var halves := Halves(s);
      |halves| == 2 && |Pieces(halves[0])| + |Pieces(halves[1])| == 8
  }

  lemma IdleWithoutQuad(p: Spelling)
    requires Legal(p) && p.quad.None?
    ensures Idle(TextOf(p)) <==> p.after.Some? && Count(p) == 8
  {
    QuadsBecomeGroups(p);
    TextWithoutQuad(p);
    GroupsJoin(p.before);
    hide Join, Halves, IsGroup, Pieces, NoDouble, TextOf, QuadAsGroups, IsOctets;
    if p.after.Some? {
      GroupsJoin(p.after.value);
      HalvesAround(Join(p.before, ":"), Join(p.after.value, ":"));
    } else {
      NoDoubleIsWhole(Join(p.before, ":"));
    }
  }

  lemma IdleByGroups(text: string, s: string)
    requires QuadAsGroups(text) == Some(s) && QuadAsGroups(s) == Some(s)
    ensures Idle(text) == Idle(s)
  {
  }

  lemma IdleExactly(p: Spelling)
    requires Legal(p)
    ensures Idle(TextOf(p)) <==> p.after.Some? && Count(p) == 8
  {
    if p.quad.None? {
      IdleWithoutQuad(p);
    } else {
      var g := WithoutQuad(p);
      assert g.quad.None? && g.after.Some? == p.after.Some? && Count(g) == Count(p);
      hide *;
      SameAddressWithoutQuad(p);
      QuadsBecomeGroups(p);
      QuadsBecomeGroups(g);
      IdleByGroups(TextOf(p), TextOf(g));
      IdleWithoutQuad(g);
    }
  }

  lemma StrictIs(p: Spelling)
    requires Legal(p)
    ensures Strict(p) <==> !(p.after.Some? && Count(p) == 8)
  {
    hide IsOctets, AreGroups;
  }

  /** The strict spellings are exactly the texts that are read, whose final quad is not glued and
      whose double colon is not idle. */
  lemma StrictSpellingsExactly(text: string)
    ensures IsStrictSpelling(text) <==> Hextets(text).Some? && !Glued(text) && !Idle(text)
  {
    SpellingsExactly(text);
    hide Hextets, Glued, Idle, Count, TextOf;
    if p :| Strict(p) && TextOf(p) == text {
      IdleExactly(p);
    }
    if p :| Legal(p) && TextOf(p) == text {
      hide Legal, Strict;
      IdleExactly(p);
      StrictIs(p);
    }
  }

  /** Eight groups and a double colon between any of them are read, though the double colon stands
      for nothing. */
  lemma IdleColonIsRead(before: seq<string>, after: seq<string>)
    requires AreGroups(before) && AreGroups(after) && |before| + |after| == 8
    ensures var text := Join(before, ":") + "::" + Join(after, ":");
      Hextets(text) == Some(Values(before + after)) && !Glued(text) && !IsStrictSpelling(text)
  {
    var p := Spelling(before, Some(after), None);
    HalvesAreSpelled(before, after);
    AreGroupsJoined(before, after);
    AddressOfFull(before, after);
    assert p.after.Some? && Count(p) == 8;
    hide *;
    SpellingsAreRead(p);
    SpellingIsNotGlued(p);
    IdleExactly(p);
    StrictSpellingsExactly(TextOf(p));
  }

  lemma AddressOfFull(before: seq<string>, after: seq<string>)
    requires AreGroups(before) && AreGroups(after) && |before| + |after| == 8
    ensures Address(Spelling(before, Some(after), None)) == Values(before) + Values(after)
  {
    hide IsGroup, Values;
    assert Values(before) + seq(0, i => 0) + (Values(after) + []) == Values(before) + Values(after);
  }

  // ---- A glued quad ----------------------------------------------------------------------------

  lemma GluedQuadAt(c: char, q: string)
    requires 'a' <= c <= 'f' && IsQuad(q)
    ensures QuadAt("::" + [c] + q) == Some(3)
  {
    var s := "::" + [c] + q;
    NoQuadWithColon("::" + [c], q);
    assert s[1..] == (":" + [c]) + q && s[1..][1..] == [c] + q && s[1..][1..][1..] == q;
    NoQuadWithColon(":" + [c], q);
    SplitPrefix([c], q, '.');
    assert !IsQuad([c] + q) by {
      assert Split([c] + q, '.')[0][0] == c;
    }
    hide IsQuad, Split;
    assert QuadAt(q) == Some(0);
    assert QuadAt([c] + q) == Some(1);
    assert QuadAt(s[1..]) == Some(2);
  }

  /** A quad glued to a hexadecimal digit is read, though no legal spelling is that text. */
  lemma GluedQuadIsRead(c: char, quad: seq<string>)
    requires 'a' <= c <= 'f' && IsOctets(quad) && Decimal(quad[0]) < 16
    ensures var text := "::" + [c] + Join(quad, ".");
      Hextets(text).Some? && Glued(text) && !IsSpelling(text)
  {
    var q := Join(quad, ".");
    var text := "::" + [c] + q;
    var h1, h2 := QuadTexts(quad)[0], QuadTexts(quad)[1];
    OctetsJoin(quad);
    GluedQuadAt(c, q);
    assert Glued(text);
    QuadOfJoin(quad);
    QuadReplaced("::" + [c], q, h1 + ":" + h2);
    GluedGroups(c, quad);
    var p := Spelling([], Some([[c] + h1, h2]), None);
    assert Legal(p);
    GluedText(c, h1, h2);
    hide *;
    ReadExactly(text, Address(p));
    SpellingsExactly(text);
  }

  lemma GluedText(c: char, h1: string, h2: string)
    ensures TextOf(Spelling([], Some([[c] + h1, h2]), None)) == "::" + [c] + (h1 + ":" + h2)
  {
    TextWithoutQuad(Spelling([], Some([[c] + h1, h2]), None));
    JoinTwo([c] + h1, h2);
    JoinNone();
    hide *;
    assert "" + "::" == "::";
    assert [c] + h1 + ":" + h2 == [c] + (h1 + ":" + h2) by { Together([c], h1 + ":", h2); Together([c], h1, ":"); }
    Together("::", [c], h1 + ":" + h2);
  }

  lemma JoinNone()
    ensures Join([], ":") == ""
  {
  }

  lemma JoinTwo(x: string, y: string)
    ensures Join([x, y], ":") == x + ":" + y
  {
    assert [x, y][1..] == [y];
  }

  lemma GluedGroups(c: char, quad: seq<string>)
    requires 'a' <= c <= 'f' && IsOctets(quad) && Decimal(quad[0]) < 16
    ensures AreGroups([[c] + QuadTexts(quad)[0], QuadTexts(quad)[1]])
  {
    FirstTextIsShort(quad);
    QuadTextsAreGroups(quad);
    hide *;
    GroupGlued(c, QuadTexts(quad)[0]);
    TwoAreGroups([c] + QuadTexts(quad)[0], QuadTexts(quad)[1]);
  }

  lemma FirstTextIsShort(quad: seq<string>)
    requires IsOctets(quad) && Decimal(quad[0]) < 16
    ensures |QuadTexts(quad)[0]| <= 3 && AreGroups(QuadTexts(quad)) && IsGroup(QuadTexts(quad)[0])
    ensures |QuadTexts(quad)| == 2 && IsGroup(QuadTexts(quad)[1])
  {
    assert Decimal(quad[1]) <= 255;
    QuadTextsAreGroups(quad);
    hide Decimal, HexText, IsOctets, IsGroup;
    assert QuadGroups(quad)[0] < 4096;
  }

  lemma GroupGlued(c: char, x: string)
    requires 'a' <= c <= 'f' && IsGroup(x) && |x| <= 3
    ensures IsGroup([c] + x)
  {
    assert IsHex([c]);
    hide IsHex;
    HexJoined([c], x);
  }
}
