/** Alarm pins: a layer and, optionally, service groups in it. */
module AlarmPin {
  import opened Options
  import opened Text

  /** No `groups` is the whole layer; the group "" is the services that have none. */
  datatype Pin = Pin(layer: string, groups: Option<seq<string>>)

  const UNGROUPED := "-"

  predicate IsWord(c: char) {
    'A' <= c <= 'Z' || 'a' <= c <= 'z' || '0' <= c <= '9' || c == '_'
  }

  /** How many word characters a text begins with. */
  function WordLength(s: string): (n: nat)
    ensures n <= |s| && (forall i :: 0 <= i < n ==> IsWord(s[i])) && (n < |s| ==> !IsWord(s[n]))
  {
    if s == "" || !IsWord(s[0]) then 0 else 1 + WordLength(s[1..])
  }

  function TrimAll(parts: seq<string>): (r: seq<string>)
    ensures |r| == |parts| && forall i :: 0 <= i < |r| ==> r[i] == Trim(parts[i])
  {
    seq(|parts|, i requires 0 <= i < |parts| => Trim(parts[i]))
  }

  /** A group as a pin spells it, and back. */
  function Written(group: string): string {
    if group == "" then UNGROUPED else group
  }

  function Read(text: string): string {
    if text == UNGROUPED then "" else text
  }

  function WrittenAll(groups: seq<string>): (r: seq<string>)
    ensures |r| == |groups| && forall i :: 0 <= i < |r| ==> r[i] == Written(groups[i])
  {
    seq(|groups|, i requires 0 <= i < |groups| => Written(groups[i]))
  }

  function ReadAll(texts: seq<string>): (r: seq<string>)
    ensures |r| == |texts| && forall i :: 0 <= i < |r| ==> r[i] == Read(texts[i])
  {
    seq(|texts|, i requires 0 <= i < |texts| => Read(texts[i]))
  }

  function ParseGroups(list: string): Option<seq<string>> {
    var texts := TrimAll(Split(list, ','));
    if "" in texts then None else Some(ReadAll(texts))
  }

  function ParseTrimmed(t: string): Option<Pin> {
    var n := WordLength(t);
    if n == 0 then None
    else if n == |t| then Some(Pin(Upper(t), None))
    else if t[n] != '[' || n + 1 == |t| || t[|t| - 1] != ']' || ']' in t[n + 1..|t| - 1] then None
    else
      match ParseGroups(t[n + 1..|t| - 1])
      case None => None
      case Some(groups) => Some(Pin(Upper(t[..n]), Some(groups)))
  }

  function Parse(text: string): Option<Pin> {
    ParseTrimmed(Trim(text))
  }

  function Format(pin: Pin): string {
    match pin.groups
    case None => pin.layer
    case Some(groups) => pin.layer + "[" + Join(WrittenAll(groups), ", ") + "]"
  }

  // ---- What parses ----------------------------------------------------------------------------

  /** A group that a pin can spell and get back. */
  predicate Spellable(group: string) {
    group != UNGROUPED && IsTrimmed(group) && ',' !in group && ']' !in group
  }

  predicate LayerWord(layer: string) {
    layer != "" && forall i :: 0 <= i < |layer| ==> IsWord(layer[i]) && UpperChar(layer[i]) == layer[i]
  }

  predicate WellFormed(pin: Pin) {
    && LayerWord(pin.layer)
    && (pin.groups.Some? ==>
          pin.groups.value != [] && forall i :: 0 <= i < |pin.groups.value| ==> Spellable(pin.groups.value[i]))
  }

  lemma TrimIsPart(s: string)
    ensures forall c :: c in Trim(s) ==> c in s
  {
    var t := TrimStart(s);
    assert forall c :: c in t ==> c in s;
  }

  lemma {:induction false} SplitIsPart(s: string, sep: char, i: nat)
    requires i < |Split(s, sep)|
    ensures forall c :: c in Split(s, sep)[i] ==> c in s
  {
    if s != "" {
      var rest := Split(s[1..], sep);
      if s[0] == sep {
        if i > 0 { SplitIsPart(s[1..], sep, i - 1); }
      } else {
        SplitIsPart(s[1..], sep, i);
      }
      assert forall c :: c in s <==> c == s[0] || c in s[1..];
    }
  }

  lemma ParsedGroup(list: string, part: string)
    requires ']' !in list && ',' !in part && Trim(part) != "" && forall c :: c in part ==> c in list
    ensures Spellable(Read(Trim(part)))
  {
    TrimTrims(part);
    TrimIsPart(part);
    hide Trim;
  }

  lemma ParsedGroups(list: string)
    requires ']' !in list && ParseGroups(list).Some?
    ensures var groups := ParseGroups(list).value;
      groups != [] && forall i :: 0 <= i < |groups| ==> Spellable(groups[i])
  {
    hide Trim, Split, Read, Spellable;
    var parts := Split(list, ',');
    forall i | 0 <= i < |parts| ensures Spellable(Read(Trim(parts[i]))) {
      SplitIsPart(list, ',', i);
      assert TrimAll(parts)[i] == Trim(parts[i]);
      ParsedGroup(list, parts[i]);
    }
  }

  lemma UpperWord(word: string)
    requires forall i :: 0 <= i < |word| ==> IsWord(word[i])
    ensures word != "" ==> LayerWord(Upper(word))
  {
  }

  /** What parses is a pin whose layer is upper-case word characters and whose groups, if it has
      any, can be spelt. */
  lemma ParsedIsWellFormed(text: string)
    requires Parse(text).Some?
    ensures WellFormed(Parse(text).value)
  {
    var t := Trim(text);
    hide Trim;
    var n := WordLength(t);
    UpperWord(t[..n]);
    if n < |t| {
      ParsedGroups(t[n + 1..|t| - 1]);
    } else {
      assert t[..n] == t;
    }
    hide WordLength, ParseGroups, Spellable, LayerWord;
  }

  // ---- Which texts parse ----------------------------------------------------------------------

  predicate Word(w: string) {
    w != "" && forall i :: 0 <= i < |w| ==> IsWord(w[i])
  }

  /** A text between two separators, with white space around it or not. */
  predicate Piece(text: string) {
    ',' !in text && ']' !in text && Trim(text) != ""
  }

  /** A word, and then nothing or pieces in brackets. */
  ghost predicate Spells(t: string, w: string, pieces: Option<seq<string>>) {
    && Word(w)
    && match pieces
       case None => t == w
       case Some(p) =>
         p != [] && (forall i :: 0 <= i < |p| ==> Piece(p[i])) && t == w + "[" + Join(p, ",") + "]"
  }

  /** The pin such a text names: the word in upper case, and each piece trimmed, a dash as none. */
  function PinOf(w: string, pieces: Option<seq<string>>): Pin {
    Pin(Upper(w), match pieces
      case None => None
      case Some(p) => Some(seq(|p|, i requires 0 <= i < |p| => if Trim(p[i]) == "-" then "" else Trim(p[i]))))
  }

  lemma SpelledParses(t: string, w: string, pieces: Option<seq<string>>)
    requires Spells(t, w, pieces)
    ensures ParseTrimmed(t) == Some(PinOf(w, pieces))
  {
    hide Trim;
    match pieces
    case None =>
      assert w + "" == w;
      WordPrefix(w, "");
    case Some(p) =>
      var list := Join(p, ",");
      PiecesParse(p);
      BracketsAround(t, w, list);
      hide Join, ParseGroups, WordLength, Piece, Word;
  }

  lemma BracketsAround(t: string, w: string, list: string)
    requires Word(w) && t == w + "[" + list + "]"
    ensures WordLength(t) == |w| < |t| && t[|w|] == '[' && |w| + 1 < |t| && t[|t| - 1] == ']'
    ensures t[|w| + 1..|t| - 1] == list && t[..|w|] == w
  {
    hide *;
    CutBrackets(w, list);
    BracketEndsWord(w, list);
  }

  lemma BracketEndsWord(w: string, list: string)
    requires Word(w)
    ensures WordLength(w + "[" + list + "]") == |w|
  {
    WordPrefix(w, "[" + list + "]");
    hide *;
    assert w + "[" + list + "]" == w + ("[" + list + "]");
  }

  lemma CutBrackets(w: string, list: string)
    ensures var t := w + "[" + list + "]";
      && |t| == |w| + |list| + 2 && t[|w|] == '[' && t[|t| - 1] == ']'
      && t[|w| + 1..|t| - 1] == list && t[..|w|] == w
  {
  }

  lemma PiecesParse(p: seq<string>)
    requires p != [] && forall i :: 0 <= i < |p| ==> Piece(p[i])
    ensures ']' !in Join(p, ",")
    ensures ParseGroups(Join(p, ",")) == PinOf("", Some(p)).groups
  {
    hide Trim;
    assert [','] == ",";
    SplitJoin(p, ',');
    JoinIsPart(p, ",", ']');
    hide Split, Join;
    var texts := TrimAll(p);
    assert "" !in texts;
    assert ReadAll(texts) == PinOf("", Some(p)).groups.value;
  }

  lemma ParsedIsSpelled(t: string) returns (w: string, pieces: Option<seq<string>>)
    requires ParseTrimmed(t).Some?
    ensures Spells(t, w, pieces)
  {
    hide Trim, ParseGroups;
    var n := WordLength(t);
    w := t[..n];
    if n == |t| {
      pieces := None;
      assert t == w;
    } else {
      var list := t[n + 1..|t| - 1];
      assert t == w + "[" + list + "]";
      hide WordLength;
      pieces := Some(Split(list, ','));
      ListIsSpelled(t, w, list);
    }
  }

  lemma ListIsSpelled(t: string, w: string, list: string)
    requires Word(w) && t == w + "[" + list + "]" && ']' !in list && ParseGroups(list).Some?
    ensures Spells(t, w, Some(Split(list, ',')))
  {
    ListIsPieces(list);
    JoinSplit(list, ',');
    hide Split, Join, ParseGroups, Piece, Word;
    assert [','] == ",";
  }

  lemma ListIsPieces(list: string)
    requires ']' !in list && ParseGroups(list).Some?
    ensures forall i :: 0 <= i < |Split(list, ',')| ==> Piece(Split(list, ',')[i])
  {
    hide Trim;
    var p := Split(list, ',');
    forall i | 0 <= i < |p| ensures Piece(p[i]) {
      SplitIsPart(list, ',', i);
      assert TrimAll(p)[i] == Trim(p[i]);
    }
  }

  /** A text names a pin exactly when, the white space around it aside, it is a word and then
      nothing or pieces in brackets, none of them blank; and it names the pin of these. */
  lemma ParsesExactly(text: string, pin: Pin)
    ensures Parse(text) == Some(pin) <==> exists w, pieces :: Spells(Trim(text), w, pieces) && pin == PinOf(w, pieces)
  {
    var t := Trim(text);
    hide Trim, PinOf, Spells;
    if Parse(text) == Some(pin) {
      var w, pieces := ParsedIsSpelled(t);
      SpelledParses(t, w, pieces);
    }
    if w, pieces :| Spells(t, w, pieces) && pin == PinOf(w, pieces) {
      SpelledParses(t, w, pieces);
    }
  }

  // ---- Printing and parsing again -------------------------------------------------------------

  function Spaced(parts: seq<string>): (r: seq<string>)
    ensures |r| == |parts| && forall i :: 0 <= i < |r| ==> r[i] == " " + parts[i]
  {
    seq(|parts|, i requires 0 <= i < |parts| => " " + parts[i])
  }

  lemma {:induction false} JoinSpaced(parts: seq<string>)
    requires parts != []
    ensures Join(parts, ", ") == Join([parts[0]] + Spaced(parts[1..]), ",")
  {
    if |parts| > 1 {
      var rest := parts[1..];
      JoinSpaced(rest);
      SpaceFirst(rest);
      var all := [parts[0]] + Spaced(rest);
      assert all[1..] == Spaced(rest);
      assert parts[0] + ", " + Join(rest, ", ") == parts[0] + "," + (" " + Join(rest, ", "));
    }
  }

  lemma SpaceFirst(parts: seq<string>)
    requires parts != []
    ensures Join(Spaced(parts), ",") == " " + Join([parts[0]] + Spaced(parts[1..]), ",")
  {
    var a, b := Spaced(parts), [parts[0]] + Spaced(parts[1..]);
    assert a[1..] == Spaced(parts[1..]) == b[1..];
    if |parts| > 1 {
      assert a[0] + "," + Join(a[1..], ",") == " " + (parts[0] + "," + Join(b[1..], ","));
    }
  }

  /** A text no separator, bracket or outer white space is part of. */
  predicate Plain(text: string) {
    IsTrimmed(text) && text != "" && ',' !in text && ']' !in text
  }

  lemma WrittenIsPlain(group: string)
    requires Spellable(group)
    ensures Plain(Written(group)) && Read(Written(group)) == group
  {
  }

  lemma PlainTrims(text: string)
    requires Plain(text)
    ensures Trim(text) == text && Trim(" " + text) == text && ',' !in " " + text
  {
    TrimTrims(text);
    TrimExactly(" ", text, "");
    assert " " + text + "" == " " + text;
    hide Trim;
  }

  lemma SpacedTrims(texts: seq<string>)
    requires texts != [] && forall i :: 0 <= i < |texts| ==> Plain(texts[i])
    ensures TrimAll([texts[0]] + Spaced(texts[1..])) == texts
    ensures forall i :: 0 <= i < |texts| ==> ',' !in ([texts[0]] + Spaced(texts[1..]))[i]
  {
    hide Trim, Plain;
    var pieces := [texts[0]] + Spaced(texts[1..]);
    forall i | 0 <= i < |texts| ensures Trim(pieces[i]) == texts[i] && ',' !in pieces[i] {
      PlainTrims(texts[i]);
    }
  }

  lemma TextsRoundTrip(texts: seq<string>)
    requires texts != [] && forall i :: 0 <= i < |texts| ==> Plain(texts[i])
    ensures TrimAll(Split(Join(texts, ", "), ',')) == texts
    ensures ']' !in Join(texts, ", ")
  {
    assert forall i :: 0 <= i < |texts| ==> ']' !in texts[i];
    JoinIsPart(texts, ", ", ']');
    SpacedTrims(texts);
    JoinSpaced(texts);
    SplitJoin([texts[0]] + Spaced(texts[1..]), ',');
    hide *;
    assert [','] == ",";
  }

  lemma WrittenAllArePlain(groups: seq<string>)
    requires forall i :: 0 <= i < |groups| ==> Spellable(groups[i])
    ensures forall i :: 0 <= i < |groups| ==> Plain(WrittenAll(groups)[i])
    ensures ReadAll(WrittenAll(groups)) == groups && "" !in WrittenAll(groups)
  {
    var texts := WrittenAll(groups);
    forall i | 0 <= i < |texts| ensures Plain(texts[i]) && Read(texts[i]) == groups[i] && texts[i] != "" {
      WrittenIsPlain(groups[i]);
    }
    hide Plain, Spellable, Read, Written;
  }

  lemma ParsesTexts(list: string, texts: seq<string>)
    requires TrimAll(Split(list, ',')) == texts && "" !in texts
    ensures ParseGroups(list) == Some(ReadAll(texts))
  {
    hide Split, Trim, Read;
  }

  lemma GroupsRoundTrip(groups: seq<string>)
    requires groups != [] && forall i :: 0 <= i < |groups| ==> Spellable(groups[i])
    ensures ParseGroups(Join(WrittenAll(groups), ", ")) == Some(groups)
    ensures ']' !in Join(WrittenAll(groups), ", ")
  {
    hide *;
    WrittenAllArePlain(groups);
    TextsRoundTrip(WrittenAll(groups));
    ParsesTexts(Join(WrittenAll(groups), ", "), WrittenAll(groups));
  }

  lemma {:induction false} WordPrefix(word: string, rest: string)
    requires forall i :: 0 <= i < |word| ==> IsWord(word[i])
    requires rest == "" || !IsWord(rest[0])
    ensures WordLength(word + rest) == |word|
  {
    if word == "" {
      assert word + rest == rest;
    } else {
      assert (word + rest)[1..] == word[1..] + rest;
      WordPrefix(word[1..], rest);
    }
  }

  lemma WordIsNotSpace(c: char)
    ensures IsWord(c) ==> !IsSpace(c)
  {
  }

  lemma FormatIsTrimmed(pin: Pin)
    requires WellFormed(pin)
    ensures Trim(Format(pin)) == Format(pin)
  {
    var t, n := Format(pin), |pin.layer|;
    WordIsNotSpace(pin.layer[0]);
    WordIsNotSpace(pin.layer[n - 1]);
    assert t[0] == pin.layer[0] && t[|t| - 1] == if pin.groups.Some? then ']' else pin.layer[n - 1];
    hide Join, Trim, IsSpace;
    assert !IsSpace(']');
    TrimTrims(t);
  }

  lemma ParsesLayer(layer: string)
    requires LayerWord(layer)
    ensures ParseTrimmed(layer) == Some(Pin(layer, None))
  {
    assert layer + "" == layer && Upper(layer) == layer;
    WordPrefix(layer, "");
  }

  lemma ParsesGrouped(layer: string, list: string)
    requires LayerWord(layer) && ']' !in list && ParseGroups(list).Some?
    ensures ParseTrimmed(layer + "[" + list + "]") == Some(Pin(layer, Some(ParseGroups(list).value)))
  {
    var t, n := layer + "[" + list + "]", |layer|;
    assert Upper(layer) == layer;
    WordPrefix(layer, "[" + list + "]");
    assert t == layer + ("[" + list + "]");
    hide ParseGroups, WordLength, LayerWord;
    assert t[n] == '[' && t[|t| - 1] == ']' && t[n + 1..|t| - 1] == list && t[..n] == layer;
  }

  /** Printing any well-formed pin and parsing the text gives the pin back. */
  lemma FormatThenParse(pin: Pin)
    requires WellFormed(pin)
    ensures Parse(Format(pin)) == Some(pin)
  {
    FormatIsTrimmed(pin);
    assert LayerWord(pin.layer);
    if pin.groups.Some? { GroupsRoundTrip(pin.groups.value); }
    hide Join, ParseGroups, ParseTrimmed, Trim, WellFormed, LayerWord;
    match pin.groups
    case None => ParsesLayer(pin.layer);
    case Some(groups) => ParsesGrouped(pin.layer, Join(WrittenAll(groups), ", "));
  }

  /** For every text that parses, printing what it parses to and parsing again changes nothing. */
  lemma ParseFormatParse(text: string)
    requires Parse(text).Some?
    ensures Parse(Format(Parse(text).value)) == Parse(text)
  {
    ParsedIsWellFormed(text);
    FormatThenParse(Parse(text).value);
  }

  /** The text of a pin: its layer, then in brackets its groups, ", " between them and "-" for "". */
  lemma FormatSpells(layer: string, group: string, rest: seq<string>)
    ensures Format(Pin(layer, None)) == layer
    ensures var first := layer + "[" + (if group == "" then "-" else group);
      && Format(Pin(layer, Some([group]))) == first + "]"
      && (rest != [] ==>
            Format(Pin(layer, Some([group] + rest))) == first + ", " + Format(Pin("", Some(rest)))[1..])
  {
    var all := WrittenAll([group] + rest);
    assert all == [Written(group)] + WrittenAll(rest);
    assert all[1..] == WrittenAll(rest);
  }

  // ---- The identity of a pin ------------------------------------------------------------------

  /** Strings in the order of their characters. */
  predicate AtMost(a: string, b: string) {
    a == "" || (b != "" && (a[0] < b[0] || (a[0] == b[0] && AtMost(a[1..], b[1..]))))
  }

  function Insert(x: string, s: seq<string>): seq<string> {
    if s == [] || AtMost(x, s[0]) then [x] + s else [s[0]] + Insert(x, s[1..])
  }

  function Sorted(s: seq<string>): seq<string> {
    if s == [] then [] else Insert(s[0], Sorted(s[1..]))
  }

  function Key(pin: Pin): string {
    match pin.groups
    case None => pin.layer
    case Some(groups) => pin.layer + "[" + Join(Sorted(groups), ",") + "]"
  }

  ghost predicate Ordered(s: seq<string>) {
    forall i, j :: 0 <= i < j < |s| ==> AtMost(s[i], s[j])
  }

  lemma {:induction false} AtMostIsTotal(a: string, b: string)
    ensures AtMost(a, b) || AtMost(b, a)
    ensures AtMost(a, b) && AtMost(b, a) ==> a == b
  {
    if a != "" && b != "" {
      AtMostIsTotal(a[1..], b[1..]);
      assert a == [a[0]] + a[1..] && b == [b[0]] + b[1..];
    }
  }

  lemma {:induction false} AtMostChains(a: string, b: string, c: string)
    requires AtMost(a, b) && AtMost(b, c)
    ensures AtMost(a, c)
  {
    if a != "" && a[0] == b[0] == c[0] { AtMostChains(a[1..], b[1..], c[1..]); }
  }

  ghost predicate Leads(x: string, s: seq<string>) {
    forall i :: 0 <= i < |s| ==> AtMost(x, s[i])
  }

  lemma LeadOrdered(x: string, s: seq<string>)
    ensures Ordered([x] + s) <==> Leads(x, s) && Ordered(s)
  {
    hide AtMost;
    var all := [x] + s;
    assert all[0] == x && forall i :: 0 <= i < |s| ==> all[i + 1] == s[i];
    assert forall i :: 0 < i < |all| ==> all[i] == s[i - 1];
  }

  lemma LeadsChains(x: string, y: string, s: seq<string>)
    requires AtMost(x, y) && Leads(y, s)
    ensures Leads(x, s) && Leads(x, [y] + s)
  {
    forall i | 0 <= i < |s| ensures AtMost(x, s[i]) {
      AtMostChains(x, y, s[i]);
    }
  }

  lemma LeadsAll(x: string, s: seq<string>, t: seq<string>, y: string)
    requires Leads(x, s) && AtMost(x, y) && multiset(t) == multiset{y} + multiset(s)
    ensures Leads(x, t)
  {
    hide AtMost;
    forall i | 0 <= i < |t| ensures AtMost(x, t[i]) {
      assert t[i] in multiset(t);
    }
  }

  lemma {:induction false} InsertKeeps(x: string, s: seq<string>)
    requires Ordered(s)
    ensures Ordered(Insert(x, s)) && multiset(Insert(x, s)) == multiset{x} + multiset(s)
  {
    if s != [] {
      var y, rest := s[0], s[1..];
      assert s == [y] + rest;
      LeadOrdered(y, rest);
      AtMostIsTotal(x, y);
      InsertKeeps(x, rest);
      hide AtMost, Ordered, Leads;
      if AtMost(x, y) {
        LeadsChains(x, y, rest);
        LeadOrdered(x, s);
      } else {
        LeadsAll(y, rest, Insert(x, rest), x);
        LeadOrdered(y, Insert(x, rest));
      }
    }
  }

  lemma {:induction false} SortedKeeps(s: seq<string>)
    ensures Ordered(Sorted(s)) && multiset(Sorted(s)) == multiset(s)
  {
    if s != [] {
      SortedKeeps(s[1..]);
      InsertKeeps(s[0], Sorted(s[1..]));
      assert s == [s[0]] + s[1..];
    }
  }

  lemma {:induction false} OneOrder(a: seq<string>, b: seq<string>)
    requires Ordered(a) && Ordered(b) && multiset(a) == multiset(b)
    ensures a == b
  {
    assert |a| == |multiset(a)| && |b| == |multiset(b)|;
    if a != [] {
      SmallestFirst(a, b);
      LeadOrdered(a[0], a[1..]);
      LeadOrdered(b[0], b[1..]);
      hide Ordered, Leads, AtMost;
      assert a == [a[0]] + a[1..] && b == [b[0]] + b[1..];
      assert multiset(a[1..]) == multiset(a) - multiset{a[0]} == multiset(b[1..]);
      OneOrder(a[1..], b[1..]);
    }
  }

  lemma SmallestFirst(a: seq<string>, b: seq<string>)
    requires Ordered(a) && Ordered(b) && multiset(a) == multiset(b) && a != [] && b != []
    ensures a[0] == b[0]
  {
    assert a[0] in multiset(b) && b[0] in multiset(a);
    assert AtMost(a[0], b[0]) && AtMost(b[0], a[0]) by {
      var i :| 0 <= i < |a| && a[i] == b[0];
      var j :| 0 <= j < |b| && b[j] == a[0];
      AtMostIsTotal(a[0], a[0]);
    }
    AtMostIsTotal(a[0], b[0]);
  }

  lemma SortedJoinSplits(groups: seq<string>)
    requires groups != [] && forall i :: 0 <= i < |groups| ==> Spellable(groups[i])
    ensures Split(Join(Sorted(groups), ","), ',') == Sorted(groups)
  {
    SortedKeeps(groups);
    var sorted := Sorted(groups);
    assert |sorted| == |multiset(groups)| == |groups|;
    forall i | 0 <= i < |sorted| ensures ',' !in sorted[i] {
      assert sorted[i] in multiset(groups);
      assert sorted[i] in groups;
    }
    SplitJoin(sorted, ',');
    assert [','] == ",";
  }

  lemma LayerOfKey(pin: Pin)
    requires WellFormed(pin)
    ensures WordLength(Key(pin)) == |pin.layer| && pin.layer <= Key(pin)
    ensures pin.groups.None? <==> |Key(pin)| == |pin.layer|
    ensures pin.groups.Some? ==> Key(pin)[|pin.layer| + 1..|Key(pin)| - 1] == Join(Sorted(pin.groups.value), ",")
  {
    var rest := if pin.groups.None? then "" else "[" + Join(Sorted(pin.groups.value), ",") + "]";
    assert Key(pin) == pin.layer + rest;
    WordPrefix(pin.layer, rest);
  }

  /** Pins have one key exactly when they name one layer and either both the whole of it or the
      same groups equally often, in whatever order. */
  lemma KeysAreIdentities(a: Pin, b: Pin)
    requires WellFormed(a) && WellFormed(b)
    ensures Key(a) == Key(b) <==>
      a.layer == b.layer && a.groups.Some? == b.groups.Some? &&
      (a.groups.Some? ==> multiset(a.groups.value) == multiset(b.groups.value))
  {
    LayerOfKey(a);
    LayerOfKey(b);
    if a.groups.Some? && b.groups.Some? {
      var g, h := a.groups.value, b.groups.value;
      SortedKeeps(g);
      SortedKeeps(h);
      SortedJoinSplits(g);
      SortedJoinSplits(h);
      hide Sorted, Split, Join, Spellable;
      if multiset(g) == multiset(h) {
        OneOrder(Sorted(g), Sorted(h));
      }
    }
  }

  // ---- What a pin matches ---------------------------------------------------------------------

  datatype Owner = Owner(layer: string, group: string)

  datatype Alarm = Alarm(layerKeys: seq<string>, owners: Option<seq<Owner>>)

  predicate Matches(pin: Pin, alarm: Alarm) {
    match pin.groups
    case None => pin.layer in alarm.layerKeys
    case Some(groups) =>
      alarm.owners.Some? &&
      exists i :: 0 <= i < |alarm.owners.value| &&
                  alarm.owners.value[i].layer == pin.layer && alarm.owners.value[i].group in groups
  }

  ghost predicate MatchAlike(a: Pin, b: Pin) {
    forall alarm :: Matches(a, alarm) <==> Matches(b, alarm)
  }

  function OwnedBy(owner: Owner): Alarm {
    Alarm([], Some([owner]))
  }

  lemma MatchesOwned(pin: Pin, owner: Owner)
    ensures Matches(pin, OwnedBy(owner)) <==>
      pin.groups.Some? && owner.layer == pin.layer && owner.group in pin.groups.value
  {
    if pin.groups.Some? && owner.layer == pin.layer && owner.group in pin.groups.value {
      assert OwnedBy(owner).owners.value[0] == owner;
    }
  }

  /** An alarm that concerns two sets of services is matched exactly when either is. */
  lemma MatchingAdds(pin: Pin, k: seq<string>, l: seq<string>, o: seq<Owner>, q: seq<Owner>)
    ensures Matches(pin, Alarm(k + l, Some(o + q))) <==>
      Matches(pin, Alarm(k, Some(o))) || Matches(pin, Alarm(l, Some(q)))
  {
    if pin.groups.Some? {
      forall i | 0 <= i < |o| ensures (o + q)[i] == o[i] { }
      forall i | 0 <= i < |q| ensures (o + q)[|o| + i] == q[i] { }
    }
  }

  /** No list of owners is an empty one. */
  lemma NoOwners(pin: Pin, k: seq<string>)
    ensures Matches(pin, Alarm(k, None)) <==> Matches(pin, Alarm(k, Some([])))
  {
  }

  /** Of an alarm without owners, with one layer or none, only that layer's whole-layer pin matches. */
  lemma MatchesLayer(pin: Pin, layer: string)
    ensures Matches(pin, Alarm([layer], Some([]))) <==> pin.groups.None? && pin.layer == layer
    ensures !Matches(pin, Alarm([], Some([])))
  {
  }

  /** So these are all the alarms a pin matches. */
  lemma {:induction false} MatchesExactly(pin: Pin, alarm: Alarm)
    ensures Matches(pin, alarm) <==>
      if pin.groups.None? then pin.layer in alarm.layerKeys
      else exists o :: o in OwnersOf(alarm) && o.layer == pin.layer && o.group in pin.groups.value
    decreases |alarm.layerKeys| + |OwnersOf(alarm)|
  {
    var k, o := alarm.layerKeys, OwnersOf(alarm);
    NoOwners(pin, k);
    MatchesLayer(pin, "");
    hide Matches;
    if o != [] {
      var init, last := o[..|o| - 1], o[|o| - 1];
      assert k + [] == k && o == init + [last];
      MatchingAdds(pin, k, [], init, [last]);
      MatchesOwned(pin, last);
      MatchesExactly(pin, Alarm(k, Some(init)));
    } else if k != [] {
      var init, last := k[..|k| - 1], k[|k| - 1];
      var none: seq<Owner> := [];
      assert k == init + [last] && none + none == none;
      MatchingAdds(pin, init, [last], none, none);
      MatchesLayer(pin, last);
      MatchesExactly(pin, Alarm(init, Some(none)));
    }
  }

  function OwnersOf(alarm: Alarm): seq<Owner> {
    match alarm.owners case Some(o) => o case None => []
  }

  /** Pins match exactly the same alarms exactly when they name one layer and either both the
      whole of it or the same set of groups. */
  lemma MatchAlikeExactly(a: Pin, b: Pin)
    requires WellFormed(a) && WellFormed(b)
    ensures MatchAlike(a, b) <==>
      a.layer == b.layer && a.groups.Some? == b.groups.Some? &&
      (a.groups.Some? ==> forall g :: g in a.groups.value <==> g in b.groups.value)
  {
    if MatchAlike(a, b) {
      SameLayer(a, b);
      SameLayer(b, a);
    }
  }

  lemma SameLayer(a: Pin, b: Pin)
    requires WellFormed(a) && MatchAlike(a, b)
    ensures a.layer == b.layer && a.groups.Some? == b.groups.Some?
    ensures a.groups.Some? ==> forall g :: g in a.groups.value ==> g in b.groups.value
  {
    match a.groups
    case None =>
      var alarm := Alarm([a.layer], None);
      assert Matches(a, alarm) && Matches(b, alarm);
    case Some(groups) =>
      forall g | g in groups ensures b.groups.Some? && a.layer == b.layer && g in b.groups.value {
        MatchesOwned(a, Owner(a.layer, g));
        MatchesOwned(b, Owner(a.layer, g));
      }
      assert groups[0] in groups;
  }

  /** A group named twice changes the key of a pin but not the alarms it matches. */
  lemma RepeatedGroupChangesKey(layer: string, group: string)
    requires LayerWord(layer) && Spellable(group)
    ensures var one, two := Pin(layer, Some([group])), Pin(layer, Some([group, group]));
      MatchAlike(one, two) && Key(one) != Key(two)
  {
    var one, two := Pin(layer, Some([group])), Pin(layer, Some([group, group]));
    assert WellFormed(one) && WellFormed(two);
    hide LayerWord, Spellable, Key, Matches;
    MatchAlikeExactly(one, two);
    KeysAreIdentities(one, two);
    assert |multiset(one.groups.value)| == 1 && |multiset(two.groups.value)| == 2;
  }

  /** Two texts whose pins have one key pin the same alarms. */
  lemma SameKeySameAlarms(s: string, t: string)
    requires Parse(s).Some? && Parse(t).Some? && Key(Parse(s).value) == Key(Parse(t).value)
    ensures MatchAlike(Parse(s).value, Parse(t).value)
  {
    ParsedIsWellFormed(s);
    ParsedIsWellFormed(t);
    var a, b := Parse(s).value, Parse(t).value;
    hide Parse;
    KeysAreIdentities(a, b);
    if a.groups.Some? {
      forall g ensures g in a.groups.value <==> g in b.groups.value {
        assert g in multiset(a.groups.value) <==> g in multiset(b.groups.value);
      }
    }
    MatchAlikeExactly(a, b);
  }
}
