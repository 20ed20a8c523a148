/** IPv6 addresses read from text. */
module Ipv6 {
  import opened Options
  import opened Text
  import opened Hex

  // ---- Numbers in text ------------------------------------------------------------------------

  predicate IsDigits(s: string) {
    s != "" && forall i :: 0 <= i < |s| ==> '0' <= s[i] <= '9'
  }

  function Decimal(s: string): nat
    requires IsDigits(s)
  {
    var last := s[|s| - 1] as int - '0' as int;
    if |s| == 1 then last else 10 * Decimal(s[..|s| - 1]) + last
  }

  function HexDigit(d: nat): (c: char)
    requires d < 16
    ensures IsHexDigit(c) && DigitValue(c) == d
  {
    if d < 10 then ('0' as int + d) as char else ('a' as int + d - 10) as char
  }

  /** A number in lower-case hexadecimal, without leading zeros. */
  function HexText(n: nat): (s: string)
    ensures s != "" && IsHex(s) && Number(s) == n
    ensures n < 16 ==> |s| <= 1
    ensures n < 256 ==> |s| <= 2
    ensures n < 4096 ==> |s| <= 3
    ensures n < 65536 ==> |s| <= 4
  {
    var last := HexDigit(n % 16);
    var more := if n < 16 then "" else HexText(n / 16);
    assert (more + [last])[..|more|] == more;
    more + [last]
  }

  // ---- A dotted quad at the end ---------------------------------------------------------------

  predicate IsOctetText(s: string) {
    |s| <= 3 && IsDigits(s)
  }

  predicate IsQuad(s: string) {
    var parts := Split(s, '.');
    |parts| == 4 && forall i :: 0 <= i < 4 ==> IsOctetText(parts[i])
  }

  /** Where the earliest dotted quad that reaches the end of the text begins. */
  function QuadAt(s: string): (i: Option<nat>)
    ensures i.Some? ==> i.value <= |s| && IsQuad(s[i.value..])
  {
    if IsQuad(s) then Some(0)
    else if s == "" then None
    else
      match QuadAt(s[1..])
      case None => None
      case Some(i) =>
        assert s[1..][i..] == s[i + 1..];
        Some(i + 1)
  }

  function QuadValues(s: string): (q: seq<nat>)
    requires IsQuad(s)
    ensures |q| == 4
  {
    var parts := Split(s, '.');
    seq(4, i requires 0 <= i < 4 => Decimal(parts[i]))
  }

  function TwoGroups(q: seq<nat>): Option<string>
    requires |q| == 4
  {
    if q[0] > 255 || q[1] > 255 || q[2] > 255 || q[3] > 255 then None
    else Some(HexText(q[0] * 256 + q[1]) + ":" + HexText(q[2] * 256 + q[3]))
  }

  /** The text with a dotted quad at its end written as two groups. */
  function QuadAsGroups(s: string): Option<string> {
    match QuadAt(s)
    case None => Some(s)
    case Some(i) =>
      match TwoGroups(QuadValues(s[i..]))
      case None => None
      case Some(groups) => Some(s[..i] + groups)
  }

  // ---- Groups ---------------------------------------------------------------------------------

  /** The pieces of a text between its double colons. */
  function Halves(s: string): (h: seq<string>)
    ensures h != []
  {
    if s == "" then [""]
    else if |s| > 1 && s[0] == ':' && s[1] == ':' then [""] + Halves(s[2..])
    else
      var rest := Halves(s[1..]);
      [[s[0]] + rest[0]] + rest[1..]
  }

  function Pieces(half: string): seq<string> {
    if half == "" then [] else Split(half, ':')
  }

  predicate IsGroup(s: string) {
    1 <= |s| <= 4 && IsHex(s)
  }

  function ZeroGroups(n: nat): seq<string> {
    seq(n, i => "0")
  }

  function Groups(s: string): (groups: Option<seq<string>>)
    ensures groups.Some? ==> |groups.value| == 8
  {
    var halves := Halves(s);
    var head := Pieces(halves[0]);
    if |halves| > 2 then None
    else if |halves| == 1 then (if |head| == 8 then Some(head) else None)
    else
      var tail := Pieces(halves[1]);
      if |head| + |tail| > 8 then None else Some(head + ZeroGroups(8 - |head| - |tail|) + tail)
  }

  predicate AreGroups(groups: seq<string>) {
    forall i :: 0 <= i < |groups| ==> IsGroup(groups[i])
  }

  function Values(groups: seq<string>): (h: seq<nat>)
    requires AreGroups(groups)
    ensures |h| == |groups| && forall i :: 0 <= i < |h| ==> IsGroup(groups[i]) && h[i] == Number(groups[i])
  {
    seq(|groups|, i requires 0 <= i < |groups| => assert IsGroup(groups[i]); Number(groups[i]))
  }

  /** A text as its eight groups of sixteen bits, or `None` where it is no IPv6 address. */
  function Hextets(text: string): (h: Option<seq<nat>>)
    ensures h.Some? ==> |h.value| == 8
  {
    match QuadAsGroups(text)
    case None => None
    case Some(s) =>
      match Groups(s)
      case None => None
      case Some(groups) =>
        if AreGroups(groups) then Some(Values(groups)) else None
  }

  // ---- Every spelling -------------------------------------------------------------------------

  /** A way to write an address: groups before the double colon, those after it if there is one,
      and the four octets of a dotted quad if it ends in one. */
  datatype Spelling = Spelling(before: seq<string>, after: Option<seq<string>>, quad: Option<seq<string>>)

  function Count(p: Spelling): nat {
    |p.before| + (if p.after.Some? then |p.after.value| else 0) + (if p.quad.Some? then 2 else 0)
  }

  predicate IsOctets(quad: seq<string>) {
    |quad| == 4 && forall i :: 0 <= i < 4 ==> IsOctetText(quad[i]) && Decimal(quad[i]) <= 255
  }

  /** Groups of one to four digits: eight, or no more than eight with one double colon for the
      zeros that are missing, if any are; the last two possibly a dotted quad. */
  predicate Legal(p: Spelling) {
    && AreGroups(p.before)
    && (p.after.Some? ==> AreGroups(p.after.value))
    && (p.quad.Some? ==> IsOctets(p.quad.value))
    && (if p.after.Some? then Count(p) <= 8 else Count(p) == 8)
  }

  function QuadPiece(p: Spelling): seq<string> {
    if p.quad.Some? then [Join(p.quad.value, ".")] else []
  }

  function TextOf(p: Spelling): string {
    if p.after.Some? then Join(p.before, ":") + "::" + Join(p.after.value + QuadPiece(p), ":")
    else Join(p.before + QuadPiece(p), ":")
  }

  function QuadGroups(quad: seq<string>): (v: seq<nat>)
    requires IsOctets(quad)
  {
    [Decimal(quad[0]) * 256 + Decimal(quad[1]), Decimal(quad[2]) * 256 + Decimal(quad[3])]
  }

  /** The address a spelling writes. */
  function Address(p: Spelling): (h: seq<nat>)
    requires Legal(p)
    ensures |h| == 8
  {
    var front := Values(p.before);
    var back := (if p.after.Some? then Values(p.after.value) else []) +
      (if p.quad.Some? then QuadGroups(p.quad.value) else []);
    front + seq(8 - Count(p), i => 0) + back
  }

  // A text of groups holds no double colon and splits into the groups again.

  predicate NoDouble(s: string) {
    forall i :: 0 <= i < |s| - 1 ==> !(s[i] == ':' && s[i + 1] == ':')
  }

  lemma {:induction false} NoDoubleIsWhole(s: string)
    requires NoDouble(s)
    ensures Halves(s) == [s]
  {
    if s != "" {
      assert s[0] == ':' && |s| > 1 ==> s[1] != ':';
      assert forall i :: 0 <= i < |s[1..]| ==> s[1..][i] == s[i + 1];
      NoDoubleIsWhole(s[1..]);
      assert [s[0]] + s[1..] == s;
    }
  }

  lemma {:induction false} HalvesAround(a: string, b: string)
    requires NoDouble(a) && NoDouble(b) && (a == "" || a[|a| - 1] != ':')
    ensures Halves(a + "::" + b) == [a, b]
  {
    var s := a + "::" + b;
    if a == "" {
      assert s == "::" + b && s[2..] == b;
      NoDoubleIsWhole(b);
    } else {
      assert s[0] == a[0] && s[1..] == a[1..] + "::" + b;
      assert forall i :: 0 <= i < |a[1..]| ==> a[1..][i] == a[i + 1];
      assert |a| == 1 ==> a[0] != ':';
      assert |a| > 1 ==> s[1] == a[1];
      HalvesAround(a[1..], b);
      assert [a[0]] + a[1..] == a;
    }
  }

  lemma {:induction false} GroupsJoin(groups: seq<string>)
    requires AreGroups(groups)
    ensures NoDouble(Join(groups, ":")) && Pieces(Join(groups, ":")) == groups
    ensures Join(groups, ":") != "" ==>
      Join(groups, ":")[0] != ':' && Join(groups, ":")[|Join(groups, ":")| - 1] != ':'
    ensures Join(groups, ":") == "" <==> groups == []
    ensures '.' !in Join(groups, ":")
  {
    if groups != [] {
      forall i | 0 <= i < |groups| ensures ':' !in groups[i] && groups[i] != "" && '.' !in groups[i] {
        assert IsGroup(groups[i]);
      }
      if |groups| > 1 {
        GroupsJoin(groups[1..]);
      }
      SplitJoin(groups, ':');
      assert [':'] == ":";
    }
  }

  // ---- The end of a text with a dotted quad ---------------------------------------------------

  lemma OctetsJoin(quad: seq<string>)
    requires IsOctets(quad)
    ensures var s := Join(quad, "."); IsQuad(s) && Split(s, '.') == quad
    ensures ':' !in Join(quad, ".")
  {
    forall i | 0 <= i < 4 ensures '.' !in quad[i] && ':' !in quad[i] {
      assert IsOctetText(quad[i]);
    }
    SplitJoin(quad, '.');
    assert ['.'] == ".";
    JoinIsPart(quad, ".", ':');
  }

  lemma NoQuadWithoutDot(s: string)
    requires '.' !in s
    ensures !IsQuad(s)
  {
    SplitPrefix(s, "", '.');
    assert s + "" == s;
  }

  lemma {:induction false} NoQuadAt(s: string)
    requires '.' !in s
    ensures QuadAt(s) == None
  {
    NoQuadWithoutDot(s);
    if s != "" { NoQuadAt(s[1..]); }
  }

  /** A colon before the first dot rules a quad out. */
  lemma NoQuadWithColon(a: string, b: string)
    requires ':' in a && '.' !in a
    ensures !IsQuad(a + b)
  {
    SplitPrefix(a, b, '.');
    var i :| 0 <= i < |a| && a[i] == ':';
    assert Split(a + b, '.')[0] == a + Split(b, '.')[0];
    assert (a + Split(b, '.')[0])[i] == ':';
  }

  lemma {:induction false} QuadAfterColon(a: string, quad: string)
    requires IsQuad(quad) && '.' !in a && (a == "" || a[|a| - 1] == ':')
    ensures QuadAt(a + quad) == Some(|a|)
  {
    if a == "" {
      assert a + quad == quad;
    } else {
      assert a[|a| - 1] in a;
      NoQuadWithColon(a, quad);
      assert (a + quad)[1..] == a[1..] + quad;
      QuadAfterColon(a[1..], quad);
    }
  }

  /** Groups that more follows. */
  function Lead(groups: seq<string>): string {
    if groups == [] then "" else Join(groups, ":") + ":"
  }

  lemma {:induction false} JoinAppend(groups: seq<string>, last: string)
    ensures Join(groups + [last], ":") == Lead(groups) + last
  {
    var all := groups + [last];
    if groups == [] {
      assert all == [last];
    } else {
      assert all[1..] == groups[1..] + [last];
      JoinAppend(groups[1..], last);
      if |groups| > 1 {
        assert Lead(groups) == groups[0] + ":" + Lead(groups[1..]);
      }
      assert groups[0] + ":" + (Lead(groups[1..]) + last) == (groups[0] + ":" + Lead(groups[1..])) + last;
    }
  }

  lemma JoinAppendTwo(groups: seq<string>, a: string, b: string)
    ensures Join(groups + [a, b], ":") == Lead(groups) + a + ":" + b
  {
    assert groups + [a, b] == (groups + [a]) + [b];
    JoinAppend(groups + [a], b);
    JoinAppend(groups, a);
  }

  /** The two groups that stand for a dotted quad. */
  function QuadTexts(quad: seq<string>): (texts: seq<string>)
    requires IsOctets(quad)
    ensures |texts| == 2
  {
    [HexText(QuadGroups(quad)[0]), HexText(QuadGroups(quad)[1])]
  }

  function WithoutQuad(p: Spelling): Spelling
    requires Legal(p) && p.quad.Some?
  {
    var more := QuadTexts(p.quad.value);
    if p.after.Some? then Spelling(p.before, Some(p.after.value + more), None)
    else Spelling(p.before + more, None, None)
  }

  lemma QuadInRange(quad: seq<string>)
    requires IsOctets(quad)
    ensures QuadGroups(quad)[0] < 65536 && QuadGroups(quad)[1] < 65536
  {
    assert Decimal(quad[0]) <= 255 && Decimal(quad[1]) <= 255 && Decimal(quad[2]) <= 255 && Decimal(quad[3]) <= 255;
    hide Decimal;
  }

  lemma HexTextIsGroup(n: nat)
    requires n < 65536
    ensures IsGroup(HexText(n)) && Number(HexText(n)) == n
  {
    hide HexText;
  }

  lemma TwoAreGroups(x: string, y: string)
    requires IsGroup(x) && IsGroup(y)
    ensures AreGroups([x, y]) && Values([x, y]) == [Number(x), Number(y)]
  {
    hide IsGroup, Number;
  }

  lemma QuadTextsAreGroups(quad: seq<string>)
    requires IsOctets(quad)
    ensures AreGroups(QuadTexts(quad)) && Values(QuadTexts(quad)) == QuadGroups(quad)
  {
    QuadInRange(quad);
    hide HexText, Number, Decimal, IsOctets, IsOctetText, AreGroups, Values, IsGroup;
    var hi, lo := QuadGroups(quad)[0], QuadGroups(quad)[1];
    assert QuadGroups(quad) == [hi, lo] && QuadTexts(quad) == [HexText(hi), HexText(lo)];
    HexTextIsGroup(hi);
    HexTextIsGroup(lo);
    TwoAreGroups(HexText(hi), HexText(lo));
  }

  lemma AreGroupsJoined(a: seq<string>, b: seq<string>)
    requires AreGroups(a) && AreGroups(b)
    ensures AreGroups(a + b) && Values(a + b) == Values(a) + Values(b)
  {
    hide IsGroup;
  }

  lemma SameAddressWithoutQuad(p: Spelling)
    requires Legal(p) && p.quad.Some?
    ensures Legal(WithoutQuad(p)) && Address(WithoutQuad(p)) == Address(p)
  {
    var more := QuadTexts(p.quad.value);
    QuadTextsAreGroups(p.quad.value);
    AreGroupsJoined(p.before, more);
    if p.after.Some? { AreGroupsJoined(p.after.value, more); }
    hide QuadTexts, QuadGroups, IsGroup, IsOctets, Values;
  }

  function Prefix(p: Spelling): string {
    if p.after.Some? then Join(p.before, ":") + "::" + Lead(p.after.value) else Lead(p.before)
  }

  lemma PrefixEndsInColon(p: Spelling)
    requires Legal(p) && p.quad.Some?
    ensures '.' !in Prefix(p) && Prefix(p) != "" && Prefix(p)[|Prefix(p)| - 1] == ':'
  {
    GroupsJoin(p.before);
    if p.after.Some? { GroupsJoin(p.after.value); }
    hide Join, IsGroup, IsOctets;
  }

  lemma TextWithoutQuad(p: Spelling)
    requires p.quad.None?
    ensures TextOf(p) == match p.after
      case None => Join(p.before, ":")
      case Some(after) => Join(p.before, ":") + "::" + Join(after, ":")
  {
    hide Join;
    assert p.before + [] == p.before;
    assert p.after.Some? ==> p.after.value + [] == p.after.value;
  }

  lemma Together(a: string, b: string, c: string)
    ensures a + (b + c) == a + b + c
  {
  }

  lemma TogetherTwo(a: string, b: string, c: string, d: string)
    ensures a + (b + c + ":" + d) == a + b + c + ":" + d
  {
  }

  lemma TextWithQuad(p: Spelling)
    requires Legal(p) && p.quad.Some?
    ensures TextOf(p) == Prefix(p) + Join(p.quad.value, ".")
  {
    var q := Join(p.quad.value, ".");
    assert QuadPiece(p) == [q];
    JoinAppend(if p.after.Some? then p.after.value else p.before, q);
    hide Join, Lead, Legal, QuadPiece;
    if p.after.Some? { Together(Join(p.before, ":") + "::", Lead(p.after.value), q); }
  }

  lemma TextWithTwoGroups(p: Spelling)
    requires Legal(p) && p.quad.Some?
    ensures var more := QuadTexts(p.quad.value); TextOf(WithoutQuad(p)) == Prefix(p) + more[0] + ":" + more[1]
  {
    var more := QuadTexts(p.quad.value);
    TextWithoutQuad(WithoutQuad(p));
    JoinAppendTwo(if p.after.Some? then p.after.value else p.before, more[0], more[1]);
    assert more == [more[0], more[1]];
    hide Join, Lead, Legal, QuadTexts, TextOf;
    if p.after.Some? { TogetherTwo(Join(p.before, ":") + "::", Lead(p.after.value), more[0], more[1]); }
  }

  lemma QuadIsPrefixed(p: Spelling)
    requires Legal(p) && p.quad.Some?
    ensures TextOf(p) == Prefix(p) + Join(p.quad.value, ".")
    ensures var more := QuadTexts(p.quad.value); TextOf(WithoutQuad(p)) == Prefix(p) + more[0] + ":" + more[1]
  {
    TextWithQuad(p);
    TextWithTwoGroups(p);
    hide *;
  }

  lemma QuadsBecomeGroups(p: Spelling)
    requires Legal(p)
    ensures QuadAsGroups(TextOf(p)) == Some(TextOf(if p.quad.Some? then WithoutQuad(p) else p))
  {
    if p.quad.None? {
      GroupsJoin(p.before);
      if p.after.Some? { GroupsJoin(p.after.value); }
      assert p.before + [] == p.before;
      assert p.after.Some? ==> p.after.value + [] == p.after.value;
      NoQuadAt(TextOf(p));
    } else {
      var quad := p.quad.value;
      var q := Join(quad, ".");
      OctetsJoin(quad);
      PrefixEndsInColon(p);
      QuadIsPrefixed(p);
      QuadAfterColon(Prefix(p), q);
      hide *;
      SubstitutesQuad(Prefix(p), quad);
    }
  }

  lemma QuadOfJoin(quad: seq<string>)
    requires IsOctets(quad)
    ensures IsQuad(Join(quad, "."))
    ensures TwoGroups(QuadValues(Join(quad, "."))) == Some(QuadTexts(quad)[0] + ":" + QuadTexts(quad)[1])
  {
    OctetsJoin(quad);
    hide Join, Split, Decimal, IsOctetText, HexText, IsQuad;
    OctetValues(Join(quad, "."), quad);
  }

  lemma OctetValues(s: string, quad: seq<string>)
    requires IsOctets(quad) && IsQuad(s) && Split(s, '.') == quad
    ensures QuadValues(s) == [Decimal(quad[0]), Decimal(quad[1]), Decimal(quad[2]), Decimal(quad[3])]
  {
    hide Split, Decimal, IsOctetText, IsOctets;
  }

  lemma QuadReplaced(prefix: string, q: string, groups: string)
    requires IsQuad(q) && QuadAt(prefix + q) == Some(|prefix|) && TwoGroups(QuadValues(q)) == Some(groups)
    ensures QuadAsGroups(prefix + q) == Some(prefix + groups)
  {
    var s := prefix + q;
    hide QuadAt, IsQuad, QuadValues, TwoGroups;
    assert s[|prefix|..] == q && s[..|prefix|] == prefix;
  }

  lemma SubstitutesQuad(prefix: string, quad: seq<string>)
    requires IsOctets(quad) && QuadAt(prefix + Join(quad, ".")) == Some(|prefix|)
    ensures QuadAsGroups(prefix + Join(quad, ".")) == Some(prefix + QuadTexts(quad)[0] + ":" + QuadTexts(quad)[1])
  {
    hide *;
    QuadOfJoin(quad);
    var a, b := QuadTexts(quad)[0], QuadTexts(quad)[1];
    QuadReplaced(prefix, Join(quad, "."), a + ":" + b);
    assert prefix + (a + ":" + b) == prefix + a + ":" + b;
  }

  function AllGroups(p: Spelling): seq<string>
    requires Legal(p)
  {
    if p.after.Some? then p.before + ZeroGroups(8 - Count(p)) + p.after.value else p.before
  }

  lemma GroupsFromHalves(s: string, head: seq<string>, tail: Option<seq<string>>)
    requires match tail
      case None => (exists a :: Halves(s) == [a] && Pieces(a) == head) && |head| == 8
      case Some(t) => (exists a, b :: Halves(s) == [a, b] && Pieces(a) == head && Pieces(b) == t) && |head| + |t| <= 8
    ensures Groups(s) == Some(
      match tail case None => head case Some(t) => head + ZeroGroups(8 - |head| - |t|) + t)
  {
    hide Halves, Pieces, ZeroGroups;
  }

  lemma GroupsOfText(p: Spelling)
    requires Legal(p) && p.quad.None?
    ensures Groups(TextOf(p)) == Some(AllGroups(p))
  {
    hide Join, Halves, IsGroup, Pieces, NoDouble, TextOf, Groups, ZeroGroups, IsOctets;
    TextWithoutQuad(p);
    GroupsJoin(p.before);
    if p.after.Some? {
      GroupsJoin(p.after.value);
      HalvesAround(Join(p.before, ":"), Join(p.after.value, ":"));
    } else {
      NoDoubleIsWhole(Join(p.before, ":"));
    }
    GroupsFromHalves(TextOf(p), p.before, p.after);
  }

  lemma ZerosAreGroups(n: nat)
    ensures AreGroups(ZeroGroups(n)) && Values(ZeroGroups(n)) == seq(n, i => 0)
  {
    assert IsGroup("0") && Number("0") == 0;
    hide IsGroup, Number;
  }

  lemma AllGroupsAreAddress(p: Spelling)
    requires Legal(p) && p.quad.None?
    ensures AreGroups(AllGroups(p)) && Values(AllGroups(p)) == Address(p)
  {
    ZerosAreGroups(8 - Count(p));
    if p.after.Some? {
      AreGroupsJoined(p.before, ZeroGroups(8 - Count(p)));
      AreGroupsJoined(p.before + ZeroGroups(8 - Count(p)), p.after.value);
    }
    hide IsGroup, ZeroGroups, Values;
    if p.after.None? {
      assert Values(p.before) + seq(0, i => 0) + ([] + []) == Values(p.before);
    }
  }

  /** Every legal spelling of an address is read as that address. */
  lemma SpellingsAreRead(p: Spelling)
    requires Legal(p)
    ensures Hextets(TextOf(p)) == Some(Address(p))
  {
    QuadsBecomeGroups(p);
    var g := if p.quad.Some? then WithoutQuad(p) else p;
    if p.quad.Some? { SameAddressWithoutQuad(p); }
    GroupsOfText(g);
    AllGroupsAreAddress(g);
    hide Groups, QuadAsGroups, TextOf, IsGroup, ZeroGroups, Address, Values, Count, AreGroups, Legal;
  }
}
