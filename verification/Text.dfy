/** String operations of the runtime that the parsers use. */
module Text {
  /** White space and line ends, as trimming understands them. */
  predicate IsSpace(c: char) {
    || '\t' <= c <= '\r' || c == ' ' || c == '\U{A0}' || c == '\U{1680}' || '\U{2000}' <= c <= '\U{200A}'
    || c == '\U{2028}' || c == '\U{2029}' || c == '\U{202F}' || c == '\U{205F}' || c == '\U{3000}' || c == '\U{FEFF}'
  }

  function TrimStart(s: string): (t: string)
    ensures t == "" || !IsSpace(t[0])
    ensures |t| <= |s| && t == s[|s| - |t|..]
  {
    if s == "" || !IsSpace(s[0]) then s else TrimStart(s[1..])
  }

  function TrimEnd(s: string): (t: string)
    ensures t == "" || !IsSpace(t[|t| - 1])
    ensures t <= s
  {
    if s == "" || !IsSpace(s[|s| - 1]) then s else TrimEnd(s[..|s| - 1])
  }

  function Trim(s: string): string {
    TrimEnd(TrimStart(s))
  }

  predicate IsTrimmed(s: string) {
    s == "" || (!IsSpace(s[0]) && !IsSpace(s[|s| - 1]))
  }

  lemma TrimTrims(s: string)
    ensures IsTrimmed(Trim(s))
    ensures IsTrimmed(s) ==> Trim(s) == s
  {
  }

  ghost predicate AllSpace(s: string) {
    forall i :: 0 <= i < |s| ==> IsSpace(s[i])
  }

  /** Trimming takes away exactly the white space around a text. */
  lemma TrimExactly(front: string, t: string, back: string)
    requires AllSpace(front) && AllSpace(back) && IsTrimmed(t)
    ensures Trim(front + t + back) == t
  {
    if t == "" {
      assert front + t + back == front + back;
      TrimStartSpace(front + back, "");
      assert front + back + "" == front + back;
    } else {
      assert front + t + back == front + (t + back);
      TrimStartSpace(front, t + back);
      TrimEndSpace(t, back);
      assert (t + back)[0] == t[0];
    }
  }

  lemma {:induction false} TrimStartSpace(front: string, rest: string)
    requires AllSpace(front) && (rest == "" || !IsSpace(rest[0]))
    ensures TrimStart(front + rest) == rest
  {
    if front == "" {
      assert front + rest == rest;
    } else {
      assert (front + rest)[1..] == front[1..] + rest;
      TrimStartSpace(front[1..], rest);
    }
  }

  lemma {:induction false} TrimEndSpace(t: string, back: string)
    requires AllSpace(back) && (t == "" || !IsSpace(t[|t| - 1]))
    ensures TrimEnd(t + back) == t
    decreases |back|
  {
    if back == "" {
      assert t + back == t;
    } else {
      var fewer := back[..|back| - 1];
      assert (t + back)[..|t + back| - 1] == t + fewer && (t + back)[|t + back| - 1] == back[|back| - 1];
      TrimEndSpace(t, fewer);
    }
  }

  /** What trimming takes away. */
  lemma TrimLeaves(s: string) returns (front: string, back: string)
    ensures s == front + Trim(s) + back && AllSpace(front) && AllSpace(back)
  {
    hide *;
    front := TakenFromStart(s);
    back := TakenFromEnd(TrimStart(s));
    TrimIs(s);
    Reassociate(front, Trim(s), back);
  }

  lemma TakenFromStart(s: string) returns (front: string)
    ensures s == front + TrimStart(s) && AllSpace(front)
  {
    var t := TrimStart(s);
    front := s[..|s| - |t|];
    StartIsSpace(s);
    assert t == s[|s| - |t|..];
    hide TrimStart, IsSpace;
    CutAt(s, |s| - |t|);
  }

  lemma TakenFromEnd(s: string) returns (back: string)
    ensures s == TrimEnd(s) + back && AllSpace(back)
  {
    var t := TrimEnd(s);
    back := s[|t|..];
    EndIsSpace(s);
    assert t == s[..|t|];
    hide TrimEnd, IsSpace;
    CutAt(s, |t|);
  }

  lemma TrimIs(s: string)
    ensures Trim(s) == TrimEnd(TrimStart(s))
  {
  }

  lemma CutAt(s: string, n: nat)
    requires n <= |s|
    ensures s == s[..n] + s[n..]
  {
  }

  lemma Reassociate(a: string, b: string, c: string)
    ensures a + (b + c) == a + b + c
  {
  }

  lemma {:induction false} StartIsSpace(s: string)
    ensures forall i :: 0 <= i < |s| - |TrimStart(s)| ==> IsSpace(s[i])
  {
    if s != "" && IsSpace(s[0]) {
      StartIsSpace(s[1..]);
      assert TrimStart(s) == TrimStart(s[1..]);
      hide TrimStart, IsSpace;
      forall i | 0 <= i < |s| - |TrimStart(s)| ensures IsSpace(s[i]) {
        if i > 0 { assert s[i] == s[1..][i - 1]; }
      }
    }
  }

  lemma {:induction false} EndIsSpace(s: string)
    ensures forall i :: |TrimEnd(s)| <= i < |s| ==> IsSpace(s[i])
  {
    if s != "" && IsSpace(s[|s| - 1]) {
      EndIsSpace(s[..|s| - 1]);
      assert TrimEnd(s) == TrimEnd(s[..|s| - 1]);
      hide TrimEnd, IsSpace;
      forall i | |TrimEnd(s)| <= i < |s| ensures IsSpace(s[i]) {
        if i < |s| - 1 { assert s[i] == s[..|s| - 1][i]; }
      }
    }
  }

  /** Case changes of ASCII letters; other characters stay. */
  function LowerChar(c: char): char {
    if 'A' <= c <= 'Z' then (c as int + 32) as char else c
  }

  function UpperChar(c: char): char {
    if 'a' <= c <= 'z' then (c as int - 32) as char else c
  }

  function Lower(s: string): (r: string)
    ensures |r| == |s| && forall i :: 0 <= i < |s| ==> r[i] == LowerChar(s[i])
  {
    seq(|s|, i requires 0 <= i < |s| => LowerChar(s[i]))
  }

  function Upper(s: string): (r: string)
    ensures |r| == |s| && forall i :: 0 <= i < |s| ==> r[i] == UpperChar(s[i])
  {
    seq(|s|, i requires 0 <= i < |s| => UpperChar(s[i]))
  }

  /** The pieces of `s` between the separators, never none. */
  function Split(s: string, sep: char): (parts: seq<string>)
    ensures |parts| > 0 && forall i :: 0 <= i < |parts| ==> sep !in parts[i]
  {
    if s == "" then [""]
    else
      var rest := Split(s[1..], sep);
      if s[0] == sep then [""] + rest else [[s[0]] + rest[0]] + rest[1..]
  }

  function Join(parts: seq<string>, sep: string): string {
    if parts == [] then "" else if |parts| == 1 then parts[0] else parts[0] + sep + Join(parts[1..], sep)
  }

  lemma {:induction false} SplitPrefix(piece: string, rest: string, sep: char)
    requires sep !in piece
    ensures Split(piece + rest, sep) == [piece + Split(rest, sep)[0]] + Split(rest, sep)[1..]
  {
    if piece == "" {
      assert piece + rest == rest && piece + Split(rest, sep)[0] == Split(rest, sep)[0];
    } else {
      assert (piece + rest)[1..] == piece[1..] + rest;
      SplitPrefix(piece[1..], rest, sep);
      assert [piece[0]] + (piece[1..] + Split(rest, sep)[0]) == piece + Split(rest, sep)[0];
    }
  }

  /** Splitting undoes joining. */
  lemma {:induction false} SplitJoin(parts: seq<string>, sep: char)
    requires parts != [] && forall i :: 0 <= i < |parts| ==> sep !in parts[i]
    ensures Split(Join(parts, [sep]), sep) == parts
  {
    if |parts| == 1 {
      assert parts[0] + "" == parts[0];
      SplitPrefix(parts[0], "", sep);
    } else {
      var rest := [sep] + Join(parts[1..], [sep]);
      assert rest[1..] == Join(parts[1..], [sep]);
      SplitJoin(parts[1..], sep);
      assert Join(parts, [sep]) == parts[0] + rest;
      SplitPrefix(parts[0], rest, sep);
      assert Split(rest, sep) == [""] + parts[1..];
      assert parts[0] + "" == parts[0];
    }
  }

  lemma {:induction false} JoinIsPart(parts: seq<string>, sep: string, c: char)
    requires c !in sep && forall i :: 0 <= i < |parts| ==> c !in parts[i]
    ensures c !in Join(parts, sep)
  {
    if |parts| > 1 { JoinIsPart(parts[1..], sep, c); }
  }

  lemma JoinFirst(c: char, parts: seq<string>, sep: string)
    requires parts != []
    ensures Join([[c] + parts[0]] + parts[1..], sep) == [c] + Join(parts, sep)
  {
    var all := [[c] + parts[0]] + parts[1..];
    assert all[1..] == parts[1..];
    if |parts| > 1 {
      var rest := Join(parts[1..], sep);
      assert [c] + parts[0] + sep + rest == [c] + (parts[0] + sep + rest);
    }
  }

  /** Joining undoes splitting. */
  lemma {:induction false} JoinSplit(s: string, sep: char)
    ensures Join(Split(s, sep), [sep]) == s
  {
    if s != "" {
      var rest := Split(s[1..], sep);
      JoinSplit(s[1..], sep);
      if s[0] == sep {
        assert ([""] + rest)[1..] == rest;
        assert "" + [sep] + s[1..] == s;
      } else {
        JoinFirst(s[0], rest, [sep]);
        assert [s[0]] + s[1..] == s;
      }
    }
  }

  lemma SplitFirst(s: string, sep: char)
    requires s != ""
    ensures var rest := Split(s[1..], sep);
      Split(s, sep) == if s[0] == sep then [""] + rest else [[s[0]] + rest[0]] + rest[1..]
  {
  }

  lemma AroundFirst(a: string, b: string, sep: char)
    requires a != ""
    ensures var s := a + [sep] + b; s != "" && s[0] == a[0] && s[1..] == a[1..] + [sep] + b
  {
  }

  lemma PiecesTogether(first: string, front: seq<string>, back: seq<string>)
    requires front != []
    ensures [first] + (front + back) == [first] + front + back
    ensures (front + back)[0] == front[0] && [first] + (front + back)[1..] == [first] + front[1..] + back
  {
    assert (front + back)[1..] == front[1..] + back;
  }

  /** The pieces around a separator are those before it and those after it. */
  lemma {:induction false} SplitAround(a: string, b: string, sep: char)
    ensures Split(a + [sep] + b, sep) == Split(a, sep) + Split(b, sep)
  {
    var s := a + [sep] + b;
    hide Split;
    if a == "" {
      assert s[0] == sep && s[1..] == b;
      SplitFirst(s, sep);
      SplitNothing(sep);
    } else {
      AroundFirst(a, b, sep);
      SplitFirst(s, sep);
      SplitFirst(a, sep);
      SplitAround(a[1..], b, sep);
      var front, back := Split(a[1..], sep), Split(b, sep);
      PiecesTogether("", front, back);
      PiecesTogether([a[0]] + front[0], front, back);
    }
  }

  lemma SplitNothing(sep: char)
    ensures Split("", sep) == [""]
  {
  }
}
