/** Regular expressions as syntax trees, and what the scanner's two rules say of them. */
module PatternGrammar {
  import opened Options
  import opened PatternScan

  /** The text of a group or of a whole pattern: pieces one after another, with bars between alternatives. */
  datatype Body =
    | Nil
    | Piece(atom: Atom, repeat: Option<Quantifier>, rest: Body)
    | Bar(rest: Body)

  datatype Atom =
    | Plain(c: char)
    | Escape(c: char)
    | Class(items: seq<ClassItem>)
    | Group(prefix: string, body: Body)

  datatype ClassItem = Member(c: char) | EscapedMember(c: char)

  datatype Quantifier = Quantifier(kind: Kind, lazy: bool)

  datatype Kind =
    | Star
    | Plus
    | Optional
    | Exactly(count: string)
    | AtLeast(low: string)
    | Between(low: string, high: string)

  // ---- Well-formed trees and their text -------------------------------------------------

  predicate IsPlain(c: char) {
    c !in {'\\', '[', '(', ')', '|', '*', '+', '?', '{'}
  }

  predicate IsNumber(s: string) {
    s != "" && forall i :: 0 <= i < |s| ==> IsDigit(s[i])
  }

  /** What may follow a group's `(`: nothing, or `?:`, `?=`, `?!`, `?<=`, `?<!`, `?<name>`. */
  predicate IsPrefix(p: string) {
    p == "" || (|p| > 1 && p[0] == '?' && forall i :: 1 <= i < |p| ==> IsPlain(p[i]))
  }

  predicate KindOk(k: Kind) {
    match k
    case Exactly(n) => IsNumber(n)
    case AtLeast(n) => IsNumber(n)
    case Between(m, n) => IsNumber(m) && IsNumber(n)
    case _ => true
  }

  predicate WellFormed(b: Body) {
    match b
    case Nil => true
    case Bar(rest) => WellFormed(rest)
    case Piece(atom, q, rest) =>
      && WellFormed(rest)
      && (q.Some? ==> KindOk(q.value.kind))
      && (match atom
          case Plain(c) => IsPlain(c)
          case Escape(_) => true
          case Class(items) =>
            forall i :: 0 <= i < |items| && items[i].Member? ==> items[i].c != ']' && items[i].c != '\\'
          case Group(prefix, body) => IsPrefix(prefix) && WellFormed(body))
  }

  function ShowItems(items: seq<ClassItem>): string {
    if items == [] then ""
    else (if items[0].Member? then [items[0].c] else ['\\', items[0].c]) + ShowItems(items[1..])
  }

  function ShowKind(k: Kind): string {
    match k
    case Star => "*"
    case Plus => "+"
    case Optional => "?"
    case Exactly(n) => "{" + n + "}"
    case AtLeast(n) => "{" + n + ",}"
    case Between(m, n) => "{" + m + "," + n + "}"
  }

  function ShowQuantifier(q: Option<Quantifier>): string {
    match q
    case None => ""
    case Some(Quantifier(k, lazy)) => ShowKind(k) + if lazy then "?" else ""
  }

  function ShowAtom(a: Atom): string {
    match a
    case Plain(c) => [c]
    case Escape(c) => ['\\', c]
    case Class(items) => "[" + ShowItems(items) + "]"
    case Group(prefix, body) => "(" + prefix + Show(body) + ")"
  }

  function Show(b: Body): string {
    match b
    case Nil => ""
    case Bar(rest) => "|" + Show(rest)
    case Piece(atom, q, rest) => ShowAtom(atom) + ShowQuantifier(q) + Show(rest)
  }

  // ---- The two rules ----------------------------------------------------------------------

  /** The body repeats or branches, itself or inside a group. */
  predicate Risky(b: Body) {
    match b
    case Nil => false
    case Bar(_) => true
    case Piece(atom, q, rest) => q.Some? || (atom.Group? && Risky(atom.body)) || Risky(rest)
  }

  /** Somewhere a quantifier applies to a group that itself repeats or branches. */
  predicate RepeatsRiskyGroup(b: Body) {
    match b
    case Nil => false
    case Bar(rest) => RepeatsRiskyGroup(rest)
    case Piece(atom, q, rest) =>
      || (atom.Group? && (RepeatsRiskyGroup(atom.body) || (q.Some? && Risky(atom.body))))
      || RepeatsRiskyGroup(rest)
  }

  /** How many quantifiers repeat a number of times that is not fixed. */
  function VariableQuantifiers(b: Body): nat {
    match b
    case Nil => 0
    case Bar(rest) => VariableQuantifiers(rest)
    case Piece(atom, q, rest) =>
      (if q.Some? && !q.value.kind.Exactly? then 1 else 0)
      + (if atom.Group? then VariableQuantifiers(atom.body) else 0)
      + VariableQuantifiers(rest)
  }

  // ---- Reading the text of a tree -----------------------------------------------------------

  /** A text that does not begin with a quantifier. */
  predicate Bare(s: string) {
    s == "" || s[0] !in {'*', '+', '?', '{'}
  }

  lemma Regrouped(x: string, y: string, z: string, post: string)
    ensures x + y + z + post == x + (y + (z + post))
  {
  }

  lemma ShowPiece(a: Atom, q: Option<Quantifier>, rest: Body, post: string)
    ensures Show(Piece(a, q, rest)) + post == ShowAtom(a) + (ShowQuantifier(q) + (Show(rest) + post))
  {
    Regrouped(ShowAtom(a), ShowQuantifier(q), Show(rest), post);
    hide ShowAtom, ShowQuantifier;
  }

  lemma {:induction false} ShowIsBare(b: Body, post: string)
    requires WellFormed(b) && Bare(post)
    ensures Bare(Show(b) + post)
  {
    match b
    case Nil => assert Show(b) + post == post;
    case Bar(rest) => assert (Show(b) + post)[0] == '|';
    case Piece(atom, q, rest) =>
      ShowPiece(atom, q, rest, post);
      AtomIsBare(atom);
      hide *;
      FirstOf(ShowAtom(atom), ShowQuantifier(q) + (Show(rest) + post));
  }

  lemma AtomIsBare(a: Atom)
    requires a.Plain? ==> IsPlain(a.c)
    ensures ShowAtom(a) != "" && Bare(ShowAtom(a))
  {
    hide Show;
  }

  lemma FirstOf(a: string, b: string)
    requires a != "" && Bare(a)
    ensures Bare(a + b)
  {
  }

  lemma DropPrefix(a: string, b: string)
    ensures Drop(a + b, |a|) == b
  {
  }

  lemma {:induction false} DigitsOf(n: string, post: string)
    requires forall i :: 0 <= i < |n| ==> IsDigit(n[i])
    requires post == "" || !IsDigit(post[0])
    ensures Digits(n + post) == |n|
  {
    assert forall i :: 0 <= i < |n| ==> (n + post)[i] == n[i];
    assert post != "" ==> (n + post)[|n|] == post[0];
  }

  lemma {:induction false} FindOf(s: string, c: char, post: string)
    requires forall i :: 0 <= i < |s| ==> s[i] != c
    requires post != "" && post[0] == c
    ensures Find(s + post, c) == |s|
  {
    assert forall i :: 0 <= i < |s| ==> (s + post)[i] == s[i];
    assert (s + post)[|s|] == c;
  }

  function CountText(k: Kind): string
    requires k.Exactly? || k.AtLeast? || k.Between?
  {
    match k
    case Exactly(n) => n
    case AtLeast(n) => n + ","
    case Between(m, n) => m + "," + n
  }

  lemma OneNumberRead(n: string)
    requires IsNumber(n)
    ensures BraceFixed(n) == Some(true)
  {
    DigitsOf(n, "");
    assert n + "" == n;
  }

  lemma TwoNumbersRead(m: string, n: string)
    requires IsNumber(m) && (n == "" || IsNumber(n))
    ensures BraceFixed(m + ("," + n)) == Some(false)
  {
    var t := m + ("," + n);
    DigitsOf(m, "," + n);
    DigitsOf(n, "");
    assert n + "" == n;
    assert t[|m|] == ',' && t[|m| + 1..] == n;
  }

  lemma NumberHasNoBrace(n: string)
    requires IsNumber(n)
    ensures '}' !in n
  {
  }

  predicate AllDigits(s: string) {
    forall i :: 0 <= i < |s| ==> IsDigit(s[i])
  }

  /** What stands between braces, whatever it is, counts as fixed exactly when it is a number, and
      as variable exactly when it is two runs of digits around a comma, not both empty. */
  lemma BracesExactly(body: string)
    ensures BraceFixed(body) == Some(true) <==> IsNumber(body)
    ensures BraceFixed(body) == Some(false) <==> exists c: nat :: CommaAt(body, c)
  {
    if IsNumber(body) { OneNumberRead(body); }
    if BraceFixed(body) == Some(false) {
      assert CommaAt(body, Digits(body));
    }
    if c: nat :| CommaAt(body, c) {
      CommaRead(body, c);
    }
  }

  /** Digits or none, a comma, digits or none, and not none of both. */
  predicate CommaAt(body: string, c: nat) {
    c < |body| && |body| > 1 && body[c] == ',' && AllDigits(body[..c]) && AllDigits(body[c + 1..])
  }

  lemma CommaRead(body: string, c: nat)
    requires CommaAt(body, c)
    ensures BraceFixed(body) == Some(false)
  {
    var m, n := body[..c], body[c + 1..];
    assert m + ("," + n) == body && n + "" == n;
    DigitsOf(m, "," + n);
    DigitsOf(n, "");
  }

  lemma CountRead(k: Kind)
    requires KindOk(k) && (k.Exactly? || k.AtLeast? || k.Between?)
    ensures BraceFixed(CountText(k)) == Some(k.Exactly?)
    ensures '}' !in CountText(k)
  {
    hide BraceFixed, IsNumber;
    match k {
      case Exactly(n) =>
        OneNumberRead(n);
        NumberHasNoBrace(n);
      case AtLeast(n) =>
        TwoNumbersRead(n, "");
        NumberHasNoBrace(n);
        assert "," + "" == ",";
      case Between(m, n) =>
        TwoNumbersRead(m, n);
        NumberHasNoBrace(m);
        NumberHasNoBrace(n);
        assert m + "," + n == m + ("," + n);
    }
  }

  lemma BraceRead(t: string, fixed: bool, post: string)
    requires BraceFixed(t) == Some(fixed) && '}' !in t
    ensures QuantifierAt("{" + t + "}" + post) == Some(Repeat(|t| + 2, fixed))
  {
    var s := "{" + t + "}" + post;
    assert s == ("{" + t) + ("}" + post);
    FindOf("{" + t, '}', "}" + post);
    assert s[1..|t| + 1] == t;
  }

  lemma ShowCounted(k: Kind)
    requires k.Exactly? || k.AtLeast? || k.Between?
    ensures ShowKind(k) == "{" + CountText(k) + "}"
  {
    match k
    case Exactly(n) =>
    case AtLeast(n) => assert "{" + n + ",}" == "{" + (n + ",") + "}";
    case Between(m, n) => assert "{" + m + "," + n + "}" == "{" + (m + "," + n) + "}";
  }

  lemma SymbolRead(k: Kind, post: string)
    requires k.Star? || k.Plus? || k.Optional?
    ensures QuantifierAt(ShowKind(k) + post) == Some(Repeat(|ShowKind(k)|, false))
  {
    assert (ShowKind(k) + post)[0] == ShowKind(k)[0];
  }

  lemma KindRead(k: Kind, post: string)
    requires KindOk(k)
    ensures QuantifierAt(ShowKind(k) + post) == Some(Repeat(|ShowKind(k)|, k.Exactly?))
  {
    hide *;
    if k.Exactly? || k.AtLeast? || k.Between? {
      CountRead(k);
      BraceRead(CountText(k), k.Exactly?, post);
      ShowCounted(k);
    } else {
      SymbolRead(k, post);
    }
  }

  lemma BareHasNone(s: string)
    requires Bare(s)
    ensures QuantifierAt(s).None?
  {
  }

  lemma {:induction false} ClassRead(items: seq<ClassItem>, post: string)
    requires forall i :: 0 <= i < |items| && items[i].Member? ==> items[i].c != ']' && items[i].c != '\\'
    ensures ClassLength(ShowItems(items) + ("]" + post)) == |ShowItems(items)|
    decreases |items|
  {
    var s := ShowItems(items) + ("]" + post);
    if items != [] {
      var one := if items[0].Member? then [items[0].c] else ['\\', items[0].c];
      var more := ShowItems(items[1..]) + ("]" + post);
      assert s == one + more;
      ClassRead(items[1..], post);
      DropPrefix(one, more);
      assert s[0] == one[0];
      assert items[0].Member? ==> s[1..] == more;
    }
  }

  /** An atom that is no group is one unit. */
  lemma UnitRead(a: Atom, post: string)
    requires !a.Group? && WellFormed(Piece(a, None, Nil))
    ensures var s := ShowAtom(a) + post;
      s[0] != '(' && s[0] != ')' && s[0] != '|' && UnitLength(s) == |ShowAtom(a)| && Drop(s, UnitLength(s)) == post
  {
    var s := ShowAtom(a) + post;
    DropPrefix(ShowAtom(a), post);
    if a.Class? {
      ClassRead(a.items, post);
      assert s[1..] == ShowItems(a.items) + ("]" + post);
    }
  }

  // ---- The scan of a tree's text --------------------------------------------------------------

  function RepeatOf(q: Option<Quantifier>): (r: Repeat)
    requires q.Some?
    ensures r.len == |ShowKind(q.value.kind)|
  {
    Repeat(|ShowKind(q.value.kind)|, q.value.kind.Exactly?)
  }

  /** A unit or group followed by its quantifier, if it has one: refused when the group is
      risky and repeated, else read to its end. */
  lemma TailRead(q: Option<Quantifier>, post: string, group: bool, stack: seq<bool>, variable: nat)
    requires stack != [] && Bare(post) && (q.Some? ==> KindOk(q.value.kind))
    ensures var r := AfterUnit(ShowQuantifier(q) + post, group, stack, variable);
      if q.None? then r == Go(post, MarkIf(stack, group), variable)
      else if group then r == Refuse
      else r.Go? && Scan(r.rest, r.stack, r.variable) == Scan(post, Mark(stack), Bump(variable, RepeatOf(q)))
  {
    if q.None? {
      assert ShowQuantifier(q) + post == post;
      BareHasNone(post);
    } else {
      var k, lazy := ShowKind(q.value.kind), if q.value.lazy then "?" else "";
      Regrouped("", k, lazy, post);
      assert ShowQuantifier(q) + post == k + (lazy + post);
      KindRead(q.value.kind, lazy + post);
      hide *;
      AfterQuantifier(k, lazy + post, RepeatOf(q), group, stack, variable);
      LazyTail(lazy, post, Mark(stack), Bump(variable, RepeatOf(q)));
    }
  }

  lemma AfterQuantifier(k: string, rest: string, q: Repeat, group: bool, stack: seq<bool>, variable: nat)
    requires stack != [] && QuantifierAt(k + rest) == Some(q) && q.len == |k|
    ensures AfterUnit(k + rest, group, stack, variable) ==
      if group then Refuse else Go(rest, Mark(stack), Bump(variable, q))
  {
    DropPrefix(k, rest);
    hide QuantifierAt, Drop;
  }

  lemma LazyTail(lazy: string, post: string, stack: seq<bool>, variable: nat)
    requires stack != [] && Bare(post) && (lazy == "" || lazy == "?")
    ensures Scan(lazy + post, stack, variable) == Scan(post, stack, variable)
  {
    hide Scan;
    if lazy == "?" { LazyRead(post, stack, variable); } else { assert lazy + post == post; }
  }

  /** The `?` of a lazy quantifier is one more character to the scan. */
  lemma LazyRead(post: string, stack: seq<bool>, variable: nat)
    requires stack != [] && Bare(post)
    ensures Scan("?" + post, stack, variable) == Scan(post, stack, variable)
  {
    DropPrefix("?", post);
    BareHasNone(post);
  }

  lemma {:induction false} PrefixRead(p: string, post: string, stack: seq<bool>, variable: nat)
    requires stack != [] && Bare(post)
    requires p != "" ==> (IsPlain(p[0]) || p[0] == '?') && forall i :: 1 <= i < |p| ==> IsPlain(p[i])
    ensures Scan(p + post, stack, variable) == Scan(post, stack, variable)
    decreases |p|
  {
    if p == "" {
      assert p + post == post;
    } else {
      var s := p + post;
      assert s == [p[0]] + (p[1..] + post);
      DropPrefix([p[0]], p[1..] + post);
      assert p[1..] != "" ==> (p[1..] + post)[0] == p[1];
      assert p[1..] == "" ==> p[1..] + post == post;
      BareHasNone(p[1..] + post);
      PrefixRead(p[1..], post, stack, variable);
    }
  }

  /** The verdict after a turn. */
  function Resume(r: Outcome): bool
    requires r.Go? ==> r.stack != []
  {
    r.Refuse? || Scan(r.rest, r.stack, r.variable)
  }

  lemma OneTurn(c: char, post: string, stack: seq<bool>, variable: nat)
    requires stack != []
    ensures Scan([c] + post, stack, variable) == Resume(Turn([c] + post, stack, variable))
    ensures c == '(' ==> Turn([c] + post, stack, variable) == Go(post, stack + [false], variable)
    ensures c == '|' ==> Turn([c] + post, stack, variable) == Go(post, Mark(stack), variable)
    ensures c == ')' ==>
      Turn([c] + post, stack, variable) == AfterUnit(post, Closed(stack).0, Closed(stack).1, variable)
  {
    assert ([c] + post)[0] == c && ([c] + post)[1..] == post;
  }

  lemma UnitTurn(a: Atom, post: string, stack: seq<bool>, variable: nat)
    requires stack != [] && !a.Group? && WellFormed(Piece(a, None, Nil))
    ensures Scan(ShowAtom(a) + post, stack, variable) == Resume(AfterUnit(post, false, stack, variable))
  {
    UnitRead(a, post);
  }

  /** Reading a tree's text refuses if a risky group repeats in it, and otherwise leaves the
      stack marked if it is risky and the count raised by its variable-length quantifiers. */
  ghost predicate ReadsAs(b: Body, post: string, stack: seq<bool>, variable: nat)
    requires stack != []
  {
    Scan(Show(b) + post, stack, variable) ==
      (RepeatsRiskyGroup(b) || Scan(post, MarkIf(stack, Risky(b)), variable + VariableQuantifiers(b)))
  }

  lemma {:induction false} ScanOfBody(b: Body, post: string, stack: seq<bool>, variable: nat)
    requires WellFormed(b) && Bare(post) && stack != []
    ensures ReadsAs(b, post, stack, variable)
    decreases b, 2
  {
    hide Turn, AfterUnit;
    match b
    case Nil =>
      assert Show(b) + post == post;
    case Bar(rest) =>
      assert Show(b) + post == ['|'] + (Show(rest) + post);
      OneTurn('|', Show(rest) + post, stack, variable);
      ScanOfBody(rest, post, Mark(stack), variable);
      assert MarkIf(Mark(stack), Risky(rest)) == Mark(stack);
    case Piece(atom, q, rest) =>
      ScanOfPiece(atom, q, rest, post, stack, variable);
  }

  predicate AtomRisky(a: Atom) {
    a.Group? && Risky(a.body)
  }

  predicate AtomRepeatsRisky(a: Atom) {
    a.Group? && RepeatsRiskyGroup(a.body)
  }

  function AtomVariables(a: Atom): nat {
    if a.Group? then VariableQuantifiers(a.body) else 0
  }

  /** The stack and the count behind an atom and its quantifier. */
  function PieceStack(a: Atom, q: Option<Quantifier>, stack: seq<bool>): (r: seq<bool>)
    requires stack != []
    ensures r != []
  {
    MarkIf(stack, q.Some? || AtomRisky(a))
  }

  function PieceCount(a: Atom, q: Option<Quantifier>, variable: nat): nat {
    variable + AtomVariables(a) + if q.Some? && !q.value.kind.Exactly? then 1 else 0
  }

  lemma {:induction false} ScanOfPiece(a: Atom, q: Option<Quantifier>, rest: Body, post: string, stack: seq<bool>,
      variable: nat)
    requires WellFormed(Piece(a, q, rest)) && Bare(post) && stack != []
    ensures ReadsAs(Piece(a, q, rest), post, stack, variable)
    decreases Piece(a, q, rest), 1
  {
    hide Turn, AfterUnit, Scan, Show, Bare, MarkIf;
    PieceBegins(a, q, rest, post, stack, variable);
    ScanOfBody(rest, post, PieceStack(a, q, stack), PieceCount(a, q, variable));
    MarkTwice(stack, q.Some? || AtomRisky(a), Risky(rest));
  }

  lemma {:induction false} PieceBegins(a: Atom, q: Option<Quantifier>, rest: Body, post: string, stack: seq<bool>,
      variable: nat)
    requires WellFormed(Piece(a, q, rest)) && Bare(post) && stack != []
    ensures Scan(Show(Piece(a, q, rest)) + post, stack, variable) ==
      (AtomRepeatsRisky(a) || (q.Some? && AtomRisky(a))
        || Scan(Show(rest) + post, PieceStack(a, q, stack), PieceCount(a, q, variable)))
    decreases Piece(a, q, rest), 0
  {
    hide Turn, AfterUnit, Scan, Show, ShowAtom, ShowQuantifier, Bare, Risky, RepeatsRiskyGroup, VariableQuantifiers;
    ShowPiece(a, q, rest, post);
    ScanOfAtom(a, ShowQuantifier(q) + (Show(rest) + post), stack, variable);
    ShowIsBare(rest, post);
    TailRead(q, Show(rest) + post, AtomRisky(a), stack, variable + AtomVariables(a));
  }

  lemma MarkTwice(stack: seq<bool>, a: bool, b: bool)
    requires stack != []
    ensures MarkIf(MarkIf(stack, a), b) == MarkIf(stack, a || b)
  {
  }

  lemma {:induction false} ScanOfAtom(a: Atom, tail: string, stack: seq<bool>, variable: nat)
    requires WellFormed(Piece(a, None, Nil)) && stack != []
    ensures Scan(ShowAtom(a) + tail, stack, variable) ==
      (AtomRepeatsRisky(a) || Resume(AfterUnit(tail, AtomRisky(a), stack, variable + AtomVariables(a))))
    decreases a, 3
  {
    hide Turn, AfterUnit, Scan;
    if a.Group? {
      ScanOfGroup(a.prefix, a.body, tail, stack, variable);
    } else {
      UnitTurn(a, tail, stack, variable);
    }
  }

  lemma {:induction false} ScanOfGroup(prefix: string, body: Body, tail: string, stack: seq<bool>, variable: nat)
    requires IsPrefix(prefix) && WellFormed(body) && stack != []
    ensures Scan(ShowAtom(Group(prefix, body)) + tail, stack, variable) ==
      (RepeatsRiskyGroup(body) || Resume(AfterUnit(tail, Risky(body), stack, variable + VariableQuantifiers(body))))
    decreases body, 3
  {
    hide Turn, AfterUnit, Scan, Show, ShowAtom, IsPrefix, Closed;
    var close := [')'] + tail;
    GroupText(prefix, body, tail);
    assert Bare(close);
    ShowIsBare(body, close);
    GroupOpens(prefix, Show(body) + close, stack, variable);
    ScanOfBody(body, close, stack + [false], variable);
    CloseTurn(tail, Risky(body), stack, variable + VariableQuantifiers(body));
  }

  lemma GroupText(prefix: string, body: Body, tail: string)
    ensures ShowAtom(Group(prefix, body)) + tail == ['('] + (prefix + (Show(body) + ([')'] + tail)))
  {
    hide Show;
  }

  lemma GroupOpens(prefix: string, inside: string, stack: seq<bool>, variable: nat)
    requires IsPrefix(prefix) && Bare(inside) && stack != []
    ensures Scan(['('] + (prefix + inside), stack, variable) == Scan(inside, stack + [false], variable)
  {
    hide Turn, Scan;
    OneTurn('(', prefix + inside, stack, variable);
    PrefixRead(prefix, inside, stack + [false], variable);
  }

  lemma CloseTurn(tail: string, risky: bool, stack: seq<bool>, variable: nat)
    requires stack != []
    ensures Scan([')'] + tail, MarkIf(stack + [false], risky), variable) ==
      Resume(AfterUnit(tail, risky, stack, variable))
  {
    hide Turn, AfterUnit, Scan;
    var marked := MarkIf(stack + [false], risky);
    OneTurn(')', tail, marked, variable);
    assert marked[|marked| - 1] == risky && marked[..|marked| - 1] == stack;
  }

  /** The gate refuses exactly the patterns in which a quantifier applies to a group that
      repeats or branches, or which have more than one variable-length quantifier. */
  lemma GateIsItsTwoRules(b: Body)
    requires WellFormed(b)
    ensures Scan(Show(b), [false], 0) <==> RepeatsRiskyGroup(b) || VariableQuantifiers(b) > 1
  {
    hide Turn, AfterUnit;
    ScanOfBody(b, "", [false], 0);
    assert Show(b) + "" == Show(b);
  }
}
