/** The gate on operator-written patterns: a one-pass scanner with an explicit stack,
    against what its two rules say of a regular expression's syntax tree. */
module PatternScan {
  import opened Options

  // ---- The scanner ------------------------------------------------------------------

  /** A quantifier read at the head of a text: how long it is, and whether it repeats a
      known number of times. */
  datatype Repeat = Repeat(len: nat, fixed: bool)

  predicate IsDigit(c: char) {
    '0' <= c <= '9'
  }

  function Digits(s: string): (n: nat)
    ensures n <= |s|
    ensures forall i :: 0 <= i < n ==> IsDigit(s[i])
    ensures n < |s| ==> !IsDigit(s[n])
  {
    if s == "" || !IsDigit(s[0]) then 0 else 1 + Digits(s[1..])
  }

  /** Position of the first `c`, or the length when there is none. */
  function Find(s: string, c: char): (n: nat)
    ensures n <= |s|
    ensures forall i :: 0 <= i < n ==> s[i] != c
    ensures n < |s| ==> s[n] == c
  {
    if s == "" || s[0] == c then 0 else 1 + Find(s[1..], c)
  }

  /** Whether the text between braces is a repeat count, and then whether it is a fixed one. */
  function BraceFixed(body: string): Option<bool> {
    var d := Digits(body);
    if d == |body| then if d > 0 then Some(true) else None
    else
      var e := Digits(body[d + 1..]);
      if body[d] == ',' && d + 1 + e == |body| && (d > 0 || e > 0) then Some(false) else None
  }

  function QuantifierAt(s: string): Option<Repeat> {
    if s == "" then None
    else if s[0] == '*' || s[0] == '+' || s[0] == '?' then Some(Repeat(1, false))
    else if s[0] != '{' then None
    else
      var close := Find(s, '}');
      if close == |s| then None
      else match BraceFixed(s[1..close])
        case None => None
        case Some(fixed) => Some(Repeat(close + 1, fixed))
  }

  function Drop(s: string, n: nat): string {
    if n <= |s| then s[n..] else ""
  }

  /** Length of what a class's scan passes over, up to its `]`; an escape counts two. */
  function ClassLength(s: string): nat
    decreases |s|
  {
    if s == "" || s[0] == ']' then 0
    else if s[0] == '\\' then 2 + ClassLength(Drop(s, 2))
    else 1 + ClassLength(s[1..])
  }

  /** Length of the one unit at the head of a text: an escape, a character class, a character. */
  function UnitLength(s: string): nat
    requires s != ""
  {
    if s[0] == '\\' then 2
    else if s[0] == '[' then 2 + ClassLength(s[1..])
    else 1
  }

  function Mark(stack: seq<bool>): (r: seq<bool>)
    requires stack != []
    ensures |r| == |stack|
  {
    stack[|stack| - 1 := true]
  }

  function MarkIf(stack: seq<bool>, risky: bool): (r: seq<bool>)
    requires stack != []
    ensures |r| == |stack|
  {
    if risky then Mark(stack) else stack
  }

  function Bump(variable: nat, q: Repeat): nat {
    if q.fixed then variable else variable + 1
  }

  /** What one turn of the scan does: refuse, or go on with the rest of the pattern. */
  datatype Outcome = Refuse | Go(rest: string, stack: seq<bool>, variable: nat)

  /** A unit or a group has been read; `rest` may begin with its quantifier. */
  function AfterUnit(rest: string, group: bool, stack: seq<bool>, variable: nat): (r: Outcome)
    requires stack != []
    ensures r.Go? ==> r.stack != [] && |r.rest| <= |rest|
  {
    match QuantifierAt(rest)
    case Some(q) => if group then Refuse else Go(Drop(rest, q.len), Mark(stack), Bump(variable, q))
    case None => Go(rest, MarkIf(stack, group), variable)
  }

  /** The group a `)` closes, and the stack without it; the pattern itself is never popped. */
  function Closed(stack: seq<bool>): (r: (bool, seq<bool>))
    requires stack != []
    ensures r.1 != []
  {
    if |stack| > 1 then (stack[|stack| - 1], stack[..|stack| - 1]) else (false, stack)
  }

  function Turn(s: string, stack: seq<bool>, variable: nat): (r: Outcome)
    requires s != "" && stack != []
    ensures r.Go? ==> r.stack != [] && |r.rest| < |s|
  {
    if s[0] == '(' then Go(s[1..], stack + [false], variable)
    else if s[0] == '|' then Go(s[1..], Mark(stack), variable)
    else if s[0] == ')' then AfterUnit(s[1..], Closed(stack).0, Closed(stack).1, variable)
    else AfterUnit(Drop(s, UnitLength(s)), false, stack, variable)
  }

  /** The verdict on what is left of a pattern, with the open groups' risks on the stack
      and `variable` variable-length quantifiers met. */
  function Scan(s: string, stack: seq<bool>, variable: nat): bool
    requires stack != []
    decreases |s|
  {
    if s == "" then variable > 1
    else match Turn(s, stack, variable)
      case Refuse => true
      case Go(rest, open, n) => Scan(rest, open, n)
  }

  method BacktracksBadly(pattern: string) returns (bad: bool)
    ensures bad == Scan(pattern, [false], 0)
  {
    var stack: seq<bool> := [false];
    var variable: nat := 0;
    var i: nat := 0;
    while i < |pattern|
      invariant stack != []
      invariant Scan(Drop(pattern, i), stack, variable) == Scan(pattern, [false], 0)
      decreases |pattern| - i
    {
      var refused;
      refused, i, stack, variable := TakeTurn(pattern, i, stack, variable);
      if refused {
        return true;
      }
    }
    bad := variable > 1;
  }

  method TakeTurn(pattern: string, i: nat, stack: seq<bool>, variable: nat)
    returns (refused: bool, next: nat, open: seq<bool>, count: nat)
    requires i < |pattern| && stack != []
    ensures i < next && open != []
    ensures Turn(Drop(pattern, i), stack, variable) ==
      if refused then Refuse else Go(Drop(pattern, next), open, count)
  {
    hide Turn, AfterUnit, UnitLength;
    TurnAt(pattern, i, stack, variable);
    var c := pattern[i];
    if c == '(' {
      return false, i + 1, stack + [false], variable;
    } else if c == '|' {
      return false, i + 1, Mark(stack), variable;
    } else if c == ')' {
      var group := false;
      open := stack;
      if |stack| > 1 {
        group := stack[|stack| - 1];
        open := stack[..|stack| - 1];
      }
      refused, next, open, count := ReadQuantifier(pattern, i + 1, group, open, variable);
    } else {
      var end := UnitEnd(pattern, i);
      refused, next, open, count := ReadQuantifier(pattern, end, false, stack, variable);
    }
  }

  /** Reads the quantifier at `i`, if there is one, of the unit or group that ends there. */
  method ReadQuantifier(pattern: string, i: nat, group: bool, stack: seq<bool>, variable: nat)
    returns (refused: bool, next: nat, open: seq<bool>, count: nat)
    requires stack != []
    ensures i <= next && open != []
    ensures AfterUnit(Drop(pattern, i), group, stack, variable) ==
      if refused then Refuse else Go(Drop(pattern, next), open, count)
  {
    refused, next, open, count := false, i, MarkIf(stack, group), variable;
    var q := QuantifierAt(Drop(pattern, i));
    if q.Some? {
      refused := group;
      count := Bump(variable, q.value);
      open := Mark(stack);
      DropDrop(pattern, i, q.value.len);
      next := i + q.value.len;
    }
  }

  /** Where the unit at `i` ends. */
  method UnitEnd(pattern: string, i: nat) returns (end: nat)
    requires i < |pattern|
    ensures i < end == i + UnitLength(Drop(pattern, i))
  {
    assert Drop(pattern, i)[0] == pattern[i] && Drop(pattern, i)[1..] == Drop(pattern, i + 1);
    if pattern[i] == '\\' {
      end := i + 2;
    } else if pattern[i] == '[' {
      end := ClassEnd(pattern, i + 1);
      end := end + 1;
    } else {
      end := i + 1;
    }
  }

  method ClassEnd(pattern: string, i: nat) returns (end: nat)
    ensures end == i + ClassLength(Drop(pattern, i))
  {
    end := i;
    while end < |pattern| && pattern[end] != ']'
      invariant i <= end
      invariant end + ClassLength(Drop(pattern, end)) == i + ClassLength(Drop(pattern, i))
      decreases |pattern| - end
    {
      hide ClassLength, Drop;
      ClassStep(pattern, end);
      end := end + if pattern[end] == '\\' then 2 else 1;
    }
  }

  lemma ClassStep(p: string, i: nat)
    requires i < |p| && p[i] != ']'
    ensures var n := if p[i] == '\\' then 2 else 1;
      ClassLength(Drop(p, i)) == n + ClassLength(Drop(p, i + n))
  {
    var s := Drop(p, i);
    assert s[0] == p[i] && s[1..] == Drop(p, i + 1);
    DropDrop(p, i, 2);
  }

  lemma TurnAt(p: string, i: nat, stack: seq<bool>, variable: nat)
    requires i < |p| && stack != []
    ensures Turn(Drop(p, i), stack, variable) ==
      if p[i] == '(' then Go(Drop(p, i + 1), stack + [false], variable)
      else if p[i] == '|' then Go(Drop(p, i + 1), Mark(stack), variable)
      else if p[i] == ')' then AfterUnit(Drop(p, i + 1), Closed(stack).0, Closed(stack).1, variable)
      else AfterUnit(Drop(p, i + UnitLength(Drop(p, i))), false, stack, variable)
  {
    hide AfterUnit, UnitLength;
    assert Drop(p, i)[0] == p[i] && Drop(p, i)[1..] == Drop(p, i + 1);
    DropDrop(p, i, UnitLength(Drop(p, i)));
  }

  lemma DropDrop(s: string, m: nat, n: nat)
    ensures Drop(Drop(s, m), n) == Drop(s, m + n)
  {
  }
}
