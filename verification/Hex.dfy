/** Numbers in lower-case hexadecimal digits. */
module Hex {
  predicate IsHexDigit(c: char) {
    '0' <= c <= '9' || 'a' <= c <= 'f'
  }

  predicate IsHex(s: string) {
    forall i :: 0 <= i < |s| ==> IsHexDigit(s[i])
  }

  function DigitValue(c: char): (d: nat)
    requires IsHexDigit(c)
    ensures d < 16
  {
    if c <= '9' then c as int - '0' as int else c as int - 'a' as int + 10
  }

  function Number(s: string): nat
    requires IsHex(s)
  {
    if s == "" then 0 else 16 * Number(s[..|s| - 1]) + DigitValue(s[|s| - 1])
  }

  function Power(n: nat): (p: nat)
    ensures p > 0
  {
    if n == 0 then 1 else 16 * Power(n - 1)
  }

  function Zeros(n: nat): string {
    seq(n, i => '0')
  }

  lemma {:induction false} NumberBound(s: string)
    requires IsHex(s)
    ensures Number(s) < Power(|s|)
  {
    if s != "" { NumberBound(s[..|s| - 1]); }
  }

  lemma Scaled(x: nat, p: nat)
    ensures x * (16 * p) == 16 * (x * p)
  {
  }

  lemma HexJoined(a: string, b: string)
    ensures IsHex(a + b) <==> IsHex(a) && IsHex(b)
  {
    var all := a + b;
    assert forall i :: 0 <= i < |a| ==> all[i] == a[i];
    assert forall i :: 0 <= i < |b| ==> all[|a| + i] == b[i];
  }

  lemma {:induction false} NumberOfJoined(a: string, b: string)
    requires IsHex(a) && IsHex(b)
    ensures IsHex(a + b) && Number(a + b) == Number(a) * Power(|b|) + Number(b)
  {
    HexJoined(a, b);
    if b == "" {
      assert a + b == a;
    } else {
      var fewer, last := b[..|b| - 1], b[|b| - 1];
      assert (a + b)[..|a + b| - 1] == a + fewer && (a + b)[|a + b| - 1] == last;
      NumberOfJoined(a, fewer);
      Scaled(Number(a), Power(|fewer|));
      assert Number(a + b) == 16 * Number(a + fewer) + DigitValue(last);
    }
  }

  lemma {:induction false} NumberOfZeros(s: string)
    requires IsHex(s)
    ensures Number(s) == 0 <==> s == Zeros(|s|)
  {
    if s != "" {
      NumberOfZeros(s[..|s| - 1]);
      assert Zeros(|s|)[..|s| - 1] == Zeros(|s| - 1);
      assert s == s[..|s| - 1] + [s[|s| - 1]];
    }
  }

  lemma {:induction false} SameNumberSameDigits(a: string, b: string)
    requires IsHex(a) && IsHex(b) && |a| == |b| && Number(a) == Number(b)
    ensures a == b
  {
    if a != "" {
      SameNumberSameDigits(a[..|a| - 1], b[..|b| - 1]);
      assert a == a[..|a| - 1] + [a[|a| - 1]] && b == b[..|b| - 1] + [b[|b| - 1]];
    }
  }
}
