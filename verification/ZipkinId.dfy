/** Zipkin trace ids: one spelling per 128-bit number. */
module ZipkinId {
  import opened Options
  import opened Text
  import opened Hex

  // ---- Normalizing ----------------------------------------------------------------------------

  function PadStart(s: string, n: nat): string {
    if |s| < n then Zeros(n - |s|) + s else s
  }

  function Shorten(v: string): string
    requires |v| <= 32
  {
    var padded := PadStart(v, if |v| <= 16 then 16 else 32);
    if |padded| == 32 && padded[..16] == Zeros(16) then padded[16..] else padded
  }

  function Normalize(value: string): Option<string> {
    var v := Lower(Trim(value));
    if !(1 <= |v| <= 32 && IsHex(v)) || v == Zeros(|v|) then None else Some(Shorten(v))
  }

  /** The number a text denotes in hexadecimal of either case, white space around it aside. */
  function Denoted(value: string): Option<nat> {
    var v := Lower(Trim(value));
    if 1 <= |v| <= 32 && IsHex(v) && Number(v) > 0 then Some(Number(v)) else None
  }

  lemma PaddingKeepsNumber(s: string, n: nat)
    requires IsHex(s)
    ensures IsHex(PadStart(s, n)) && Number(PadStart(s, n)) == Number(s)
  {
    if |s| < n {
      NumberOfZeros(Zeros(n - |s|));
      NumberOfJoined(Zeros(n - |s|), s);
    }
  }

  lemma ShorteningKeepsNumber(v: string)
    requires 1 <= |v| <= 32 && IsHex(v)
    ensures var r := Shorten(v);
      IsHex(r) && Number(r) == Number(v) && |r| == if Number(r) < Power(16) then 16 else 32
  {
    var padded := PadStart(v, if |v| <= 16 then 16 else 32);
    PaddingKeepsNumber(v, if |v| <= 16 then 16 else 32);
    NumberBound(padded);
    assert |padded| == if |v| <= 16 then 16 else 32;
    hide Number, Power, PadStart, Zeros;
    if |padded| == 32 {
      ShortExactlyWhenSmall(padded);
    }
  }

  lemma ShortExactlyWhenSmall(s: string)
    requires |s| == 32 && IsHex(s)
    ensures s[..16] == Zeros(16) <==> Number(s) < Power(16)
    ensures s[..16] == Zeros(16) ==> Number(s[16..]) == Number(s)
  {
    var high, low := s[..16], s[16..];
    assert s == high + low;
    hide *;
    HexJoined(high, low);
    HighDigits(high, low);
  }

  lemma HighDigits(high: string, low: string)
    requires |high| == |low| == 16 && IsHex(high) && IsHex(low) && IsHex(high + low)
    ensures high == Zeros(16) <==> Number(high + low) < Power(16)
    ensures high == Zeros(16) ==> Number(low) == Number(high + low)
  {
    hide *;
    NumberOfJoined(high, low);
    NumberOfZeros(high);
    NumberBound(low);
    LongExactlyWhenHigh(Number(high), Number(low), Power(16));
  }

  /** A result spells the number its input denotes, in 16 digits where they are enough and else
      in 32; there is none exactly where the input denotes no number. */
  lemma NormalSpelling(value: string)
    ensures Normalize(value).Some? <==> Denoted(value).Some?
    ensures Normalize(value).Some? ==>
      var r := Normalize(value).value;
      && IsHex(r) && Number(r) == Denoted(value).value
      && |r| == if Number(r) < Power(16) then 16 else 32
  {
    hide Trim, Lower, Number, Power, Shorten, Zeros;
    var v := Lower(Trim(value));
    if 1 <= |v| <= 32 && IsHex(v) {
      NumberOfZeros(v);
      ShorteningKeepsNumber(v);
    }
  }

  lemma LongExactlyWhenHigh(high: nat, low: nat, unit: nat)
    requires low < unit
    ensures high * unit + low < unit <==> high == 0
  {
    if high > 0 { assert high * unit >= unit; } else { assert high * unit == 0; }
  }

  /** Two inputs normalize to one result exactly when they denote the same number, or neither
      denotes one. */
  lemma OneSpellingPerNumber(a: string, b: string)
    ensures Normalize(a) == Normalize(b) <==> Denoted(a) == Denoted(b)
  {
    NormalSpelling(a);
    NormalSpelling(b);
    hide Normalize, Denoted, Number, Power;
    if Denoted(a).Some? && Denoted(a) == Denoted(b) {
      SameNumberSameDigits(Normalize(a).value, Normalize(b).value);
    }
  }

  lemma HexIsPlain(r: string)
    requires IsHex(r)
    ensures Lower(Trim(r)) == r
  {
    hide Trim;
    TrimTrims(r);
    assert Lower(r) == r;
  }

  /** A result normalizes to itself. */
  lemma NormalizedIsFixed(value: string)
    requires Normalize(value).Some?
    ensures Normalize(Normalize(value).value) == Normalize(value)
    ensures Denoted(Normalize(value).value) == Denoted(value)
  {
    NormalSpelling(value);
    var r := Normalize(value).value;
    HexIsPlain(r);
    assert Denoted(value).value > 0;
    hide Normalize, Number, Power, Lower, Trim;
    OneSpellingPerNumber(value, r);
  }

  // ---- Which number a text denotes --------------------------------------------------------------

  /** The hexadecimal digits of a number, each of either case. */
  predicate IsDigitOf(c: char, d: nat) {
    d < 16 && (c == "0123456789abcdef"[d] || c == "0123456789ABCDEF"[d])
  }

  predicate AreDigits(s: string, digits: seq<nat>) {
    |s| == |digits| && forall i :: 0 <= i < |s| ==> IsDigitOf(s[i], digits[i])
  }

  function ValueOf(digits: seq<nat>): nat {
    if digits == [] then 0 else 16 * ValueOf(digits[..|digits| - 1]) + digits[|digits| - 1]
  }

  lemma LowerDigit(c: char, d: nat)
    requires IsDigitOf(c, d)
    ensures IsHexDigit(LowerChar(c)) && DigitValue(LowerChar(c)) == d && !IsSpace(c)
  {
  }

  lemma {:induction false} LowerDigits(s: string, digits: seq<nat>)
    requires AreDigits(s, digits)
    ensures IsHex(Lower(s)) && Number(Lower(s)) == ValueOf(digits)
  {
    forall i | 0 <= i < |s| ensures IsHexDigit(Lower(s)[i]) { LowerDigit(s[i], digits[i]); }
    if s != "" {
      var n := |s| - 1;
      LowerDigit(s[n], digits[n]);
      LowerDigits(s[..n], digits[..n]);
      assert Lower(s)[..n] == Lower(s[..n]);
    }
  }

  /** Up to 32 digits of a number that is not zero, whatever white space surrounds them, denote it;
      of no other number of digits does a text denote any. */
  lemma DenotedByDigits(front: string, s: string, back: string, digits: seq<nat>)
    requires AllSpace(front) && AllSpace(back) && AreDigits(s, digits)
    ensures Denoted(front + s + back) ==
      if 1 <= |s| <= 32 && ValueOf(digits) > 0 then Some(ValueOf(digits)) else None
  {
    LowerDigits(s, digits);
    if s != "" {
      LowerDigit(s[0], digits[0]);
      LowerDigit(s[|s| - 1], digits[|s| - 1]);
    }
    TrimExactly(front, s, back);
    hide Trim, Lower, Number, ValueOf, AllSpace;
  }

  lemma DigitOf(c: char) returns (d: nat)
    requires IsHexDigit(LowerChar(c))
    ensures IsDigitOf(c, d)
  {
    d := DigitValue(LowerChar(c));
  }

  lemma {:induction false} DigitsOfText(s: string) returns (digits: seq<nat>)
    requires IsHex(Lower(s))
    ensures AreDigits(s, digits)
  {
    if s == "" {
      digits := [];
    } else {
      assert Lower(s)[0] == LowerChar(s[0]) && Lower(s)[1..] == Lower(s[1..]);
      var d := DigitOf(s[0]);
      var rest := DigitsOfText(s[1..]);
      digits := [d] + rest;
    }
  }

  /** And a text that denotes a number consists of its digits and white space around them. */
  lemma DenotingTexts(value: string) returns (front: string, s: string, back: string, digits: seq<nat>)
    requires Denoted(value).Some?
    ensures value == front + s + back && AllSpace(front) && AllSpace(back)
    ensures AreDigits(s, digits) && 1 <= |s| <= 32 && Denoted(value) == Some(ValueOf(digits))
  {
    front, back := TrimLeaves(value);
    s := Trim(value);
    digits := DigitsOfText(s);
    hide Trim, AllSpace, ValueOf, Number;
    DenotedByDigits(front, s, back, digits);
  }

  // ---- A list of ids --------------------------------------------------------------------------

  datatype Parsed = Ids(ids: seq<string>) | Invalid(text: string)

  predicate IsBlank(value: string) {
    Trim(value) == ""
  }

  /** The results of the inputs that are not blank, each once, as first seen. */
  function FirstSeen(raw: seq<string>): seq<string> {
    if raw == [] then []
    else
      var before, last := FirstSeen(raw[..|raw| - 1]), raw[|raw| - 1];
      if !IsBlank(last) && Normalize(last).Some? && Normalize(last).value !in before
      then before + [Normalize(last).value] else before
  }

  predicate Reads(value: string) {
    IsBlank(value) || Normalize(value).Some?
  }

  /** An input is passed over if and only if it is white space alone. */
  lemma BlankExactly(value: string)
    ensures IsBlank(value) <==> AllSpace(value)
  {
    if AllSpace(value) {
      TrimExactly(value, "", "");
      assert value + "" + "" == value;
    }
    if IsBlank(value) {
      var front, back := TrimLeaves(value);
    }
  }

  lemma BlankReadsAsNone(value: string)
    requires IsBlank(value)
    ensures Normalize(value).None?
  {
  }

  method ParseTraceIds(raw: seq<string>) returns (p: Parsed)
    ensures p.Ids? ==> (forall i :: 0 <= i < |raw| ==> Reads(raw[i])) && p.ids == FirstSeen(raw)
    ensures p.Invalid? ==>
      exists i :: 0 <= i < |raw| && !Reads(raw[i]) && p.text == Trim(raw[i]) && forall j :: 0 <= j < i ==> Reads(raw[j])
  {
    var ids: seq<string> := [];
    hide Normalize, IsBlank;
    for i := 0 to |raw|
      invariant forall j :: 0 <= j < i ==> Reads(raw[j])
      invariant ids == FirstSeen(raw[..i])
    {
      assert raw[..i + 1][..i] == raw[..i] && raw[..i + 1][i] == raw[i];
      if IsBlank(raw[i]) { continue; }
      var id := Normalize(raw[i]);
      if id.None? { return Invalid(Trim(raw[i])); }
      if id.value !in ids { ids := ids + [id.value]; }
    }
    assert raw[..|raw|] == raw;
    p := Ids(ids);
  }

  lemma FirstSeenStep(raw: seq<string>)
    requires raw != []
    ensures var before, id := FirstSeen(raw[..|raw| - 1]), Normalize(raw[|raw| - 1]);
      FirstSeen(raw) == if id.Some? && id.value !in before then before + [id.value] else before
  {
    if IsBlank(raw[|raw| - 1]) { BlankReadsAsNone(raw[|raw| - 1]); }
    hide Normalize, IsBlank;
  }

  ghost predicate Normal(raw: seq<string>, id: string) {
    exists i :: 0 <= i < |raw| && Normalize(raw[i]) == Some(id)
  }

  lemma NormalStep(raw: seq<string>, last: string, id: string)
    ensures Normal(raw + [last], id) <==> Normal(raw, id) || Normalize(last) == Some(id)
  {
    hide Normalize;
    var all := raw + [last];
    assert all[|raw|] == last && forall i :: 0 <= i < |raw| ==> all[i] == raw[i];
  }

  /** What is listed is what the inputs normalize to. */
  lemma {:induction false} FirstSeenAre(raw: seq<string>, id: string)
    ensures id in FirstSeen(raw) <==> Normal(raw, id)
  {
    hide *;
    if |raw| == 0 {
      NothingNormal(id);
    } else {
      var before, last := raw[..|raw| - 1], raw[|raw| - 1];
      FirstSeenAre(before, id);
      FirstSeenStep(raw);
      NormalStep(before, last, id);
      assert raw == before + [last];
    }
  }

  lemma NothingNormal(id: string)
    ensures FirstSeen([]) == [] && !Normal([], id)
  {
  }

  /** The text at `i` is the first to denote the number of `id`. */
  ghost predicate FirstOf(raw: seq<string>, id: string, i: int) {
    && 0 <= i < |raw| && Denoted(id).Some? && Denoted(raw[i]) == Denoted(id)
    && forall j :: 0 <= j < i ==> Denoted(raw[j]) != Denoted(id)
  }

  lemma FirstOfMore(raw: seq<string>, last: string, id: string, i: int)
    requires FirstOf(raw, id, i)
    ensures FirstOf(raw + [last], id, i) && i < |raw|
  {
    hide Denoted;
    assert forall j :: 0 <= j <= i ==> (raw + [last])[j] == raw[j];
  }

  lemma NewNumber(raw: seq<string>, last: string)
    requires Normalize(last).Some? && Normalize(last).value !in FirstSeen(raw)
    ensures FirstOf(raw + [last], Normalize(last).value, |raw|)
  {
    FirstSeenAre(raw, Normalize(last).value);
    NormalizedIsFixed(last);
    NormalSpelling(last);
    hide Normalize, Denoted, FirstSeen, Number, Power;
    forall j | 0 <= j < |raw| ensures Denoted((raw + [last])[j]) != Denoted(last) {
      OneSpellingPerNumber(raw[j], last);
    }
  }

  /** Each entry has a place in the input where its number is first seen, and later entries
      have later places: no two entries are one number. */
  ghost predicate InOrderSeen(raw: seq<string>, ids: seq<string>, at: seq<int>) {
    && |at| == |ids|
    && (forall x :: 0 <= x < |at| ==> FirstOf(raw, ids[x], at[x]))
    && (forall x, y :: 0 <= x < y < |at| ==> at[x] < at[y])
  }

  lemma InOrderSeenMore(raw: seq<string>, last: string, ids: seq<string>, at: seq<int>)
    requires InOrderSeen(raw, ids, at)
    ensures InOrderSeen(raw + [last], ids, at) && forall x :: 0 <= x < |at| ==> at[x] < |raw|
  {
    forall x | 0 <= x < |at| ensures FirstOf(raw + [last], ids[x], at[x]) && at[x] < |raw| {
      FirstOfMore(raw, last, ids[x], at[x]);
    }
  }

  lemma InOrderSeenAppend(raw: seq<string>, ids: seq<string>, at: seq<int>, id: string, i: int)
    requires InOrderSeen(raw, ids, at) && FirstOf(raw, id, i) && forall x :: 0 <= x < |at| ==> at[x] < i
    ensures InOrderSeen(raw, ids + [id], at + [i])
  {
    hide FirstOf;
  }

  lemma NothingListed()
    ensures FirstSeen([]) == [] && InOrderSeen([], [], [])
  {
  }

  lemma {:induction false} ListedInOrderSeen(raw: seq<string>) returns (at: seq<int>)
    ensures InOrderSeen(raw, FirstSeen(raw), at)
  {
    hide *;
    if |raw| == 0 {
      NothingListed();
      at := [];
    } else {
      var before, last := raw[..|raw| - 1], raw[|raw| - 1];
      at := ListedInOrderSeen(before);
      FirstSeenStep(raw);
      assert before + [last] == raw;
      InOrderSeenMore(before, last, FirstSeen(before), at);
      if FirstSeen(raw) != FirstSeen(before) {
        NewNumber(before, last);
        InOrderSeenAppend(raw, FirstSeen(before), at, Normalize(last).value, |before|);
        at := at + [|before|];
      }
    }
  }

  /** Every number the inputs denote is listed. */
  lemma EveryNumberIsListed(raw: seq<string>, i: nat)
    requires i < |raw| && Denoted(raw[i]).Some?
    ensures exists id :: id in FirstSeen(raw) && Denoted(id) == Denoted(raw[i])
  {
    NormalSpelling(raw[i]);
    FirstSeenAre(raw, Normalize(raw[i]).value);
    NormalizedIsFixed(raw[i]);
  }
}
