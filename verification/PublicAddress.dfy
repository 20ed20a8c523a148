/** Which addresses a document may be fetched from. */
module PublicAddress {
  import opened Options
  import opened Text
  import opened Ipv6

  // ---- IPv4 -----------------------------------------------------------------------------------

  /** The value of a part of a dotted address: blank counts as zero. */
  function NumberOf(part: string): Option<nat> {
    var t := Trim(part);
    if t == "" then Some(0) else if IsDigits(t) then Some(Decimal(t)) else None
  }

  function PublicQuad(q: seq<nat>): bool
    requires |q| == 4
  {
    var a, b := q[0], q[1];
    if a == 0 || a == 127 || a == 10 then false
    else if a == 172 && b >= 16 && b <= 31 then false
    else if a == 192 && b == 168 then false
    else if a == 169 && b == 254 then false
    else if a == 100 && b >= 64 && b <= 127 then false
    else if a == 198 && (b == 18 || b == 19) then false
    else if a >= 224 then false
    else true
  }

  predicate IsOctetPart(part: string) {
    NumberOf(part).Some? && NumberOf(part).value <= 255
  }

  function OctetOf(part: string): nat {
    if NumberOf(part).Some? then NumberOf(part).value else 0
  }

  predicate PublicV4(ip: string) {
    var parts := Split(ip, '.');
    && |parts| == 4
    && (forall i :: 0 <= i < 4 ==> IsOctetPart(parts[i]))
    && PublicQuad([OctetOf(parts[0]), OctetOf(parts[1]), OctetOf(parts[2]), OctetOf(parts[3])])
  }

  // ---- IPv6 -----------------------------------------------------------------------------------

  function DecimalText(n: nat): (s: string)
    ensures IsDigits(s) && Decimal(s) == n
  {
    var last := [('0' as int + n % 10) as char];
    if n < 10 then last
    else
      var s := DecimalText(n / 10) + last;
      assert s[..|s| - 1] == DecimalText(n / 10);
      s
  }

  function Octets(hi: nat, lo: nat): seq<nat> {
    [hi / 256, hi % 256, lo / 256, lo % 256]
  }

  /** The dotted quad held in two groups. */
  function V4Text(hi: nat, lo: nat): string {
    var q := Octets(hi, lo);
    Join([DecimalText(q[0]), DecimalText(q[1]), DecimalText(q[2]), DecimalText(q[3])], ".")
  }

  predicate IsAddress(h: seq<nat>) {
    |h| == 8 && forall i :: 0 <= i < 8 ==> h[i] < 65536
  }

  predicate AllZero(h: seq<nat>) {
    forall i :: 0 <= i < |h| ==> h[i] == 0
  }

  predicate PublicGroups(h: seq<nat>)
    requires |h| == 8
  {
    if AllZero(h) then false
    else if h[0] >= 0xfe80 && h[0] <= 0xfebf then false
    else if h[0] >= 0xfec0 && h[0] <= 0xfeff then false
    else if h[0] >= 0xfc00 && h[0] <= 0xfdff then false
    else if h[0] >= 0xff00 then false
    else if h[0] == 0x2001 && h[1] == 0 then false
    else if h[0] == 0x2002 then PublicV4(V4Text(h[1], h[2]))
    else if h[0] == 0x0064 && h[1] == 0xff9b then PublicV4(V4Text(h[6], h[7]))
    else if AllZero(h[..5]) && (h[5] == 0 || h[5] == 0xffff) then PublicV4(V4Text(h[6], h[7]))
    else h[0] != 0
  }

  function Unbracketed(s: string): string {
    var t := if s != "" && s[0] == '[' then s[1..] else s;
    if t != "" && t[|t| - 1] == ']' then t[..|t| - 1] else t
  }

  predicate IsLineEnd(c: char) {
    c == '\n' || c == '\r' || c == '\U{2028}' || c == '\U{2029}'
  }

  /** The text without its zone: from the first percent sign that no line end follows. */
  function WithoutZone(s: string): string {
    if s == "" then ""
    else if s[0] == '%' && forall i :: 0 <= i < |s| ==> !IsLineEnd(s[i]) then ""
    else [s[0]] + WithoutZone(s[1..])
  }

  predicate IsPublicAddress(ip: string, family: nat) {
    if family == 6 then
      match Hextets(WithoutZone(Unbracketed(Lower(ip))))
      case None => false
      case Some(h) => PublicGroups(h)
    else PublicV4(ip)
  }

  // ---- The ranges are blocks of addresses -----------------------------------------------------

  /** Addresses that begin with the first `bits` bits of `start`. */
  datatype Block = Block(start: seq<nat>, bits: nat)

  function Pow2(n: nat): (p: nat)
    ensures p > 0
  {
    if n == 0 then 1 else 2 * Pow2(n - 1)
  }

  /** Whether an address, given in digits of `width` bits, is in a block. */
  predicate InBlock(address: seq<nat>, width: nat, b: Block) {
    && width > 0 && b.bits / width < |address| && b.bits / width < |b.start|
    && (forall i :: 0 <= i < b.bits / width ==> address[i] == b.start[i])
    && address[b.bits / width] / Pow2(width - b.bits % width) == b.start[b.bits / width] / Pow2(width - b.bits % width)
  }

  const PRIVATE_V4: seq<Block> := [
    Block([0, 0, 0, 0], 8), Block([127, 0, 0, 0], 8), Block([10, 0, 0, 0], 8),
    Block([172, 16, 0, 0], 12), Block([192, 168, 0, 0], 16), Block([169, 254, 0, 0], 16),
    Block([100, 64, 0, 0], 10), Block([198, 18, 0, 0], 15), Block([224, 0, 0, 0], 3)]

  predicate InAny(address: seq<nat>, width: nat, blocks: seq<Block>) {
    exists i :: 0 <= i < |blocks| && InBlock(address, width, blocks[i])
  }

  predicate IsQuadValue(q: seq<nat>) {
    |q| == 4 && forall i :: 0 <= i < 4 ==> q[i] <= 255
  }

  lemma Powers()
    ensures Pow2(1) == 2 && Pow2(4) == 16 && Pow2(5) == 32 && Pow2(6) == 64 && Pow2(7) == 128
    ensures Pow2(8) == 256 && Pow2(9) == 512 && Pow2(16) == 65536
  {
    assert Pow2(2) == 4 && Pow2(3) == 8;
    assert Pow2(10) == 1024 && Pow2(11) == 2048 && Pow2(12) == 4096;
    assert Pow2(13) == 8192 && Pow2(14) == 16384 && Pow2(15) == 32768;
  }

  lemma V4Block(q: seq<nat>, b: Block)
    requires IsQuadValue(q) && b in PRIVATE_V4
    ensures InBlock(q, 8, b) ==> !PublicQuad(q)
  {
    Powers();
  }

  /** An IPv4 address is public exactly when it is in none of the private blocks. */
  lemma PublicQuadExactly(q: seq<nat>)
    requires IsQuadValue(q)
    ensures PublicQuad(q) <==> !InAny(q, 8, PRIVATE_V4)
  {
    if InAny(q, 8, PRIVATE_V4) {
      var i :| 0 <= i < |PRIVATE_V4| && InBlock(q, 8, PRIVATE_V4[i]);
      V4Block(q, PRIVATE_V4[i]);
    }
    if !PublicQuad(q) {
      PrivateInBlock(q);
    }
  }

  /** A part of a dotted address says a number: in decimal digits, white space around them, or
      blank for none. */
  ghost predicate Says(part: string, n: nat) {
    exists front, digits, back :: SaysIn(part, n, front, digits, back)
  }

  ghost predicate SaysIn(part: string, n: nat, front: string, digits: string, back: string) {
    && part == front + digits + back && AllSpace(front) && AllSpace(back) && IsTrimmed(digits)
    && if digits == "" then n == 0 else IsDigits(digits) && Decimal(digits) == n
  }

  lemma SaysExactly(part: string, n: nat)
    ensures Says(part, n) <==> NumberOf(part) == Some(n)
  {
    var front, back := TrimLeaves(part);
    TrimTrims(part);
    hide Trim, IsSpace, IsDigits, Decimal;
    assert NumberOf(part) == Some(n) ==> SaysIn(part, n, front, Trim(part), back);
    if a, digits, b :| SaysIn(part, n, a, digits, b) {
      TrimExactly(a, digits, b);
    }
  }

  /** Four parts that say four numbers. */
  ghost predicate SaysQuad(ip: string, q: seq<nat>) {
    |q| == 4 && |Split(ip, '.')| == 4 && forall i :: 0 <= i < 4 ==> Says(Split(ip, '.')[i], q[i])
  }

  /** A dotted text is a public address exactly when its four parts say numbers up to 255 that are in
      no private block. */
  lemma DottedExactly(ip: string)
    ensures PublicV4(ip) <==> exists q :: SaysQuad(ip, q) && IsQuadValue(q) && !InAny(q, 8, PRIVATE_V4)
  {
    var parts := Split(ip, '.');
    hide NumberOf, Says, PublicQuad, InAny, Split;
    if PublicV4(ip) {
      var q := [OctetOf(parts[0]), OctetOf(parts[1]), OctetOf(parts[2]), OctetOf(parts[3])];
      forall i | 0 <= i < 4 ensures Says(parts[i], q[i]) && q[i] <= 255 {
        assert IsOctetPart(parts[i]);
        SaysExactly(parts[i], q[i]);
      }
      PublicQuadExactly(q);
      assert SaysQuad(ip, q);
    }
    if q :| SaysQuad(ip, q) && IsQuadValue(q) && !InAny(q, 8, PRIVATE_V4) {
      PublicQuadExactly(q);
      forall i | 0 <= i < 4 ensures NumberOf(parts[i]) == Some(q[i]) && IsOctetPart(parts[i]) {
        SaysExactly(parts[i], q[i]);
      }
      assert OctetOf(parts[0]) == q[0] && OctetOf(parts[1]) == q[1];
      assert OctetOf(parts[2]) == q[2] && OctetOf(parts[3]) == q[3];
      assert q == [OctetOf(parts[0]), OctetOf(parts[1]), OctetOf(parts[2]), OctetOf(parts[3])];
    }
  }

  lemma PrivateInBlock(q: seq<nat>)
    requires IsQuadValue(q) && !PublicQuad(q)
    ensures InAny(q, 8, PRIVATE_V4)
  {
    Powers();
    var a, b := q[0], q[1];
    var k := if a == 0 then 0 else if a == 127 then 1 else if a == 10 then 2 else if a == 172 then 3
      else if a == 192 then 4 else if a == 169 then 5 else if a == 100 then 6 else if a == 198 then 7 else 8;
    assert InBlock(q, 8, PRIVATE_V4[k]);
  }

  function OnlyFirst(first: seq<nat>): seq<nat>
    requires |first| <= 8
  {
    first + seq(8 - |first|, i => 0)
  }

  const SIX_TO_FOUR := Block(OnlyFirst([0x2002]), 16)
  const NAT64 := Block(OnlyFirst([0x64, 0xff9b]), 32)
  const COMPATIBLE := Block(OnlyFirst([]), 96)
  const MAPPED := Block(OnlyFirst([0, 0, 0, 0, 0, 0xffff]), 96)

  const RESERVED_V6: seq<Block> := [
    Block(OnlyFirst([0xfe80]), 10), Block(OnlyFirst([0xfec0]), 10), Block(OnlyFirst([0xfc00]), 7),
    Block(OnlyFirst([0xff00]), 8), Block(OnlyFirst([0x2001]), 32), Block(OnlyFirst([]), 16)]

  /** The IPv4 address inside an IPv6 one, where its block says there is one. */
  function Carried(h: seq<nat>): Option<seq<nat>>
    requires |h| == 8
  {
    if InBlock(h, 16, SIX_TO_FOUR) then Some(Octets(h[1], h[2]))
    else if InBlock(h, 16, NAT64) || InBlock(h, 16, COMPATIBLE) || InBlock(h, 16, MAPPED) then Some(Octets(h[6], h[7]))
    else None
  }

  lemma DigitsTrimmed(s: string)
    requires IsDigits(s)
    ensures Trim(s) == s && NumberOf(s) == Some(Decimal(s)) && '.' !in s
  {
    hide Trim, Decimal;
    TrimTrims(s);
  }

  lemma QuadTextIsRead(texts: seq<string>, q: seq<nat>)
    requires |texts| == 4 && IsQuadValue(q)
    requires forall i :: 0 <= i < 4 ==> IsDigits(texts[i]) && Decimal(texts[i]) == q[i]
    ensures PublicV4(Join(texts, ".")) == PublicQuad(q)
  {
    hide Decimal, NumberOf, PublicQuad, IsDigits, Split, Join;
    forall i | 0 <= i < 4 ensures '.' !in texts[i] && NumberOf(texts[i]) == Some(q[i]) {
      DigitsTrimmed(texts[i]);
    }
    SplitJoin(texts, '.');
    assert ['.'] == ".";
    assert [OctetOf(texts[0]), OctetOf(texts[1]), OctetOf(texts[2]), OctetOf(texts[3])] == q;
  }

  lemma V4TextIsRead(hi: nat, lo: nat)
    requires hi < 65536 && lo < 65536
    ensures PublicV4(V4Text(hi, lo)) == PublicQuad(Octets(hi, lo)) && IsQuadValue(Octets(hi, lo))
  {
    var q := Octets(hi, lo);
    hide Decimal, DecimalText, IsDigits, PublicQuad, PublicV4, Join;
    QuadTextIsRead([DecimalText(q[0]), DecimalText(q[1]), DecimalText(q[2]), DecimalText(q[3])], q);
  }

  lemma CarrierBlocks(h: seq<nat>)
    requires IsAddress(h)
    ensures InBlock(h, 16, SIX_TO_FOUR) <==> h[0] == 0x2002
    ensures InBlock(h, 16, NAT64) <==> h[0] == 0x64 && h[1] == 0xff9b
    ensures InBlock(h, 16, COMPATIBLE) || InBlock(h, 16, MAPPED) <==> AllZero(h[..5]) && (h[5] == 0 || h[5] == 0xffff)
  {
    Powers();
  }

  lemma ReservedBlocks(h: seq<nat>)
    requires IsAddress(h)
    ensures InBlock(h, 16, RESERVED_V6[0]) <==> 0xfe80 <= h[0] <= 0xfebf
    ensures InBlock(h, 16, RESERVED_V6[1]) <==> 0xfec0 <= h[0] <= 0xfeff
    ensures InBlock(h, 16, RESERVED_V6[2]) <==> 0xfc00 <= h[0] <= 0xfdff
  {
    Powers();
  }

  lemma MoreReservedBlocks(h: seq<nat>)
    requires IsAddress(h)
    ensures InBlock(h, 16, RESERVED_V6[3]) <==> 0xff00 <= h[0]
    ensures InBlock(h, 16, RESERVED_V6[4]) <==> h[0] == 0x2001 && h[1] == 0
    ensures InBlock(h, 16, RESERVED_V6[5]) <==> h[0] == 0
  {
    Powers();
  }

  lemma OutsideReserved(h: seq<nat>)
    requires IsAddress(h)
    ensures InAny(h, 16, RESERVED_V6) <==>
      || h[0] == 0 || h[0] >= 0xff00 || 0xfc00 <= h[0] <= 0xfdff || 0xfe80 <= h[0] <= 0xfeff
      || (h[0] == 0x2001 && h[1] == 0)
  {
    ReservedBlocks(h);
    MoreReservedBlocks(h);
    hide InBlock;
    assert |RESERVED_V6| == 6;
    if h[0] == 0 { assert InBlock(h, 16, RESERVED_V6[5]); }
  }

  /** What a reader of the ranges expects: an address that carries an IPv4 one is as public as
      that one, and any other is public exactly when it is in no reserved block. */
  ghost predicate Verdict(h: seq<nat>)
    requires |h| == 8
  {
    match Carried(h)
    case Some(q) => !InAny(q, 8, PRIVATE_V4)
    case None => !InAny(h, 16, RESERVED_V6)
  }

  lemma GroupsAreJudgedByBlocks(h: seq<nat>)
    requires IsAddress(h)
    ensures PublicGroups(h) <==> Verdict(h)
  {
    CarrierBlocks(h);
    OutsideReserved(h);
    V4TextIsRead(h[1], h[2]);
    V4TextIsRead(h[6], h[7]);
    PublicQuadExactly(Octets(h[1], h[2]));
    PublicQuadExactly(Octets(h[6], h[7]));
    assert AllZero(h) ==> !PublicQuad(Octets(h[6], h[7]));
    assert AllZero(h) ==> AllZero(h[..5]) && h[5] == 0;
    hide InBlock, InAny, PublicV4, V4Text, PublicQuad, Octets, IsQuadValue;
  }

  datatype Carrier = Mapped | Compatible | SixToFour | Nat64

  /** An IPv4 address in two groups, as a carrier holds it among groups of its own. */
  function Carry(c: Carrier, hi: nat, lo: nat, rest: seq<nat>): (h: seq<nat>)
    requires |rest| == 5
    ensures |h| == 8
  {
    match c
    case Mapped => [0, 0, 0, 0, 0, 0xffff, hi, lo]
    case Compatible => [0, 0, 0, 0, 0, 0, hi, lo]
    case SixToFour => [0x2002, hi, lo, rest[0], rest[1], rest[2], rest[3], rest[4]]
    case Nat64 => [0x64, 0xff9b, rest[0], rest[1], rest[2], rest[3], hi, lo]
  }

  lemma CarriedInCarrier(c: Carrier, hi: nat, lo: nat, rest: seq<nat>)
    requires hi < 65536 && lo < 65536 && |rest| == 5 && forall i :: 0 <= i < 5 ==> rest[i] < 65536
    ensures IsAddress(Carry(c, hi, lo, rest)) && Carried(Carry(c, hi, lo, rest)) == Some(Octets(hi, lo))
  {
    var h := Carry(c, hi, lo, rest);
    hide InBlock, Octets;
    assert IsAddress(h);
    CarrierBlocks(h);
    match c
    case SixToFour =>
    case Nat64 =>
    case Mapped => assert AllZero(h[..5]) && h[5] == 0xffff;
    case Compatible => assert AllZero(h[..5]) && h[5] == 0;
  }

  /** Mapped, compatible, 6to4 and NAT64 addresses are as public as the IPv4 address in them. */
  lemma CarriersAreJudgedAsCarried(c: Carrier, hi: nat, lo: nat, rest: seq<nat>)
    requires hi < 65536 && lo < 65536 && |rest| == 5 && forall i :: 0 <= i < 5 ==> rest[i] < 65536
    ensures PublicGroups(Carry(c, hi, lo, rest)) == PublicQuad(Octets(hi, lo))
  {
    CarriedInCarrier(c, hi, lo, rest);
    GroupsAreJudgedByBlocks(Carry(c, hi, lo, rest));
    V4TextIsRead(hi, lo);
    PublicQuadExactly(Octets(hi, lo));
    hide PublicGroups, PublicV4, V4Text, PublicQuad, Octets, InBlock, InAny, IsQuadValue, Carry, Carried, IsAddress;
  }

  /** NAT64 is read in all of 64:ff9b::/32, not only in the /96 the rule is named for. */
  lemma NatBlockIsWider(h: seq<nat>)
    requires IsAddress(h) && InBlock(h, 16, NAT64)
    ensures PublicGroups(h) == PublicQuad(Octets(h[6], h[7]))
  {
    CarrierBlocks(h);
    V4TextIsRead(h[6], h[7]);
    hide PublicV4, V4Text, PublicQuad, Octets, InBlock;
  }

  /** Of ::/8 only ::/16 is reserved: what is outside it, and outside NAT64, is public. */
  lemma LowBlockIsNarrower(h: seq<nat>)
    requires IsAddress(h) && 0 < h[0] < 256 && !InBlock(h, 16, NAT64)
    ensures InBlock(h, 16, Block(OnlyFirst([]), 8)) && PublicGroups(h)
  {
    LowBlock(h);
    CarrierBlocks(h);
    hide PublicV4, V4Text, InBlock;
    assert h[..5][0] == h[0];
  }

  lemma LowBlock(h: seq<nat>)
    requires IsAddress(h)
    ensures InBlock(h, 16, Block(OnlyFirst([]), 8)) <==> h[0] < 256
  {
    Powers();
  }

  // ---- Every spelling is judged alike -----------------------------------------------------------

  lemma {:induction false} ZoneIsCut(t: string, zone: string)
    requires '%' !in t
    requires zone == "" || (zone[0] == '%' && forall i :: 0 <= i < |zone| ==> !IsLineEnd(zone[i]))
    ensures WithoutZone(t + zone) == t
  {
    if t == "" {
      assert t + zone == zone;
    } else {
      assert (t + zone)[1..] == t[1..] + zone;
      ZoneIsCut(t[1..], zone);
    }
  }

  ghost predicate IsZone(zone: string) {
    zone == "" || (zone[0] == '%' && forall i :: 0 <= i < |zone| ==> !IsLineEnd(zone[i]))
  }

  function Wrapped(t: string, zone: string, bracketed: bool): string {
    if bracketed then "[" + t + zone + "]" else t + zone
  }

  lemma WrappingIsStripped(t: string, zone: string, bracketed: bool)
    requires '%' !in t && '[' !in t && ']' !in t && IsZone(zone)
    ensures WithoutZone(Unbracketed(Wrapped(t, zone, bracketed))) == t
  {
    var s := Wrapped(t, zone, bracketed);
    if bracketed {
      assert s[1..][..|s| - 2] == t + zone;
      ZoneIsCut(t, zone);
    } else {
      var shorter := if zone != "" && zone[|zone| - 1] == ']' then zone[..|zone| - 1] else zone;
      assert t != "" ==> s[0] == t[0] && (zone == "" ==> s[|s| - 1] == t[|t| - 1]);
      assert zone != "" ==> s[|s| - 1] == zone[|zone| - 1];
      assert Unbracketed(s) == t + shorter;
      ZoneIsCut(t, shorter);
    }
  }

  lemma LowerWrapped(t: string, zone: string, bracketed: bool)
    requires IsZone(zone)
    ensures Lower(Wrapped(t, zone, bracketed)) == Wrapped(Lower(t), Lower(zone), bracketed) && IsZone(Lower(zone))
  {
  }

  lemma GroupsLack(groups: seq<string>, c: char)
    requires AreGroups(groups) && !Hex.IsHexDigit(c)
    ensures forall i :: 0 <= i < |groups| ==> c !in groups[i]
  {
    forall i | 0 <= i < |groups| ensures c !in groups[i] {
      assert IsGroup(groups[i]);
    }
  }

  lemma OctetsLack(quad: seq<string>, c: char)
    requires IsOctets(quad) && !Hex.IsHexDigit(c) && c != '.'
    ensures c !in Join(quad, ".")
  {
    forall i | 0 <= i < 4 ensures c !in quad[i] {
      assert IsOctetText(quad[i]);
    }
    JoinIsPart(quad, ".", c);
  }

  lemma TextLacks(p: Spelling, c: char)
    requires Legal(p) && !Hex.IsHexDigit(c) && c != ':' && c != '.'
    ensures c !in TextOf(p)
  {
    GroupsLack(p.before, c);
    if p.after.Some? { GroupsLack(p.after.value, c); }
    if p.quad.Some? { OctetsLack(p.quad.value, c); }
    hide Join, IsGroup, IsOctets;
    JoinIsPart(p.before, ":", c);
    if p.after.Some? {
      JoinIsPart(p.after.value + QuadPiece(p), ":", c);
    } else {
      JoinIsPart(p.before + QuadPiece(p), ":", c);
    }
  }

  lemma GroupInRange(g: string)
    requires IsGroup(g)
    ensures Hex.Number(g) < 65536
  {
    Hex.NumberBound(g);
    assert Hex.Power(1) == 16 && Hex.Power(2) == 256 && Hex.Power(3) == 4096 && Hex.Power(4) == 65536;
  }

  lemma GroupsInRange(groups: seq<string>)
    requires AreGroups(groups)
    ensures forall i :: 0 <= i < |groups| ==> Values(groups)[i] < 65536
  {
    forall i | 0 <= i < |groups| ensures Values(groups)[i] < 65536 {
      GroupInRange(groups[i]);
    }
  }

  lemma AddressInRange(p: Spelling)
    requires Legal(p)
    ensures IsAddress(Address(p))
  {
    GroupsInRange(p.before);
    if p.after.Some? { GroupsInRange(p.after.value); }
    hide IsGroup, IsOctetText, Decimal, Values, IsOctets;
    if p.quad.Some? {
      QuadInRange(p.quad.value);
    }
    hide QuadGroups;
  }

  /** However an address is written, in letters of either case, in brackets or not and with a
      zone or none, it is judged by its number alone. */
  lemma SpellingsAreJudgedAlike(p: Spelling, t: string, zone: string, bracketed: bool)
    requires Legal(p) && Lower(t) == TextOf(p) && IsZone(zone)
    ensures IsPublicAddress(Wrapped(t, zone, bracketed), 6) <==> Verdict(Address(p))
  {
    LowerWrapped(t, zone, bracketed);
    TextLacks(p, '%');
    TextLacks(p, '[');
    TextLacks(p, ']');
    WrappingIsStripped(Lower(t), Lower(zone), bracketed);
    SpellingsAreRead(p);
    AddressInRange(p);
    GroupsAreJudgedByBlocks(Address(p));
    hide Legal, TextOf, Hextets, PublicGroups, Verdict, WithoutZone, Unbracketed, Wrapped, IsZone, Address;
  }
}
