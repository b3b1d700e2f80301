/** Whether an address lies in a range (src/cimd/blocklist.ts). */
module CidrRange {
  import opened Prelude
  import opened Bits
  import opened IpText
  import opened Text
  import IpSpelling

  datatype Cidr = Cidr(network: seq<byte>, prefix: nat)

  /** An address as one number, most significant byte first. */
  function Value(bytes: seq<byte>): nat {
    if bytes == [] then 0 else 256 * Value(bytes[..|bytes| - 1]) + bytes[|bytes| - 1]
  }

  /** The prefix is no longer than the address, as the source checks when it builds its ranges. */
  predicate Fits(range: Cidr, address: seq<byte>) {
    |range.network| == |address| && range.prefix <= 8 * |address|
  }

  /** The masks agree in the byte the prefix ends in, and all bytes before it are equal. */
  predicate SamePrefix(a: seq<byte>, b: seq<byte>, whole: nat, remaining: nat)
    requires |a| == |b| && 8 * whole + remaining <= 8 * |a| && remaining < 8
  {
    && a[..whole] == b[..whole]
    && (remaining > 0 ==>
          And(a[whole], And(Shl(0xff, 8 - remaining), 0xff)) == And(b[whole], And(Shl(0xff, 8 - remaining), 0xff)))
  }

  predicate ContainsSpec(range: Cidr, address: seq<byte>)
    requires Fits(range, address)
  {
    SamePrefix(range.network, address, range.prefix / 8, range.prefix % 8)
  }

  method Contains(range: Cidr, address: seq<byte>) returns (r: bool)
    requires Fits(range, address)
    ensures r == ContainsSpec(range, address)
    ensures r <==> Value(range.network) / Pow2(8 * |address| - range.prefix) == Value(address) / Pow2(8 * |address| - range.prefix)
  {
    hide Value, Pow2, And, Shl;
    ContainsIsQuotient(range, address);
    var wholeBytes := range.prefix / 8;
    for index := 0 to wholeBytes
      invariant range.network[..index] == address[..index]
    {
      if range.network[index] != address[index] {
        assert range.network[..wholeBytes][index] != address[..wholeBytes][index];
        return false;
      }
    }
    var remaining := range.prefix % 8;
    if remaining == 0 { return true; }
    var mask := And(Shl(0xff, 8 - remaining), 0xff);
    return And(range.network[wholeBytes], mask) == And(address[wholeBytes], mask);
  }

  // ------------------------------------------------------------------------ the mask

  lemma SmallPowers(k: nat)
    ensures Pow2(8) == 256 && Pow2(8 + k) == 256 * Pow2(k)
  {
    assert Pow2(k + 1) == 2 * Pow2(k) && Pow2(k + 2) == 4 * Pow2(k) && Pow2(k + 3) == 8 * Pow2(k) && Pow2(k + 4) == 16 * Pow2(k);
    assert Pow2(k + 5) == 32 * Pow2(k) && Pow2(k + 6) == 64 * Pow2(k) && Pow2(k + 7) == 128 * Pow2(k);
  }

  lemma {:induction false} AllOnesLow(n: nat, k: nat)
    requires k <= n
    ensures Low(Pow2(n) - 1, k) == Pow2(k) - 1
  {
    if k > 0 {
      AllOnesLow(n - 1, k - 1);
      var p := Pow2(n - 1);
      assert (2 * p - 1) / 2 == p - 1 && (2 * p - 1) % 2 == 1;
    }
  }

  /** The mask keeps the first bits of a byte. */
  lemma MaskIsPowerGap(k: nat)
    requires k <= 8
    ensures Pow2(k) <= 256 && And(Shl(0xff, k), 0xff) == 256 - Pow2(k)
  {
    hide And, Low, Shl, Pow2;
    OnesShifted(k);
    LowOfOnes(k);
    AndMask(0xff, k, 8 + k);
    AndCommutes(0xff, Shl(0xff, k));
  }

  lemma LowOfOnes(k: nat)
    requires k <= 8
    ensures Low(0xff, k) == Pow2(k) - 1
  {
    SmallPowers(0);
    AllOnesLow(8, k);
  }

  lemma OnesShifted(k: nat)
    requires k <= 8
    ensures Pow2(8) == 256 && Pow2(k) <= 256 && 0xff < Pow2(8 + k) && Shl(0xff, k) == Pow2(8 + k) - Pow2(k)
  {
    SmallPowers(k);
    SmallPowers(0);
    PowersGrow(k, 8);
  }

  lemma {:induction false} PowersGrow(m: nat, n: nat)
    requires m <= n
    ensures Pow2(m) <= Pow2(n)
  {
    if m < n { PowersGrow(m, n - 1); }
  }

  /** Two bytes agree under the mask exactly when they agree after dropping the last `k` bits. */
  lemma MaskedEqual(a: byte, b: byte, k: nat)
    requires k <= 8
    ensures var mask := And(Shl(0xff, k), 0xff);
      And(a, mask) == And(b, mask) <==> Shr(a, k) == Shr(b, k)
  {
    SmallPowers(0);
    MaskIsPowerGap(k);
    AndMask(a, k, 8);
    AndMask(b, k, 8);
    SameShr(a, b, k);
  }

  // ---------------------------------------------------------------- the whole address

  lemma Scale8(v: nat)
    ensures Scale(v, 8) == 256 * v
  {
    ScaleIsProduct(v, 8);
    SmallPowers(0);
  }

  /** Dropping the last byte. */
  lemma ShrByte(v: nat, b: byte)
    ensures Shr(256 * v + b, 8) == v
  {
    SmallPowers(0);
    Scale8(v);
    ShrScaled(v, b, 8, 8);
  }

  lemma {:induction false} ShrBytes(hi: seq<byte>, lo: seq<byte>)
    ensures Shr(Value(hi + lo), 8 * |lo|) == Value(hi)
  {
    if lo == [] {
      assert hi + lo == hi;
    } else {
      var init, last := lo[..|lo| - 1], lo[|lo| - 1];
      assert (hi + lo)[..|hi + lo| - 1] == hi + init;
      ShrBytes(hi, init);
      ShrByte(Value(hi + init), last);
      ShrTwice(Value(hi + lo), 8, 8 * |init|);
    }
  }

  lemma {:induction false} ValueInjective(a: seq<byte>, b: seq<byte>)
    requires |a| == |b|
    ensures Value(a) == Value(b) <==> a == b
  {
    if a != [] {
      var n := |a| - 1;
      ValueInjective(a[..n], b[..n]);
      assert a == a[..n] + [a[n]] && b == b[..n] + [b[n]];
    }
  }

  lemma ShrInByte(v: nat, x: byte, w: nat, y: byte, k: nat)
    requires k <= 8
    ensures Shr(256 * v + x, k) == Shr(256 * w + y, k) <==> v == w && Shr(x, k) == Shr(y, k)
  {
    SmallPowers(0);
    Scale8(v);
    Scale8(w);
    ShrScaled(v, x, 8, k);
    ShrScaled(w, y, 8, k);
    ScaledInjective(v, Shr(x, k), w, Shr(y, k), 8 - k);
  }

  lemma ShrToByte(front: seq<byte>, x: byte, lo: seq<byte>, k: nat)
    ensures Shr(Value(front + [x] + lo), 8 * |lo| + k) == Shr(256 * Value(front) + x, k)
  {
    hide Shr;
    ShrBytes(front + [x], lo);
    ShrTwice(Value(front + [x] + lo), 8 * |lo|, k);
    assert (front + [x])[..|front|] == front;
  }

  /** Two addresses agree before the last `k` bits of a byte exactly when their earlier bytes do, and that byte does. */
  lemma AgreeInByte(a: seq<byte>, b: seq<byte>, whole: nat, k: nat)
    requires |a| == |b| && whole < |a| && k <= 8
    ensures Shr(Value(a), 8 * (|a| - whole - 1) + k) == Shr(Value(b), 8 * (|a| - whole - 1) + k)
      <==> a[..whole] == b[..whole] && Shr(a[whole], k) == Shr(b[whole], k)
  {
    hide Value, Shr, Pow2;
    assert a == a[..whole] + [a[whole]] + a[whole + 1..];
    assert b == b[..whole] + [b[whole]] + b[whole + 1..];
    ShrToByte(a[..whole], a[whole], a[whole + 1..], k);
    ShrToByte(b[..whole], b[whole], b[whole + 1..], k);
    ValueInjective(a[..whole], b[..whole]);
    ShrInByte(Value(a[..whole]), a[whole], Value(b[..whole]), b[whole], k);
  }

  /** The byte-and-mask comparison is equality after integer division by 2^(width - prefix). */
  lemma ContainsIsQuotient(range: Cidr, address: seq<byte>)
    requires Fits(range, address)
    ensures ContainsSpec(range, address) <==>
      Value(range.network) / Pow2(8 * |address| - range.prefix) == Value(address) / Pow2(8 * |address| - range.prefix)
  {
    hide ContainsSpec, Value, Pow2, Shr;
    var n := 8 * |address| - range.prefix;
    ShrIsQuotient(Value(range.network), n);
    ShrIsQuotient(Value(address), n);
    ContainsIsShr(range, address);
  }

  lemma ContainsIsShr(range: Cidr, address: seq<byte>)
    requires Fits(range, address)
    ensures ContainsSpec(range, address) <==>
      Shr(Value(range.network), 8 * |address| - range.prefix) == Shr(Value(address), 8 * |address| - range.prefix)
  {
    hide SamePrefix, Shr, Value;
    SamePrefixIsShr(range.network, address, range.prefix / 8, range.prefix % 8);
  }

  lemma SamePrefixIsShr(a: seq<byte>, b: seq<byte>, whole: nat, remaining: nat)
    requires |a| == |b| && 8 * whole + remaining <= 8 * |a| && remaining < 8
    ensures SamePrefix(a, b, whole, remaining) <==>
      Shr(Value(a), 8 * (|a| - whole) - remaining) == Shr(Value(b), 8 * (|a| - whole) - remaining)
  {
    if remaining == 0 {
      AgreeInWhole(a, b, whole);
    } else {
      AgreeInByte(a, b, whole, 8 - remaining);
      MaskedEqual(a[whole], b[whole], 8 - remaining);
    }
  }

  lemma AgreeInWhole(a: seq<byte>, b: seq<byte>, whole: nat)
    requires |a| == |b| && whole <= |a|
    ensures Shr(Value(a), 8 * (|a| - whole)) == Shr(Value(b), 8 * (|a| - whole)) <==> a[..whole] == b[..whole]
  {
    hide Value, Shr;
    ValueInjective(a[..whole], b[..whole]);
    assert a == a[..whole] + a[whole..] && b == b[..whole] + b[whole..];
    ShrBytes(a[..whole], a[whole..]);
    ShrBytes(b[..whole], b[whole..]);
  }

  // ------------------------------------------------------------------- blocked addresses

  datatype ParsedIp = ParsedIp(isV4: bool, bytes: seq<byte>)

  /** `parseIp`; None models null. */
  function ParseIp(text: string): (r: Option<ParsedIp>)
    ensures r.Some? ==> |r.value.bytes| == if r.value.isV4 then 4 else 16
  {
    if text == "" || '%' in text then None
    else if V4(text).Some? then Some(ParsedIp(true, V4(text).value))
    else if ':' !in text || V6(text).None? then None
    else Some(ParsedIp(false, V6(text).value))
  }

  /** A dotted text is read as an IPv4 address and as nothing else, a spelling as an IPv6 address and as nothing
      else, and no other text is read at all. */
  lemma ParseIpExact(text: string, bytes: seq<byte>)
    ensures ParseIp(text) == Some(ParsedIp(true, bytes)) <==> |bytes| == 4 && text == Dotted(bytes)
    ensures ParseIp(text) == Some(ParsedIp(false, bytes)) <==> V6(text) == Some(bytes)
  {
    V4Exact(text, bytes);
    if |bytes| == 4 { IpSpelling.DottedIsPlain(bytes); }
    if V4(text).Some? {
      V4Exact(text, V4(text).value);
      IpSpelling.DottedIsPlain(V4(text).value);
    }
    if V6(text).Some? { V6HasColon(text); }
    hide V4, V6, Dotted;
  }

  lemma V6HasColon(text: string)
    requires V6(text).Some?
    ensures ':' in text && text != "" && '%' !in text
  {
    if ':' !in text {
      SplitOfPlain(text, ':');
    }
  }

  predicate IsLoopback(ip: ParsedIp) {
    if ip.isV4 then |ip.bytes| > 0 && ip.bytes[0] == 127
    else |ip.bytes| == 16 && (forall i :: 0 <= i < 15 ==> ip.bytes[i] == 0) && ip.bytes[15] == 1
  }

  /** `isBlockedIp` over the ranges of the address's family. */
  predicate IsBlockedIp(ip: ParsedIp, allowLoopback: bool, ranges: seq<Cidr>)
    requires forall i :: 0 <= i < |ranges| ==> Fits(ranges[i], ip.bytes)
  {
    if allowLoopback && IsLoopback(ip) then false
    else exists i :: 0 <= i < |ranges| && ContainsSpec(ranges[i], ip.bytes)
  }

  /** The block of 2^(width - prefix) numbers that holds the network's own. */
  predicate InBlock(range: Cidr, v: nat)
    requires range.prefix <= 8 * |range.network|
  {
    var size := Pow2(8 * |range.network| - range.prefix);
    var first := size * (Value(range.network) / size);
    first <= v < first + size
  }

  /** An address is blocked exactly when its number lies in one of the blocks, the loopback allowance aside. */
  lemma BlockedIsNumeric(ip: ParsedIp, allowLoopback: bool, ranges: seq<Cidr>)
    requires forall i :: 0 <= i < |ranges| ==> Fits(ranges[i], ip.bytes)
    ensures IsBlockedIp(ip, allowLoopback, ranges) <==>
      !(allowLoopback && IsLoopback(ip)) && exists i :: 0 <= i < |ranges| && InBlock(ranges[i], Value(ip.bytes))
  {
    forall i | 0 <= i < |ranges| ensures ContainsSpec(ranges[i], ip.bytes) <==> InBlock(ranges[i], Value(ip.bytes)) {
      ContainsIsBlock(ranges[i], ip.bytes);
    }
  }

  lemma ContainsIsBlock(range: Cidr, address: seq<byte>)
    requires Fits(range, address)
    ensures ContainsSpec(range, address) <==> InBlock(range, Value(address))
  {
    hide Value, Pow2, ContainsSpec;
    ContainsIsQuotient(range, address);
    var size := Pow2(8 * |address| - range.prefix);
    QuotientInterval(Value(address), size, Value(range.network) / size);
  }

  lemma QuotientInterval(v: nat, size: nat, q: nat)
    requires size > 0
    ensures v / size == q <==> size * q <= v < size * q + size
  {
    if size * q <= v < size * q + size {
      QuotientIs(v, size, q, v - size * q);
    }
  }

  predicate RangesFit(ranges: seq<Cidr>, size: nat) {
    forall i :: 0 <= i < |ranges| ==> |ranges[i].network| == size && ranges[i].prefix <= 8 * size
  }

  /** `isBlockedAddress`: what cannot be read is blocked. */
  predicate IsBlockedAddress(text: string, allowLoopback: bool, v4Ranges: seq<Cidr>, v6Ranges: seq<Cidr>)
    requires RangesFit(v4Ranges, 4) && RangesFit(v6Ranges, 16)
  {
    var ip := ParseIp(text);
    ip.None? || IsBlockedIp(ip.value, allowLoopback, if ip.value.isV4 then v4Ranges else v6Ranges)
  }

  ghost predicate Outside(ranges: seq<Cidr>, v: nat, size: nat)
    requires RangesFit(ranges, size)
  {
    forall i :: 0 <= i < |ranges| ==> !InBlock(ranges[i], v)
  }

  lemma {:induction false} ZeroExactly(b: seq<byte>)
    ensures Value(b) == 0 <==> forall i :: 0 <= i < |b| ==> b[i] == 0
  {
    if b != [] { ZeroExactly(b[..|b| - 1]); }
  }

  /** The loopback addresses are those of 127.0.0.0/8 and the one number 1. */
  lemma LoopbackExactly(b: seq<byte>)
    ensures |b| == 4 ==> (IsLoopback(ParsedIp(true, b)) <==> b[0] == 127)
    ensures |b| == 16 ==> (IsLoopback(ParsedIp(false, b)) <==> Value(b) == 1)
  {
    if |b| == 16 { ZeroExactly(b[..15]); }
  }

  /** A text passes exactly when it is a dotted text or a spelling of an address that is outside every block of
      its family, or an allowed loopback address. */
  lemma AllowedExactlyOutside(text: string, allowLoopback: bool, v4Ranges: seq<Cidr>, v6Ranges: seq<Cidr>)
    requires RangesFit(v4Ranges, 4) && RangesFit(v6Ranges, 16)
    ensures !IsBlockedAddress(text, allowLoopback, v4Ranges, v6Ranges) <==>
      || (exists b: seq<byte> :: |b| == 4 && text == Dotted(b)
           && ((allowLoopback && b[0] == 127) || Outside(v4Ranges, Value(b), 4)))
      || (exists b: seq<byte> :: V6(text) == Some(b)
           && ((allowLoopback && Value(b) == 1) || Outside(v6Ranges, Value(b), 16)))
  {
    hide Dotted, V4, V6, ParseIp, IsLoopback, InBlock, Value, IsBlockedIp;
    forall b: seq<byte> ensures ParseIp(text) == Some(ParsedIp(true, b)) <==> |b| == 4 && text == Dotted(b) { ParseIpExact(text, b); }
    forall b: seq<byte> ensures ParseIp(text) == Some(ParsedIp(false, b)) <==> V6(text) == Some(b) { ParseIpExact(text, b); }
    var ip := ParseIp(text);
    if ip.Some? {
      LoopbackExactly(ip.value.bytes);
      BlockedIsNumeric(ip.value, allowLoopback, if ip.value.isV4 then v4Ranges else v6Ranges);
      assert ip == Some(ParsedIp(ip.value.isV4, ip.value.bytes));
    }
  }
}
