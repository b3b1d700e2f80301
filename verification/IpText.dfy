/** Address texts (src/cimd/blocklist.ts). */
module IpText {
  import opened Prelude
  import opened Text
  import opened Bits

  type byte = x: int | 0 <= x < 256

  // ----------------------------------------------------------------- IPv4 texts

  function Dotted(bytes: seq<byte>): string
    requires |bytes| == 4
  {
    Join([Decimal(bytes[0]), Decimal(bytes[1]), Decimal(bytes[2]), Decimal(bytes[3])], ".")
  }

  /** One of the four numbers. */
  function Octet(part: string): (r: Option<byte>) {
    if !(part == "0" || (1 <= |part| <= 3 && '1' <= part[0] <= '9' && IsDecimal(part))) then None
    else
      assert IsDecimal(part);
      if DecimalValue(part) > 255 then None else Some(DecimalValue(part))
  }

  function V4(text: string): (r: Option<seq<byte>>)
    ensures r.Some? ==> |r.value| == 4
  {
    var parts := Split(text, '.');
    if |parts| != 4 || (exists i :: 0 <= i < 4 && Octet(parts[i]).None?) then None
    else Some(seq(4, i requires 0 <= i < 4 => Octet(parts[i]).value))
  }

  method ParseIpv4(text: string) returns (r: Option<seq<byte>>)
    ensures r == V4(text)
  {
    var parts := Split(text, '.');
    if |parts| != 4 { return None; }
    var bytes := new byte[4](_ => 0);
    for index := 0 to |parts|
      invariant forall i :: 0 <= i < index ==> Octet(parts[i]) == Some(bytes[i])
    {
      var part := parts[index];
      if !(part == "0" || (1 <= |part| <= 3 && '1' <= part[0] <= '9' && IsDecimal(part))) { return None; }
      var value := DecimalValue(part);
      if value > 255 { return None; }
      bytes[index] := value;
    }
    assert forall i :: 0 <= i < 4 ==> Octet(parts[i]).Some?;
    assert bytes[..] == V4(text).value;
    r := Some(bytes[..]);
  }

  lemma OctetReadsBack(b: byte)
    ensures Octet(Decimal(b)) == Some(b)
  {
    DecimalReadsBack(b);
    DecimalReadsBack(b / 10);
    DecimalReadsBack(b / 10 / 10);
    assert |Decimal(b)| <= 3;
    if b == 0 { assert Decimal(b) == "0"; }
  }

  lemma DecimalAppend(m: nat, d: nat)
    requires d < 10
    ensures Decimal(10 * m + d) == if m == 0 then [Digit(d)] else Decimal(m) + [Digit(d)]
  {
    assert (10 * m + d) / 10 == m && (10 * m + d) % 10 == d;
  }

  lemma DecimalValueAppend(s: string, c: char)
    requires IsDecimal(s) && '0' <= c <= '9'
    ensures IsDecimal(s + [c]) && DecimalValue(s + [c]) == 10 * DecimalValue(s) + (c - '0') as int
  {
    assert (s + [c])[..|s|] == s;
  }

  lemma OneDigit(c: char)
    requires '0' <= c <= '9'
    ensures DecimalValue([c]) == (c - '0') as int && Decimal((c - '0') as int) == [c] && Digit((c - '0') as int) == c
  {
    assert [c][..0] == "";
  }

  lemma {:induction false} DecimalPrintsBack(s: string)
    requires IsDecimal(s) && (s[0] != '0' || |s| == 1)
    ensures Decimal(DecimalValue(s)) == s
    ensures s[0] != '0' ==> DecimalValue(s) > 0
  {
    hide Decimal, DecimalValue, Digit;
    var init, last := s[..|s| - 1], s[|s| - 1];
    assert s == init + [last];
    OneDigit(last);
    if init != "" {
      DecimalPrintsBack(init);
      DecimalValueAppend(init, last);
      DecimalAppend(DecimalValue(init), (last - '0') as int);
    }
  }

  lemma DecimalIsPlain(n: nat)
    ensures '.' !in Decimal(n) && ':' !in Decimal(n)
  {
    DecimalReadsBack(n);
  }

  /** The accepted texts are exactly the printed addresses, each read as itself. */
  lemma V4Exact(text: string, bytes: seq<byte>)
    ensures V4(text) == Some(bytes) <==> |bytes| == 4 && text == Dotted(bytes)
  {
    if |bytes| == 4 && text == Dotted(bytes) {
      var parts := [Decimal(bytes[0]), Decimal(bytes[1]), Decimal(bytes[2]), Decimal(bytes[3])];
      forall i | 0 <= i < 4 ensures '.' !in parts[i] && Octet(parts[i]) == Some(bytes[i]) {
        DecimalIsPlain(bytes[i]);
        OctetReadsBack(bytes[i]);
      }
      SplitJoin(parts, '.');
      assert Split(text, '.') == parts;
      assert V4(text).Some? && V4(text).value == bytes;
    }
    if V4(text) == Some(bytes) {
      var parts := Split(text, '.');
      forall i | 0 <= i < 4 ensures Decimal(bytes[i]) == parts[i] {
        assert Octet(parts[i]) == Some(bytes[i]);
        DecimalPrintsBack(parts[i]);
      }
      assert parts == [Decimal(bytes[0]), Decimal(bytes[1]), Decimal(bytes[2]), Decimal(bytes[3])];
      JoinSplit(text, '.');
    }
  }

  // ----------------------------------------------------------------- IPv6 texts

  predicate IsHexDigit(c: char) {
    '0' <= c <= '9' || 'a' <= c <= 'f' || 'A' <= c <= 'F'
  }

  /** The value of a hexadecimal digit; the source reads no other characters. */
  function HexDigitValue(c: char): (v: nat)
    ensures v < 16
  {
    if '0' <= c <= '9' then (c - '0') as int
    else if 'a' <= c <= 'f' then (c - 'a') as int + 10
    else if 'A' <= c <= 'F' then (c - 'A') as int + 10
    else 0
  }

  predicate IsHexadecimal(s: string) {
    forall i :: 0 <= i < |s| ==> IsHexDigit(s[i])
  }

  predicate IsHextet(s: string) {
    1 <= |s| <= 4 && IsHexadecimal(s)
  }

  function HexValue(s: string): nat
  {
    if s == "" then 0 else 16 * HexValue(s[..|s| - 1]) + HexDigitValue(s[|s| - 1])
  }

  function HexChar(n: nat): (c: char)
    requires n < 16
    ensures IsHexDigit(c) && HexDigitValue(c) == n
  {
    if n < 10 then '0' + n as char else 'a' + (n - 10) as char
  }

  /** `n.toString(16)`. */
  function Hex(n: nat): (s: string)
    ensures s != ""
  {
    if n < 16 then [HexChar(n)] else Hex(n / 16) + [HexChar(n % 16)]
  }

  function HexValues(parts: seq<string>): (words: seq<nat>)
    ensures |words| == |parts|
    ensures forall i :: 0 <= i < |parts| ==> words[i] == HexValue(parts[i])
  {
    seq(|parts|, i requires 0 <= i < |parts| => HexValue(parts[i]))
  }

  function Hextets(text: string): (r: Option<seq<nat>>) {
    if text == "" then Some([])
    else
      var parts := Split(text, ':');
      if exists i :: 0 <= i < |parts| && !IsHextet(parts[i]) then None else Some(HexValues(parts))
  }

  /** Characters an IPv6 text may hold. */
  predicate HasV6Characters(text: string) {
    text != "" && forall i :: 0 <= i < |text| ==> IsHexDigit(text[i]) || text[i] == ':' || text[i] == '.'
  }

  function LastColon(text: string): (at: Option<nat>)
    ensures at.Some? ==> at.value < |text| && text[at.value] == ':' && ':' !in text[at.value + 1..]
    ensures at.None? ==> ':' !in text
  {
    if text == "" then None
    else if text[|text| - 1] == ':' then Some(|text| - 1)
    else
      assert text == text[..|text| - 1] + [text[|text| - 1]];
      var at := LastColon(text[..|text| - 1]);
      assert at.Some? ==> text[at.value + 1..] == text[..|text| - 1][at.value + 1..] + [text[|text| - 1]];
      at
  }

  predicate PairAt(text: string, i: int) {
    0 <= i && i + 1 < |text| && text[i] == ':' && text[i + 1] == ':'
  }

  /** `text.indexOf("::")`, from `from` on. */
  function FirstPair(text: string, from: nat): (at: Option<nat>)
    ensures at.Some? ==> from <= at.value && PairAt(text, at.value)
    ensures forall i :: from <= i && (at.None? || i < at.value) ==> !PairAt(text, i)
    decreases |text| - from
  {
    if from + 1 >= |text| then None else if PairAt(text, from) then Some(from) else FirstPair(text, from + 1)
  }

  /** `text.lastIndexOf("::")`, looking at places before `to`. */
  function LastPair(text: string, to: nat): (at: Option<nat>)
    ensures at.Some? ==> at.value < to && PairAt(text, at.value)
    ensures forall i :: i < to && (at.None? || at.value < i) ==> !PairAt(text, i)
  {
    if to == 0 then None else if PairAt(text, to - 1) then Some(to - 1) else LastPair(text, to - 1)
  }

  function High(q: seq<byte>): nat
    requires |q| == 4
  {
    (q[0] as int) * 256 + q[1] as int
  }

  function LowPart(q: seq<byte>): nat
    requires |q| == 4
  {
    (q[2] as int) * 256 + q[3] as int
  }

  /** The text with a dotted tail rewritten as two hexadecimal words. */
  function Unquad(text: string): (r: Option<string>) {
    if '.' !in text then Some(text)
    else
      var colon := LastColon(text);
      if colon.None? then None
      else
        var quad := V4(text[colon.value + 1..]);
        if quad.None? then None
        else Some(text[..colon.value + 1] + Hex(High(quad.value)) + ":" + Hex(LowPart(quad.value)))
  }

  function Zeros(n: nat): (z: seq<nat>)
    ensures |z| == n && forall i :: 0 <= i < n ==> z[i] == 0
  {
    seq(n, _ => 0)
  }

  /** The eight words of a text without a dotted tail. */
  function Words(text: string): (r: Option<seq<nat>>)
    ensures r.Some? ==> |r.value| == 8
  {
    var first := FirstPair(text, 0);
    if first != LastPair(text, |text|) then None
    else
      var left := Hextets(if first.Some? then text[..first.value] else text);
      var right := if first.Some? then Hextets(text[first.value + 2..]) else Some([]);
      if left.None? || right.None? then None
      else
        var missing := 8 - |left.value| - |right.value|;
        if (first.Some? && missing < 1) || (first.None? && missing != 0) then None
        else Some(left.value + Zeros(missing) + right.value)
  }

  function BytesOf(words: seq<nat>): (bytes: seq<byte>)
    requires |words| == 8 && forall i :: 0 <= i < 8 ==> words[i] < 0x1_0000
    ensures |bytes| == 16
  {
    seq(16, i requires 0 <= i < 16 => if i % 2 == 0 then words[i / 2] / 256 else words[i / 2] % 256)
  }

  function V6(text: string): (r: Option<seq<byte>>)
    ensures r.Some? ==> |r.value| == 16
  {
    if !HasV6Characters(text) || Unquad(text).None? || Words(Unquad(text).value).None? then None
    else
      WordsAreSmall(Unquad(text).value);
      Some(BytesOf(Words(Unquad(text).value).value))
  }

  lemma {:induction false} HexValueBound(s: string)
    ensures |s| <= 1 ==> HexValue(s) < 16
    ensures |s| <= 4 ==> HexValue(s) < 0x1_0000
    ensures |s| <= 2 ==> HexValue(s) < 0x100
    ensures |s| <= 3 ==> HexValue(s) < 0x1000
  {
    if s != "" { HexValueBound(s[..|s| - 1]); }
  }

  lemma HextetsAreSmall(text: string)
    requires Hextets(text).Some?
    ensures forall i :: 0 <= i < |Hextets(text).value| ==> Hextets(text).value[i] < 0x1_0000
  {
    if text != "" {
      var parts := Split(text, ':');
      forall i | 0 <= i < |parts| ensures HexValue(parts[i]) < 0x1_0000 {
        HexValueBound(parts[i]);
      }
    }
  }

  lemma WordsAreSmall(text: string)
    requires Words(text).Some?
    ensures forall i :: 0 <= i < 8 ==> Words(text).value[i] < 0x1_0000
  {
    hide Hextets, FirstPair, LastPair;
    var first := FirstPair(text, 0);
    HextetsAreSmall(if first.Some? then text[..first.value] else text);
    if first.Some? { HextetsAreSmall(text[first.value + 2..]); }
  }

  lemma WordBytes(words: seq<nat>, index: nat)
    requires |words| == 8 && (forall i :: 0 <= i < 8 ==> words[i] < 0x1_0000) && index < 8
    ensures Shr(words[index], 8) == BytesOf(words)[2 * index] && And(words[index], 0xff) == BytesOf(words)[2 * index + 1]
  {
    assert Pow2(8) == 256;
    AndOnes(words[index], 8);
    ShrIsQuotient(words[index], 8);
  }

  /** The loop that fills the array of bytes. */
  method FillBytes(words: seq<nat>) returns (r: seq<byte>)
    requires |words| == 8 && forall i :: 0 <= i < 8 ==> words[i] < 0x1_0000
    ensures r == BytesOf(words)
  {
    hide And, Shr, BytesOf;
    var bytes := new byte[16](_ => 0);
    for index := 0 to |words|
      invariant forall i :: 0 <= i < 2 * index ==> bytes[i] == BytesOf(words)[i]
    {
      WordBytes(words, index);
      bytes[index * 2] := Shr(words[index], 8);
      bytes[index * 2 + 1] := And(words[index], 0xff);
    }
    assert bytes[..] == BytesOf(words);
    r := bytes[..];
  }

  method ParseIpv6(input: string) returns (r: Option<seq<byte>>)
    ensures r == V6(input)
  {
    hide HasV6Characters, Hextets, FirstPair, LastPair, LastColon, V4, Hex, And, Or, Zeros;
    var text := input;
    if !HasV6Characters(text) { return None; }
    if '.' in text {
      var colon := LastColon(text);
      if colon.None? { return None; }
      var v4 := ParseIpv4(text[colon.value + 1..]);
      if v4.None? { return None; }
      var v := v4.value;
      OrIsSum(v[0], v[1], 8);
      OrIsSum(v[2], v[3], 8);
      var high := Hex(Or(Shl(v[0], 8), v[1]));
      var low := Hex(Or(Shl(v[2], 8), v[3]));
      text := text[..colon.value + 1] + high + ":" + low;
    }
    assert Unquad(input) == Some(text);
    var firstCompression := FirstPair(text, 0);
    if firstCompression != LastPair(text, |text|) { return None; }
    var compressed := firstCompression.Some?;
    var left := Hextets(if compressed then text[..firstCompression.value] else text);
    var right := if compressed then Hextets(text[firstCompression.value + 2..]) else Some([]);
    if left.None? || right.None? { return None; }
    var missing := 8 - |left.value| - |right.value|;
    if (compressed && missing < 1) || (!compressed && missing != 0) { return None; }
    var words := left.value + Zeros(missing) + right.value;
    WordsAreSmall(text);
    var bytes := FillBytes(words);
    r := Some(bytes);
  }
}
