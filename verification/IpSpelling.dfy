/** The texts that denote an IPv6 address (section 2.2 of RFC 4291), and the parser that reads exactly those. */
module IpSpelling {
  import opened Prelude
  import opened Text
  import opened Bits
  import opened IpText

  /** Groups of one to four hexadecimal digits in either case, an optional "::", an optional dotted tail. */
  datatype Spelling = Spelling(left: seq<string>, compressed: bool, right: seq<string>, quad: Option<seq<byte>>)

  ghost predicate AllHextets(groups: seq<string>) {
    forall i :: 0 <= i < |groups| ==> IsHextet(groups[i])
  }

  ghost predicate IsQuad(quad: Option<seq<byte>>) {
    quad.Some? ==> |quad.value| == 4
  }

  function Tail(quad: Option<seq<byte>>): seq<string>
    requires IsQuad(quad)
  {
    if quad.None? then [] else [Dotted(quad.value)]
  }

  function QuadWords(quad: Option<seq<byte>>): seq<nat>
    requires IsQuad(quad)
  {
    if quad.None? then [] else [High(quad.value), LowPart(quad.value)]
  }

  /** Eight words, or fewer than eight and a "::" for the missing ones. */
  ghost predicate Valid(sp: Spelling) {
    && AllHextets(sp.left) && AllHextets(sp.right) && IsQuad(sp.quad)
    && (if sp.compressed then |sp.left| + |sp.right| + |QuadWords(sp.quad)| < 8
        else sp.right == [] && |sp.left| + |QuadWords(sp.quad)| == 8)
  }

  function Print(sp: Spelling): string
    requires IsQuad(sp.quad)
  {
    if sp.compressed then Join(sp.left, ":") + "::" + Join(sp.right + Tail(sp.quad), ":")
    else Join(sp.left + Tail(sp.quad), ":")
  }

  ghost function Meaning(sp: Spelling): (words: seq<nat>)
    requires Valid(sp)
    ensures |words| == 8
  {
    HexValues(sp.left) + Zeros(8 - |sp.left| - |sp.right| - |QuadWords(sp.quad)|) + HexValues(sp.right) + QuadWords(sp.quad)
  }

  // --------------------------------------------------------------------- groups

  /** Neither end is a colon, no two are adjacent, and all characters may occur in an address. */
  ghost predicate Tidy(text: string) {
    && (text != "" ==> text[0] != ':' && text[|text| - 1] != ':')
    && (forall i :: 0 <= i < |text| ==> IsHexDigit(text[i]) || text[i] == ':')
    && (forall i :: !PairAt(text, i))
  }

  lemma HextetIsTidy(g: string)
    requires IsHextet(g)
    ensures Tidy(g) && ':' !in g && g != ""
  {
  }

  lemma TidyConcat(g: string, rest: string)
    requires Tidy(g) && Tidy(rest) && g != "" && rest != ""
    ensures Tidy(g + ":" + rest)
  {
    var text := g + ":" + rest;
    forall i ensures !PairAt(text, i) {
      assert !PairAt(g, i);
      assert !PairAt(rest, i - |g| - 1);
    }
  }

  lemma {:induction false} JoinIsTidy(groups: seq<string>)
    requires AllHextets(groups)
    ensures Tidy(Join(groups, ":"))
    ensures Join(groups, ":") == "" <==> groups == []
  {
    if groups != [] {
      HextetIsTidy(groups[0]);
      if |groups| > 1 {
        JoinIsTidy(groups[1..]);
        TidyConcat(groups[0], Join(groups[1..], ":"));
      }
    }
  }

  lemma HextetsOfJoin(groups: seq<string>)
    requires AllHextets(groups)
    ensures Hextets(Join(groups, ":")) == Some(HexValues(groups))
  {
    JoinIsTidy(groups);
    if groups != [] {
      forall i | 0 <= i < |groups| ensures ':' !in groups[i] { HextetIsTidy(groups[i]); }
      SplitJoin(groups, ':');
    }
  }

  function Groups(text: string): seq<string> {
    if text == "" then [] else Split(text, ':')
  }

  lemma HextetsAreGroups(text: string)
    requires Hextets(text).Some?
    ensures AllHextets(Groups(text)) && Join(Groups(text), ":") == text && |Hextets(text).value| == |Groups(text)|
  {
    JoinSplit(text, ':');
  }

  /** The one "::" stands between two tidy sides. */
  lemma PairBetween(a: string, b: string)
    requires Tidy(a) && Tidy(b)
    ensures var text := a + "::" + b;
      FirstPair(text, 0) == Some(|a|) && LastPair(text, |text|) == Some(|a|)
  {
    var text := a + "::" + b;
    forall i | PairAt(text, i) ensures i == |a| {
      assert !PairAt(a, i);
      assert !PairAt(b, i - |a| - 2);
    }
    assert PairAt(text, |a|);
  }

  // ----------------------------------------------------------- without a dotted tail

  lemma WordsBetween(a: string, b: string, ls: seq<nat>, rs: seq<nat>)
    requires Tidy(a) && Tidy(b) && Hextets(a) == Some(ls) && Hextets(b) == Some(rs) && |ls| + |rs| < 8
    ensures Words(a + "::" + b) == Some(ls + Zeros(8 - |ls| - |rs|) + rs)
  {
    PairBetween(a, b);
    hide Tidy, Hextets;
    var text := a + "::" + b;
    assert text[..|a|] == a && text[|a| + 2..] == b;
  }

  lemma WordsAlone(a: string, ls: seq<nat>)
    requires Tidy(a) && Hextets(a) == Some(ls) && |ls| == 8
    ensures Words(a) == Some(ls)
  {
    hide Hextets;
    assert FirstPair(a, 0).None? && LastPair(a, |a|).None?;
    assert ls + Zeros(0) + [] == ls;
  }

  lemma WordsOfCompressed(left: seq<string>, right: seq<string>)
    requires AllHextets(left) && AllHextets(right) && |left| + |right| < 8
    ensures Words(Join(left, ":") + "::" + Join(right, ":")) ==
      Some(HexValues(left) + Zeros(8 - |left| - |right|) + HexValues(right))
  {
    hide Hextets, Tidy, AllHextets, Words, Join, HexValues, Zeros;
    HextetsOfJoin(left);
    HextetsOfJoin(right);
    JoinIsTidy(left);
    JoinIsTidy(right);
    var ls, rs := HexValues(left), HexValues(right);
    assert |ls| == |left| && |rs| == |right|;
    WordsBetween(Join(left, ":"), Join(right, ":"), ls, rs);
  }

  lemma WordsOfEight(left: seq<string>)
    requires AllHextets(left) && |left| == 8
    ensures Words(Join(left, ":")) == Some(HexValues(left))
  {
    hide Hextets, Tidy, AllHextets, Words, Join, HexValues, Zeros;
    HextetsOfJoin(left);
    JoinIsTidy(left);
    WordsAlone(Join(left, ":"), HexValues(left));
  }

  lemma WordsOfPlain(sp: Spelling)
    requires Valid(sp) && sp.quad.None?
    ensures Words(Print(sp)) == Some(Meaning(sp))
  {
    MeaningOfPlain(sp);
    assert sp.left + [] == sp.left && sp.right + [] == sp.right;
    hide AllHextets, Words, Meaning, Join, HexValues, Zeros;
    if sp.compressed { WordsOfCompressed(sp.left, sp.right); } else { WordsOfEight(sp.left); }
  }

  lemma MeaningOfPlain(sp: Spelling)
    requires Valid(sp) && sp.quad.None?
    ensures Meaning(sp) == if sp.compressed
      then HexValues(sp.left) + Zeros(8 - |sp.left| - |sp.right|) + HexValues(sp.right)
      else HexValues(sp.left)
  {
    hide AllHextets;
  }

  // -------------------------------------------------------------- the dotted tail

  lemma HexReadsBack(n: nat)
    requires n < 0x1_0000
    ensures IsHextet(Hex(n)) && HexValue(Hex(n)) == n
  {
    HexDigits(n);
  }

  lemma {:induction false} HexDigits(n: nat)
    ensures IsHexadecimal(Hex(n)) && HexValue(Hex(n)) == n
    ensures n < 0x10 ==> |Hex(n)| == 1
    ensures n < 0x100 ==> |Hex(n)| <= 2
    ensures n < 0x1000 ==> |Hex(n)| <= 3
    ensures n < 0x1_0000 ==> |Hex(n)| <= 4
  {
    if n < 16 {
      assert Hex(n)[..0] == "";
    } else {
      HexDigits(n / 16);
      var s := Hex(n / 16);
      assert Hex(n)[..|s|] == s;
    }
  }

  /** The text before the colon in front of the dotted tail. */
  function Head(sp: Spelling): string {
    if sp.compressed && sp.right == [] then Join(sp.left, ":") + ":"
    else if sp.compressed then Join(sp.left, ":") + "::" + Join(sp.right, ":")
    else Join(sp.left, ":")
  }

  /** The same address with the tail in hexadecimal. */
  function Expanded(sp: Spelling): Spelling
    requires IsQuad(sp.quad) && sp.quad.Some?
  {
    var tail := [Hex(High(sp.quad.value)), Hex(LowPart(sp.quad.value))];
    if sp.compressed then sp.(right := sp.right + tail, quad := None) else sp.(left := sp.left + tail, quad := None)
  }

  lemma JoinTwo(x: string, y: string)
    ensures Join([x, y], ":") == x + ":" + y
  {
    assert [x, y][1..] == [y];
  }

  lemma Regroup(a: string, b: string, c: string)
    ensures a + "::" + (b + ":" + c) == a + "::" + b + ":" + c
    ensures a + "::" + c == a + ":" + ":" + c
  {
  }

  /** The groups before the tail, and the tail itself, either as one group or as two. */
  lemma JoinTail(front: seq<string>, d: string, h: string, l: string)
    ensures Join(front + [d], ":") == (if front == [] then "" else Join(front, ":") + ":") + d
    ensures Join(front + [h, l], ":") == (if front == [] then "" else Join(front, ":") + ":") + (h + ":" + l)
  {
    JoinTwo(h, l);
    if front == [] {
      assert front + [d] == [d] && front + [h, l] == [h, l];
    } else {
      JoinConcat(front, [d], ":");
      JoinConcat(front, [h, l], ":");
    }
  }

  /** A tail behind the head, given as the text its groups join to. */
  lemma BehindHead(sp: Spelling, joined: string, tail: string)
    requires sp.compressed || sp.left != []
    requires var front := if sp.compressed then sp.right else sp.left;
      joined == (if front == [] then "" else Join(front, ":") + ":") + tail
    ensures (if sp.compressed then Join(sp.left, ":") + "::" + joined else joined) == Head(sp) + ":" + tail
  {
    hide Join;
    if sp.compressed && sp.right != [] { Regroup(Join(sp.left, ":"), Join(sp.right, ":"), tail); }
    if sp.compressed && sp.right == [] {
      assert joined == tail;
      Regroup(Join(sp.left, ":"), "", tail);
    }
  }

  lemma HeadOfTail(sp: Spelling)
    requires Valid(sp) && sp.quad.Some?
    ensures Print(sp) == Head(sp) + ":" + Dotted(sp.quad.value)
  {
    var d := Dotted(sp.quad.value);
    var front := if sp.compressed then sp.right else sp.left;
    assert sp.compressed || sp.left != [];
    hide Dotted, AllHextets, Valid, Join, Head;
    JoinTail(front, d, "", "");
    BehindHead(sp, Join(front + [d], ":"), d);
  }

  lemma HeadOfWords(sp: Spelling, h: string, l: string)
    requires Valid(sp) && sp.quad.Some? && h == Hex(High(sp.quad.value)) && l == Hex(LowPart(sp.quad.value))
    ensures Print(Expanded(sp)) == Head(sp) + ":" + (h + ":" + l)
  {
    var front := if sp.compressed then sp.right else sp.left;
    assert sp.compressed || sp.left != [];
    ExpandedTail(sp);
    hide Dotted, AllHextets, Valid, Join, Head, Expanded, Hex, High, LowPart;
    JoinTail(front, "", h, l);
    BehindHead(sp, Join(front + [h, l], ":"), h + ":" + l);
  }

  lemma HeadOfPrint(sp: Spelling)
    requires Valid(sp) && sp.quad.Some?
    ensures Print(sp) == Head(sp) + ":" + Dotted(sp.quad.value)
    ensures Print(Expanded(sp)) == Head(sp) + ":" + Hex(High(sp.quad.value)) + ":" + Hex(LowPart(sp.quad.value))
  {
    var h, l := Hex(High(sp.quad.value)), Hex(LowPart(sp.quad.value));
    HeadOfTail(sp);
    HeadOfWords(sp, h, l);
    hide Valid, Print, Head, Expanded, Hex, High, LowPart, Dotted;
    assert Head(sp) + ":" + (h + ":" + l) == Head(sp) + ":" + h + ":" + l;
  }

  lemma ExpandedTail(sp: Spelling)
    requires IsQuad(sp.quad) && sp.quad.Some?
    ensures var tail, e := [Hex(High(sp.quad.value)), Hex(LowPart(sp.quad.value))], Expanded(sp);
      && e.quad.None? && e.compressed == sp.compressed && Tail(e.quad) == []
      && (if sp.compressed then e.left == sp.left && e.right + Tail(e.quad) == sp.right + tail else e.left + Tail(e.quad) == sp.left + tail)
  {
  }

  lemma ExpandedMeansTheSame(sp: Spelling)
    requires Valid(sp) && sp.quad.Some?
    ensures Valid(Expanded(sp)) && Meaning(Expanded(sp)) == Meaning(sp)
  {
    var high, low := High(sp.quad.value), LowPart(sp.quad.value);
    HexReadsBack(high);
    HexReadsBack(low);
    hide Hex, High, LowPart;
    var tail := [Hex(high), Hex(low)];
    assert HexValues(tail) == [high, low];
    assert HexValues(sp.left + tail) == HexValues(sp.left) + HexValues(tail);
    assert HexValues(sp.right + tail) == HexValues(sp.right) + HexValues(tail);
  }

  lemma DottedIsPlain(q: seq<byte>)
    requires |q| == 4
    ensures ':' !in Dotted(q) && '.' in Dotted(q)
    ensures forall i :: 0 <= i < |Dotted(q)| ==> IsHexDigit(Dotted(q)[i]) || Dotted(q)[i] == '.'
  {
    forall k | 0 <= k < 4 ensures IsDecimal(Decimal(q[k])) { DecimalReadsBack(q[k]); }
    hide Decimal;
    var a, b, c, d := Decimal(q[0]), Decimal(q[1]), Decimal(q[2]), Decimal(q[3]);
    JoinFour(a, b, c, d);
    assert Dotted(q)[|a|] == '.';
  }

  lemma JoinFour(a: string, b: string, c: string, d: string)
    ensures Join([a, b, c, d], ".") == a + "." + (b + "." + (c + "." + d))
  {
    assert [a, b, c, d][1..] == [b, c, d];
    assert [b, c, d][1..] == [c, d];
    assert [c, d][1..] == [d];
    assert Join([c, d], ".") == c + "." + d;
    assert c + "." + d == c + ("." + d);
  }

  lemma {:induction false} LastColonOf(head: string, d: string)
    requires ':' !in d
    ensures LastColon(head + ":" + d) == Some(|head|)
  {
    var text := head + ":" + d;
    if d != "" {
      var init := d[..|d| - 1];
      assert text[..|text| - 1] == head + ":" + init;
      LastColonOf(head, init);
    }
  }

  lemma UnquadOfTail(head: string, q: seq<byte>)
    requires |q| == 4
    ensures Unquad(head + ":" + Dotted(q)) == Some(head + ":" + Hex(High(q)) + ":" + Hex(LowPart(q)))
  {
    var d := Dotted(q);
    DottedIsPlain(q);
    V4Exact(d, q);
    LastColonOf(head, d);
    hide V4, Hex, High, LowPart, LastColon;
    var text := head + ":" + d;
    assert text[|head| + 1..] == d && text[..|head| + 1] == head + ":";
    assert '.' in text by { assert '.' in text[|head| + 1..]; }
  }

  // ------------------------------------------------------------------- main results

  /** Text made of hexadecimal digits and colons. */
  ghost predicate Plain(text: string) {
    forall i :: 0 <= i < |text| ==> IsHexDigit(text[i]) || text[i] == ':'
  }

  lemma PlainConcat(a: string, b: string)
    requires Plain(a) && Plain(b)
    ensures Plain(a + b)
  {
  }

  lemma HeadIsPlain(sp: Spelling)
    requires Valid(sp)
    ensures Plain(Head(sp)) && Plain(":") && Plain("::")
  {
    JoinIsTidy(sp.left);
    JoinIsTidy(sp.right);
    var a, b := Join(sp.left, ":"), Join(sp.right, ":");
    assert Plain(a) && Plain(b) && Plain(":") && Plain("::");
    hide Plain, Join, Tidy, AllHextets;
    PlainConcat(a, ":");
    PlainConcat(a, "::");
    PlainConcat(a + "::", b);
  }

  lemma PrintHasV6Characters(sp: Spelling)
    requires Valid(sp)
    ensures HasV6Characters(Print(sp))
    ensures sp.quad.None? ==> '.' !in Print(sp)
  {
    if sp.quad.Some? {
      HeadIsPlain(sp);
      HeadOfPrint(sp);
      DottedIsPlain(sp.quad.value);
      hide Valid, Dotted, Print, Head;
    } else {
      PlainPrint(sp);
      hide Valid, Print;
    }
  }

  lemma PlainPrint(sp: Spelling)
    requires Valid(sp) && sp.quad.None?
    ensures Plain(Print(sp)) && Print(sp) != ""
  {
    JoinIsTidy(sp.left);
    JoinIsTidy(sp.right);
    var a, b := Join(sp.left, ":"), Join(sp.right, ":");
    assert sp.left + [] == sp.left && sp.right + [] == sp.right;
    assert Plain(a) && Plain(b) && Plain("::");
    hide Plain, Join, Tidy, AllHextets;
    if sp.compressed {
      PlainConcat(a, "::");
      PlainConcat(a + "::", b);
    }
  }

  /** Every spelling of an address parses to that address. */
  lemma SpellingsParse(sp: Spelling)
    requires Valid(sp)
    ensures (forall i :: 0 <= i < 8 ==> Meaning(sp)[i] < 0x1_0000) && V6(Print(sp)) == Some(BytesOf(Meaning(sp)))
  {
    PrintHasV6Characters(sp);
    hide HasV6Characters, BytesOf, Meaning, Words, Print, Head;
    if sp.quad.None? {
      WordsOfPlain(sp);
      WordsAreSmall(Print(sp));
    } else {
      HeadOfPrint(sp);
      UnquadOfTail(Head(sp), sp.quad.value);
      ExpandedMeansTheSame(sp);
      WordsOfPlain(Expanded(sp));
      WordsAreSmall(Print(Expanded(sp)));
    }
  }

  /** The spelling of an accepted text without a dotted tail. */
  lemma PlainIsSpelled(text: string) returns (sp: Spelling)
    requires Words(text).Some?
    ensures Valid(sp) && sp.quad.None? && Print(sp) == text
    ensures var first := FirstPair(text, 0);
      && sp.compressed == first.Some?
      && sp.left == Groups(if first.Some? then text[..first.value] else text)
      && sp.right == if first.Some? then Groups(text[first.value + 2..]) else []
  {
    var first := FirstPair(text, 0);
    var a := if first.Some? then text[..first.value] else text;
    var b := if first.Some? then text[first.value + 2..] else "";
    HextetsAreGroups(a);
    HextetsAreGroups(b);
    sp := Spelling(Groups(a), first.Some?, Groups(b), None);
    assert Groups("") == [];
    hide Hextets, Groups, AllHextets, FirstPair, LastPair, HexValues;
    assert Valid(sp);
    hide Valid, Words, Zeros, Join;
    assert sp.left + [] == sp.left && sp.right + [] == sp.right;
    if first.Some? { AroundPair(text, first.value); }
  }

  lemma AroundPair(text: string, i: nat)
    requires PairAt(text, i)
    ensures text == text[..i] + "::" + text[i + 2..]
  {
  }

  /** Groups behind a colon keep their two last members. */
  lemma GroupsOfTail(front: string, h: string, l: string)
    requires h != "" && ':' !in h && ':' !in l
    ensures Groups(front + ":" + h + ":" + l) == Split(front, ':') + [h, l]
    ensures Groups(h + ":" + l) == [h, l]
  {
    SplitConcat(h, l, ':');
    SplitOfPlain(h, ':');
    SplitOfPlain(l, ':');
    SplitConcat(front, h + ":" + l, ':');
    assert front + ":" + h + ":" + l == front + ":" + (h + ":" + l);
    assert h + ":" + l == h + [':'] + l;
  }

  /** Taking the two last groups back as a dotted tail. */
  lemma Requad(sp: Spelling, front: seq<string>, q: seq<byte>) returns (sq: Spelling)
    requires Valid(sp) && sp.quad.None? && |q| == 4
    requires (if sp.compressed then sp.right else sp.left) == front + [Hex(High(q)), Hex(LowPart(q))]
    ensures Valid(sq) && sq.quad == Some(q) && Expanded(sq) == sp
  {
    sq := if sp.compressed then sp.(right := front, quad := Some(q)) else sp.(left := front, quad := Some(q));
    forall i | 0 <= i < |front| ensures IsHextet(front[i]) {
      if sp.compressed { assert sp.right[i] == front[i]; } else { assert sp.left[i] == front[i]; }
    }
  }

  lemma TextOfTail(text: string) returns (head: string, q: seq<byte>)
    requires '.' in text && Unquad(text).Some?
    ensures |q| == 4 && text == head + ":" + Dotted(q)
  {
    var colon := LastColon(text).value;
    head, q := text[..colon], V4(text[colon + 1..]).value;
    V4Exact(text[colon + 1..], q);
    hide V4, Dotted, Unquad, LastColon;
    AroundColon(text, colon);
  }

  lemma AroundColon(text: string, i: nat)
    requires i < |text| && text[i] == ':'
    ensures text == text[..i] + ":" + text[i + 1..]
  {
  }

  /** In a text that ends in two hexadecimal words the "::" comes before both. */
  lemma FrontOfTail(head: string, h: string, l: string) returns (front: seq<string>)
    requires IsHextet(h) && IsHextet(l)
    requires Words(head + ":" + h + ":" + l).Some?
    ensures var text := head + ":" + h + ":" + l;
      var first := FirstPair(text, 0);
      Groups(if first.Some? then text[first.value + 2..] else text) == front + [h, l]
  {
    var text := head + ":" + h + ":" + l;
    HextetIsTidy(h);
    HextetIsTidy(l);
    var first := FirstPair(text, 0);
    if first.None? {
      GroupsOfTail(head, h, l);
      front := Split(head, ':');
    } else {
      var i := first.value;
      var tail := h + ":" + l;
      assert text == head + ":" + tail;
      assert i < |head| by {
        TidyConcat(h, l);
        assert !PairAt(tail, i - |head| - 1);
      }
      if i == |head| - 1 {
        GroupsOfTail("", h, l);
        assert text[i + 2..] == tail;
        front := [];
      } else {
        var rest := head[i + 2..];
        GroupsOfTail(rest, h, l);
        assert text[i + 2..] == rest + ":" + h + ":" + l;
        front := Split(rest, ':');
      }
    }
  }

  /** Every accepted text is a spelling. */
  lemma AcceptedIsSpelled(text: string) returns (sp: Spelling)
    requires V6(text).Some?
    ensures Valid(sp) && Print(sp) == text
  {
    if '.' !in text {
      sp := PlainIsSpelled(text);
    } else {
      var head, q := TextOfTail(text);
      UnquadOfTail(head, q);
      var h, l := Hex(High(q)), Hex(LowPart(q));
      HexReadsBack(High(q));
      HexReadsBack(LowPart(q));
      hide Unquad, Hex, High, LowPart, V4, Dotted, IsHextet, Groups, Valid;
      var plain := PlainIsSpelled(head + ":" + h + ":" + l);
      var front := FrontOfTail(head, h, l);
      sp := Requad(plain, front, q);
      HeadOfPrint(sp);
      SameHead(Head(sp), head, h, l);
    }
  }

  lemma SameHead(a: string, b: string, h: string, l: string)
    requires a + ":" + h + ":" + l == b + ":" + h + ":" + l
    ensures a == b
  {
    var x, y := a + ":" + h + ":" + l, b + ":" + h + ":" + l;
    assert |a| == |b| && a == x[..|a|] && b == y[..|b|];
  }

  /** The accepted texts are exactly the spellings, and each denotes the words it spells. */
  lemma V6Exact(text: string, bytes: seq<byte>)
    ensures V6(text) == Some(bytes) <==>
      exists sp :: Valid(sp) && Print(sp) == text && (forall i :: 0 <= i < 8 ==> Meaning(sp)[i] < 0x1_0000) && BytesOf(Meaning(sp)) == bytes
  {
    if V6(text) == Some(bytes) {
      var sp := AcceptedIsSpelled(text);
      SpellingsParse(sp);
    }
    if sp :| Valid(sp) && Print(sp) == text && (forall i :: 0 <= i < 8 ==> Meaning(sp)[i] < 0x1_0000) && BytesOf(Meaning(sp)) == bytes {
      SpellingsParse(sp);
    }
  }
}
