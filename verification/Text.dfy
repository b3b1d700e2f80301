/** JavaScript string operations: split, join and UTF-8 length. */
module Text {

  /** `s.split(c)` for a one-character separator. */
  function Split(s: string, c: char): (parts: seq<string>)
    ensures parts != []
  {
    if s == "" then [""]
    else
      var rest := Split(s[1..], c);
      if s[0] == c then [""] + rest else [[s[0]] + rest[0]] + rest[1..]
  }

  /** `parts.join(sep)`. */
  function Join(parts: seq<string>, sep: string): string {
    if parts == [] then ""
    else if |parts| == 1 then parts[0]
    else parts[0] + sep + Join(parts[1..], sep)
  }

  /** Joining the pieces of a split gives the text back. */
  lemma {:induction false} JoinSplit(s: string, c: char)
    ensures Join(Split(s, c), [c]) == s
  {
    if s != "" {
      JoinSplit(s[1..], c);
      var rest := Split(s[1..], c);
      if s[0] == c {
        assert ([""] + rest)[1..] == rest;
      } else {
        var parts := [[s[0]] + rest[0]] + rest[1..];
        assert parts[1..] == rest[1..];
        if |rest| == 1 { assert parts == [[s[0]] + rest[0]]; }
      }
      assert s == [s[0]] + s[1..];
    }
  }

  lemma {:induction false} SplitOfPlain(s: string, c: char)
    requires c !in s
    ensures Split(s, c) == [s]
  {
    if s != "" {
      SplitOfPlain(s[1..], c);
      assert s == [s[0]] + s[1..];
    }
  }

  lemma {:induction false} SplitAfterFirst(x: string, y: string, c: char)
    requires c !in x
    ensures Split(x + [c] + y, c) == [x] + Split(y, c)
  {
    var s := x + [c] + y;
    if x == "" {
      assert s[1..] == y;
    } else {
      SplitAfterFirst(x[1..], y, c);
      assert s[1..] == x[1..] + [c] + y;
      assert x == [x[0]] + x[1..];
    }
  }

  /** Splitting a join of pieces free of the separator gives the pieces back. */
  lemma {:induction false} SplitJoin(parts: seq<string>, c: char)
    requires parts != [] && forall i :: 0 <= i < |parts| ==> c !in parts[i]
    ensures Split(Join(parts, [c]), c) == parts
  {
    if |parts| == 1 {
      SplitOfPlain(parts[0], c);
    } else {
      SplitJoin(parts[1..], c);
      SplitAfterFirst(parts[0], Join(parts[1..], [c]), c);
      assert parts == [parts[0]] + parts[1..];
    }
  }

  lemma {:induction false} PiecesArePlain(s: string, c: char, i: nat)
    requires i < |Split(s, c)|
    ensures c !in Split(s, c)[i]
  {
    if s != "" {
      var rest := Split(s[1..], c);
      if s[0] == c {
        if i > 0 { PiecesArePlain(s[1..], c, i - 1); }
      } else {
        PiecesArePlain(s[1..], c, i);
      }
    }
  }

  lemma JoinThree(a: string, b: string, c: string, sep: string)
    ensures Join([a, b, c], sep) == a + sep + b + sep + c
  {
    var parts := [a, b, c];
    assert parts[1..] == [b, c];
    assert parts[1..][1..] == [c];
    assert Join(parts[1..], sep) == b + sep + c;
    assert a + sep + (b + sep + c) == a + sep + b + sep + c;
  }

  function Utf8Size(c: char): nat {
    if c < '\U{80}' then 1 else if c < '\U{800}' then 2 else if c < '\U{10000}' then 3 else 4
  }

  /** `Buffer.byteLength(s, "utf8")`. */
  function Utf8Length(s: string): nat {
    if s == "" then 0 else Utf8Size(s[0]) + Utf8Length(s[1..])
  }

  lemma {:induction false} AsciiLength(s: string)
    requires forall i :: 0 <= i < |s| ==> s[i] < '\U{80}'
    ensures Utf8Length(s) == |s|
  {
    if s != "" { AsciiLength(s[1..]); }
  }

  lemma FirstOfConcat(p: string, a: seq<string>, b: seq<string>)
    requires a != []
    ensures [p + (a + b)[0]] + (a + b)[1..] == ([p + a[0]] + a[1..]) + b
  {
  }

  lemma SplitStep(s: string, c: char)
    ensures Split(s, c) == if s == "" then [""]
      else if s[0] == c then [""] + Split(s[1..], c) else [[s[0]] + Split(s[1..], c)[0]] + Split(s[1..], c)[1..]
  {
  }

  /** Splitting at a separator splits both sides. */
  lemma {:induction false} SplitConcat(x: string, y: string, c: char)
    ensures Split(x + [c] + y, c) == Split(x, c) + Split(y, c)
  {
    var s := x + [c] + y;
    SplitStep(s, c);
    SplitStep(x, c);
    hide Split;
    if x == "" {
      assert s[1..] == y;
    } else {
      SplitConcat(x[1..], y, c);
      assert s[1..] == x[1..] + [c] + y;
      var a, b := Split(x[1..], c), Split(y, c);
      assert s[0] == x[0];
      if x[0] == c {
        assert [""] + (a + b) == ([""] + a) + b;
      } else {
        FirstOfConcat([x[0]], a, b);
      }
    }
  }

  /** Two lists of pieces, the last of the one joined to the first of the other. */
  function Glue(xs: seq<string>, ys: seq<string>): seq<string>
    requires xs != [] && ys != []
  {
    xs[..|xs| - 1] + [xs[|xs| - 1] + ys[0]] + ys[1..]
  }

  /** The pieces of two texts one behind the other: only the pieces where they meet are joined. */
  lemma {:induction false} SplitBehind(x: string, y: string, c: char)
    ensures Split(x + y, c) == Glue(Split(x, c), Split(y, c))
  {
    if x == "" {
      assert x + y == y && "" + Split(y, c)[0] == Split(y, c)[0];
    } else {
      SplitBehind(x[1..], y, c);
      assert (x + y)[1..] == x[1..] + y && (x + y)[0] == x[0];
      var a, b := Split(x[1..], c), Split(y, c);
      if x[0] == c { GlueBehind([""], a, b); } else { GlueHead([x[0]], a, b); }
    }
  }

  lemma GlueBehind(first: seq<string>, a: seq<string>, b: seq<string>)
    requires a != [] && b != []
    ensures first + Glue(a, b) == Glue(first + a, b)
  {
  }

  lemma GlueHead(p: string, a: seq<string>, b: seq<string>)
    requires a != [] && b != []
    ensures [p + Glue(a, b)[0]] + Glue(a, b)[1..] == Glue([p + a[0]] + a[1..], b)
  {
    if |a| == 1 { assert p + (a[0] + b[0]) == (p + a[0]) + b[0]; }
  }

  /** The last piece is empty exactly for an empty text and behind a separator. */
  lemma {:induction false} LastPieceIsEmpty(s: string, c: char)
    ensures var pieces := Split(s, c); pieces[|pieces| - 1] == "" <==> s == "" || s[|s| - 1] == c
  {
    if s != "" { LastPieceIsEmpty(s[1..], c); }
  }

  lemma {:induction false} JoinConcat(xs: seq<string>, ys: seq<string>, sep: string)
    requires xs != [] && ys != []
    ensures Join(xs + ys, sep) == Join(xs, sep) + sep + Join(ys, sep)
  {
    assert (xs + ys)[1..] == xs[1..] + ys;
    if |xs| > 1 {
      JoinConcat(xs[1..], ys, sep);
      assert xs[0] + sep + (Join(xs[1..], sep) + sep + Join(ys, sep)) == xs[0] + sep + Join(xs[1..], sep) + sep + Join(ys, sep);
    }
  }

  // ------------------------------------------------------------------------ digits

  function Digit(n: int): char
    requires 0 <= n <= 9
  {
    "0123456789"[n]
  }

  predicate IsDecimal(s: string) {
    s != "" && forall i :: 0 <= i < |s| ==> '0' <= s[i] <= '9'
  }

  function DecimalValue(s: string): nat
    requires forall i :: 0 <= i < |s| ==> '0' <= s[i] <= '9'
  {
    if s == "" then 0 else 10 * DecimalValue(s[..|s| - 1]) + (s[|s| - 1] - '0') as int
  }

  /** A decimal number without leading zeros. */
  function Decimal(n: nat): (s: string)
    ensures s != ""
  {
    if n < 10 then [Digit(n)] else Decimal(n / 10) + [Digit(n % 10)]
  }

  lemma {:induction false} DecimalReadsBack(n: nat)
    ensures IsDecimal(Decimal(n)) && DecimalValue(Decimal(n)) == n
    ensures n > 0 ==> Decimal(n)[0] != '0'
    ensures n < 10 ==> |Decimal(n)| == 1
    ensures n >= 10 ==> |Decimal(n)| == |Decimal(n / 10)| + 1
  {
    if n >= 10 {
      DecimalReadsBack(n / 10);
      var s := Decimal(n / 10);
      assert (s + [Digit(n % 10)])[..|s|] == s;
    } else {
      assert [Digit(n)][..0] == "";
    }
  }
}
