/** Removing configured secrets from diagnostics (src/audit/util.ts). */
module SecretRemoval {
  import opened Prelude
  import opened Text

  const UNAVAILABLE := "diagnostic unavailable"
  const REDACTED := "[redacted]"

  predicate OccursAt(s: string, secret: string, i: int) {
    0 <= i && i + |secret| <= |s| && s[i..i + |secret|] == secret
  }

  ghost predicate Occurs(s: string, secret: string) {
    exists i :: OccursAt(s, secret, i)
  }

  // ------------------------------------------------------------------ subsequences

  lemma {:induction false} SubsequenceSelf(s: string)
    ensures IsSubsequence(s, s)
  {
    if s != "" { SubsequenceSelf(s[1..]); }
  }

  lemma {:induction false} SubsequenceTransitive(a: string, b: string, c: string)
    requires IsSubsequence(a, b) && IsSubsequence(b, c)
    ensures IsSubsequence(a, c)
    decreases |c|
  {
    if a != "" {
      if b[0] == c[0] && IsSubsequence(b[1..], c[1..]) {
        if a[0] == b[0] && IsSubsequence(a[1..], b[1..]) {
          SubsequenceTransitive(a[1..], b[1..], c[1..]);
        } else {
          SubsequenceTransitive(a, b[1..], c[1..]);
        }
      } else {
        SubsequenceTransitive(a, b, c[1..]);
      }
    }
  }

  lemma {:induction false} SubsequenceOfMore(a: string, x: string, s: string)
    requires IsSubsequence(a, s)
    ensures IsSubsequence(a, x + s)
  {
    if x == "" {
      assert x + s == s;
    } else {
      SubsequenceOfMore(a, x[1..], s);
      assert (x + s)[1..] == x[1..] + s;
    }
  }

  // ------------------------------------------------------------- split and join again

  function Characters(s: string): seq<string> {
    if s == "" then [] else [[s[0]]] + Characters(s[1..])
  }

  /** `s.split(sep)`. */
  function SplitBy(s: string, sep: string): (parts: seq<string>)
    ensures sep != "" ==> parts != []
  {
    if sep == "" then Characters(s)
    else if |s| < |sep| then [s]
    else if s[..|sep|] == sep then [""] + SplitBy(s[|sep|..], sep)
    else
      var rest := SplitBy(s[1..], sep);
      [[s[0]] + rest[0]] + rest[1..]
  }

  /** One removal: `s.split(secret).join("")`. */
  function Without(s: string, secret: string): string {
    Join(SplitBy(s, secret), "")
  }

  lemma {:induction false} WithoutEmpty(s: string)
    ensures Without(s, "") == s
  {
    if s != "" {
      WithoutEmpty(s[1..]);
      assert Characters(s)[1..] == Characters(s[1..]);
      assert s == [s[0]] + s[1..];
    }
  }

  lemma WithoutStep(s: string, secret: string)
    requires secret != "" && |s| >= |secret|
    ensures Without(s, secret) ==
      if s[..|secret|] == secret then Without(s[|secret|..], secret) else [s[0]] + Without(s[1..], secret)
  {
    if s[..|secret|] == secret {
      var rest := SplitBy(s[|secret|..], secret);
      assert ([""] + rest)[1..] == rest;
    } else {
      var rest := SplitBy(s[1..], secret);
      var parts := [[s[0]] + rest[0]] + rest[1..];
      assert parts[1..] == rest[1..];
    }
  }

  /** One removal deletes characters only, and changes nothing exactly when the secret does not occur. */
  lemma {:induction false} WithoutDeletes(s: string, secret: string)
    ensures IsSubsequence(Without(s, secret), s)
    ensures Without(s, secret) != s ==> |Without(s, secret)| < |s|
    ensures secret != "" ==> (Without(s, secret) == s <==> !Occurs(s, secret))
  {
    if secret == "" {
      WithoutEmpty(s);
      SubsequenceSelf(s);
    } else if |s| < |secret| {
      SubsequenceSelf(s);
    } else {
      WithoutStep(s, secret);
      if s[..|secret|] == secret {
        var rest := s[|secret|..];
        WithoutDeletes(rest, secret);
        SubsequenceOfMore(Without(rest, secret), secret, rest);
        assert secret + rest == s && OccursAt(s, secret, 0);
      } else {
        WithoutDeletes(s[1..], secret);
        assert s == [s[0]] + s[1..];
        OccursLater(s, secret);
      }
    }
  }

  lemma OccursLater(s: string, secret: string)
    requires secret != "" && |s| >= |secret| && s[..|secret|] != secret
    ensures Occurs(s, secret) <==> Occurs(s[1..], secret)
  {
    forall i: nat ensures OccursAt(s, secret, i + 1) <==> OccursAt(s[1..], secret, i) {
      if i + 1 + |secret| <= |s| { assert s[1..][i..i + |secret|] == s[i + 1..i + 1 + |secret|]; }
    }
    if Occurs(s, secret) {
      var i :| OccursAt(s, secret, i);
      assert OccursAt(s[1..], secret, i - 1);
    }
    if Occurs(s[1..], secret) {
      var i :| OccursAt(s[1..], secret, i);
      assert OccursAt(s, secret, i + 1);
    }
  }

  ghost predicate FreeOf(s: string, secrets: seq<string>) {
    forall secret :: secret in secrets && secret != "" ==> !Occurs(s, secret)
  }

  /** No secret is left, whatever the removals bring together, and nothing but characters is removed. */
  method RemoveExactSecrets(input: string, secrets: seq<string>) returns (output: string)
    ensures IsSubsequence(output, input)
    ensures FreeOf(output, secrets)
    ensures FreeOf(input, secrets) ==> output == input
  {
    output := input;
    SubsequenceSelf(input);
    while true
      invariant IsSubsequence(output, input)
      invariant FreeOf(input, secrets) ==> output == input
      decreases |output|
    {
      var before := output;
      for i := 0 to |secrets|
        invariant IsSubsequence(output, input)
        invariant FreeOf(input, secrets) ==> output == input
        invariant |output| <= |before|
        invariant output == before || |output| < |before|
        invariant output == before ==> FreeOf(before, secrets[..i])
      {
        WithoutDeletes(output, secrets[i]);
        if secrets[i] == "" { WithoutEmpty(output); }
        SubsequenceTransitive(Without(output, secrets[i]), output, input);
        output := Without(output, secrets[i]);
        assert secrets[..i + 1] == secrets[..i] + [secrets[i]];
      }
      assert secrets[..|secrets|] == secrets;
      if output == before { return; }
    }
  }

  // -------------------------------------------------------------- covering spans

  /** The match of a pattern in the source. */
  datatype Span = Span(start: nat, length: nat)

  /** What STDERR_LINE_BREAKS matches. */
  predicate IsLineBreak(c: char) {
    c <= '\U{001F}' || '\U{007F}' <= c <= '\U{009F}' || c == '\U{2028}' || c == '\U{2029}'
  }

  /** Every run of line breaks becomes one space. */
  function SingleLine(s: string): (r: string)
    ensures |r| <= |s|
    ensures forall i :: 0 <= i < |r| ==> !IsLineBreak(r[i])
  {
    if s == "" then ""
    else if !IsLineBreak(s[0]) then [s[0]] + SingleLine(s[1..])
    else if |s| > 1 && IsLineBreak(s[1]) then SingleLine(s[1..])
    else " " + SingleLine(s[1..])
  }

  /** The characters whose place is not covered. */
  function Uncovered(s: string, covered: seq<bool>): string
    requires |covered| == |s|
  {
    if s == "" then ""
    else Uncovered(s[..|s| - 1], covered[..|s| - 1]) + if covered[|s| - 1] then "" else [s[|s| - 1]]
  }

  function IndexOfFrom(s: string, secret: string, start: nat): (at: Option<nat>)
    ensures at.Some? ==> start <= at.value && OccursAt(s, secret, at.value)
    ensures forall i :: start <= i && (at.None? || i < at.value) ==> !OccursAt(s, secret, i)
    decreases |s| - start
  {
    if start + |secret| > |s| then None
    else if s[start..start + |secret|] == secret then Some(start)
    else if start == |s| then None
    else IndexOfFrom(s, secret, start + 1)
  }

  method Cover(covered: array<bool>, start: nat, end: nat)
    modifies covered
    ensures forall i :: 0 <= i < covered.Length ==> covered[i] == (old(covered[i]) || start <= i < end)
  {
    var last := if end <= covered.Length then end else covered.Length;
    var i := start;
    while i < last
      invariant start <= i
      invariant forall k :: 0 <= k < covered.Length ==> covered[k] == (old(covered[k]) || start <= k < Min(i, last))
    {
      covered[i] := true;
      i := i + 1;
    }
  }

  /** The place lies in an occurrence of the secret. */
  ghost predicate InOccurrence(source: string, secret: string, i: int) {
    exists p :: p <= i < p + |secret| && OccursAt(source, secret, p)
  }

  /** Covers every place where a secret starts, so that none is left in one piece, and only places of secrets. */
  method CoverSecret(covered: array<bool>, source: string, secret: string)
    requires covered.Length == |source| && secret != ""
    modifies covered
    ensures forall i :: 0 <= i < |source| && old(covered[i]) ==> covered[i]
    ensures forall i: nat :: OccursAt(source, secret, i) ==> covered[i]
    ensures forall i :: 0 <= i < |source| && covered[i] ==> old(covered[i]) || InOccurrence(source, secret, i)
  {
    var start := 0;
    while true
      invariant start <= |source|
      invariant forall i :: 0 <= i < |source| && old(covered[i]) ==> covered[i]
      invariant forall i: nat :: i < start && OccursAt(source, secret, i) ==> covered[i]
      invariant forall i :: 0 <= i < |source| && covered[i] ==> old(covered[i]) || InOccurrence(source, secret, i)
      decreases |source| - start
    {
      var at := IndexOfFrom(source, secret, start);
      if at.None? { return; }
      Cover(covered, at.value, at.value + |secret|);
      start := at.value + |secret|;
    }
  }

  ghost predicate InSpan(spans: seq<Span>, i: int) {
    exists k :: 0 <= k < |spans| && spans[k].start <= i < spans[k].start + spans[k].length
  }

  /** A secret too long for the source starts in the first 200 places of the input, at or before this one. */
  ghost predicate BehindLongSecret(input: string, source: string, secret: string, i: int) {
    |secret| > |source| && exists p :: 0 <= p <= i && p < 200 && OccursAt(input, secret, p)
  }

  /** What a place is removed for. */
  ghost predicate Marked(input: string, source: string, spans: seq<Span>, secrets: seq<string>, i: int) {
    InSpan(spans, i) || exists secret :: secret in secrets && (InOccurrence(source, secret, i) || BehindLongSecret(input, source, secret, i))
  }

  lemma MarkedForMore(input: string, source: string, spans: seq<Span>, some: seq<string>, secret: string, i: int)
    ensures Marked(input, source, spans, some, i) ==> Marked(input, source, spans, some + [secret], i)
    ensures InOccurrence(source, secret, i) || BehindLongSecret(input, source, secret, i) ==> Marked(input, source, spans, some + [secret], i)
  {
    assert secret in some + [secret];
    if s :| s in some && (InOccurrence(source, s, i) || BehindLongSecret(input, source, s, i)) {
      assert s in some + [secret];
    }
  }

  /** The places covered for one secret, and those covered before. */
  method CoverOne(mask: array<bool>, input: string, source: string, secret: string)
    requires mask.Length == |source| && secret != ""
    modifies mask
    ensures forall i :: 0 <= i < |source| && old(mask[i]) ==> mask[i]
    ensures forall i: nat :: OccursAt(source, secret, i) ==> mask[i]
    ensures forall i :: 0 <= i < |source| && mask[i] ==>
      old(mask[i]) || InOccurrence(source, secret, i) || BehindLongSecret(input, source, secret, i)
  {
    CoverSecret(mask, source, secret);
    if |secret| > |source| {
      ghost var before := mask[..];
      for position := 0 to Min(200, |source|)
        invariant forall i :: 0 <= i < |source| && before[i] ==> mask[i]
        invariant forall i :: 0 <= i < |source| && mask[i] ==> before[i] || BehindLongSecret(input, source, secret, i)
      {
        if OccursAt(input, secret, position) { Cover(mask, position, |source|); }
      }
    }
  }

  /** `redactSecretsAndExact`, for any matches of the patterns. `covered` marks the places removed: every match of a
      pattern, the start of every secret, and nothing without such a reason. */
  method RedactSecretsAndExact(input: string, spans: seq<Span>, secrets: seq<string>) returns (output: string, ghost covered: seq<bool>)
    requires forall k :: 0 <= k < |secrets| ==> secrets[k] != ""
    ensures |input| > 8192 ==> output == UNAVAILABLE
    ensures |input| <= 8192 ==>
      var source := SingleLine(input);
      && |covered| == |source| && output == Uncovered(source, covered)
      && (forall i :: 0 <= i < |source| && InSpan(spans, i) ==> covered[i])
      && (forall k, i: nat :: 0 <= k < |secrets| && OccursAt(source, secrets[k], i) ==> covered[i])
      && (forall i :: 0 <= i < |source| && covered[i] ==> Marked(input, source, spans, secrets, i))
  {
    covered := [];
    if |input| > 8192 { return UNAVAILABLE, covered; }
    var source := SingleLine(input);
    var mask := new bool[|source|](_ => false);
    for k := 0 to |spans|
      invariant forall i :: 0 <= i < |source| ==> (mask[i] <==> InSpan(spans[..k], i))
    {
      SpanAdded(spans, k);
      Cover(mask, spans[k].start, spans[k].start + spans[k].length);
    }
    assert spans[..|spans|] == spans;
    for k := 0 to |secrets|
      invariant forall i :: 0 <= i < |source| && InSpan(spans, i) ==> mask[i]
      invariant forall j, i: nat :: 0 <= j < k && OccursAt(source, secrets[j], i) ==> mask[i]
      invariant forall i :: 0 <= i < |source| && mask[i] ==> Marked(input, source, spans, secrets[..k], i)
    {
      hide InSpan, InOccurrence, BehindLongSecret, Marked, OccursAt;
      forall i | 0 <= i < |source|
        ensures Marked(input, source, spans, secrets[..k], i) ==> Marked(input, source, spans, secrets[..k] + [secrets[k]], i)
        ensures InOccurrence(source, secrets[k], i) || BehindLongSecret(input, source, secrets[k], i)
          ==> Marked(input, source, spans, secrets[..k] + [secrets[k]], i)
      {
        MarkedForMore(input, source, spans, secrets[..k], secrets[k], i);
      }
      assert secrets[..k + 1] == secrets[..k] + [secrets[k]];
      CoverOne(mask, input, source, secrets[k]);
    }
    assert secrets[..|secrets|] == secrets;
    covered := mask[..];
    output := Keep(source, mask);
  }

  lemma SpanAdded(spans: seq<Span>, k: nat)
    requires k < |spans|
    ensures forall i :: InSpan(spans[..k + 1], i) <==> InSpan(spans[..k], i) || spans[k].start <= i < spans[k].start + spans[k].length
  {
    var some, more := spans[..k], spans[..k + 1];
    assert more[k] == spans[k];
    forall i ensures InSpan(more, i) <==> InSpan(some, i) || spans[k].start <= i < spans[k].start + spans[k].length {
      if InSpan(some, i) {
        var j :| 0 <= j < |some| && some[j].start <= i < some[j].start + some[j].length;
        assert more[j] == some[j];
      }
      if InSpan(more, i) {
        var j :| 0 <= j < |more| && more[j].start <= i < more[j].start + more[j].length;
        if j < k { assert some[j] == more[j]; }
      }
    }
  }

  /** The loop that writes the uncovered characters out. */
  method Keep(source: string, mask: array<bool>) returns (output: string)
    requires mask.Length == |source|
    ensures output == Uncovered(source, mask[..])
  {
    output := "";
    for i := 0 to |source|
      invariant output == Uncovered(source[..i], mask[..i])
    {
      assert source[..i + 1][..i] == source[..i] && mask[..i + 1][..i] == mask[..i];
      if !mask[i] { output := output + [source[i]]; }
    }
    assert source[..|source|] == source && mask[..|source|] == mask[..];
  }

  // ------------------------------------------------------------ the whole diagnostic

  ghost predicate IsFormOf(values: seq<string>, x: string) {
    exists v :: v in values && (x == v || x == SingleLine(v))
  }

  lemma FormsOfTail(values: seq<string>)
    requires values != []
    ensures forall x :: IsFormOf(values, x) <==> x == values[0] || x == SingleLine(values[0]) || IsFormOf(values[1..], x)
  {
    forall x ensures IsFormOf(values, x) <==> x == values[0] || x == SingleLine(values[0]) || IsFormOf(values[1..], x) {
      if IsFormOf(values, x) {
        var v :| v in values && (x == v || x == SingleLine(v));
        if v != values[0] { assert v in values[1..]; }
      }
      if IsFormOf(values[1..], x) {
        var v :| v in values[1..] && (x == v || x == SingleLine(v));
        assert v in values;
      }
      assert values[0] in values;
    }
  }

  /** Every value and its single-line form. */
  function Flattened(values: seq<string>): (r: seq<string>)
    ensures forall x :: x in r <==> IsFormOf(values, x)
  {
    if values == [] then []
    else
      FormsOfTail(values);
      [values[0], SingleLine(values[0])] + Flattened(values[1..])
  }

  /** `[...new Set(xs)]` without empty strings. */
  function DistinctNonEmpty(xs: seq<string>): (r: seq<string>)
    ensures forall x :: x in r <==> x in xs && x != ""
    ensures NoDuplicates(r)
  {
    if xs == [] then []
    else
      var rest := DistinctNonEmpty(xs[..|xs| - 1]);
      var last := xs[|xs| - 1];
      if last == "" || last in rest then rest else rest + [last]
  }

  function InsertByLength(x: string, xs: seq<string>): (r: seq<string>)
    ensures forall y :: y in r <==> y == x || y in xs
  {
    if xs == [] || |x| > |xs[0]| then [x] + xs
    else
      assert xs == [xs[0]] + xs[1..];
      [xs[0]] + InsertByLength(x, xs[1..])
  }

  /** Longest first; equal lengths keep their order. */
  function LongestFirst(xs: seq<string>): (r: seq<string>)
    ensures forall y :: y in r <==> y in xs
  {
    if xs == [] then []
    else
      assert xs == xs[..|xs| - 1] + [xs[|xs| - 1]];
      InsertByLength(xs[|xs| - 1], LongestFirst(xs[..|xs| - 1]))
  }

  function SecretList(exactSecrets: seq<string>): (r: seq<string>)
    ensures forall x :: x in r <==> x != "" && IsFormOf(exactSecrets, x)
  {
    LongestFirst(DistinctNonEmpty(Flattened(exactSecrets)))
  }

  predicate LongerFirst(xs: seq<string>) {
    forall i, j :: 0 <= i < j < |xs| ==> |xs[i]| >= |xs[j]|
  }

  lemma {:induction false} InsertedByLength(x: string, xs: seq<string>)
    requires LongerFirst(xs)
    ensures LongerFirst(InsertByLength(x, xs)) && multiset(InsertByLength(x, xs)) == multiset(xs) + multiset{x}
  {
    if xs == [] {
    } else if |x| > |xs[0]| {
      assert InsertByLength(x, xs) == [x] + xs;
    } else {
      var rest := InsertByLength(x, xs[1..]);
      InsertedByLength(x, xs[1..]);
      assert xs == [xs[0]] + xs[1..];
      forall j | 0 <= j < |rest| ensures |xs[0]| >= |rest[j]| {
        assert rest[j] == x || rest[j] in xs[1..];
      }
    }
  }

  lemma {:induction false} SortedByLength(xs: seq<string>)
    ensures LongerFirst(LongestFirst(xs)) && multiset(LongestFirst(xs)) == multiset(xs)
  {
    if xs != [] {
      hide InsertByLength, LongerFirst;
      var front, last := xs[..|xs| - 1], xs[|xs| - 1];
      SortedByLength(front);
      InsertedByLength(last, LongestFirst(front));
      assert xs == front + [last];
      assert LongestFirst(xs) == InsertByLength(last, LongestFirst(front));
    }
  }

  /** The secrets to remove are every value and its single-line form but empty ones, each once, the longest first. */
  lemma SecretsAreLongestFirst(exactSecrets: seq<string>, x: string)
    ensures LongerFirst(SecretList(exactSecrets))
    ensures multiset(SecretList(exactSecrets))[x] ==
      if x != "" && exists v :: v in exactSecrets && (x == v || x == SingleLine(v)) then 1 else 0
  {
    var all := DistinctNonEmpty(Flattened(exactSecrets));
    SortedByLength(all);
    CountOfDistinct(all, x);
    assert x in all <==> x != "" && IsFormOf(exactSecrets, x);
  }

  lemma {:induction false} CountOfDistinct(xs: seq<string>, x: string)
    requires NoDuplicates(xs)
    ensures multiset(xs)[x] == if x in xs then 1 else 0
  {
    if xs != [] {
      CountOfDistinct(xs[..|xs| - 1], x);
      assert xs == xs[..|xs| - 1] + [xs[|xs| - 1]];
    }
  }

  /** One `replace` of the matches of a pattern, read from the place `from` on. */
  function Replaced(s: string, matches: seq<Span>, from: nat): string
    requires from <= |s|
  {
    if matches == [] then s[from..]
    else
      var m := matches[0];
      if m.start < from || m.start + m.length > |s| then Replaced(s, matches[1..], from)
      else s[from..m.start] + REDACTED + Replaced(s, matches[1..], m.start + m.length)
  }

  /** `redactSecrets`: one replacement after the other, each with the matches its pattern has then. */
  function RedactSecrets(s: string, passes: seq<seq<Span>>): string
    decreases |passes|
  {
    if passes == [] then s else RedactSecrets(Replaced(s, passes[0], 0), passes[1..])
  }

  /** `redactForStderr`, for any matches of the patterns; without matches, matching threw. */
  function RedactForStderr(text: string, passes: Option<seq<seq<Span>>>): string {
    if passes.None? then REDACTED
    else
      var line := RedactSecrets(SingleLine(text), passes.value);
      Trim(if |line| <= 200 then line else line[..200])
  }

  /** A redaction of the message: the covered places are the matches and the secrets, each for its reason. */
  ghost predicate Redaction(input: string, spans: seq<Span>, secrets: seq<string>, covered: seq<bool>) {
    var source := SingleLine(input);
    && |covered| == |source|
    && (forall i :: 0 <= i < |source| && InSpan(spans, i) ==> covered[i])
    && (forall k, i: nat :: 0 <= k < |secrets| && i < |source| && OccursAt(source, secrets[k], i) ==> covered[i])
    && (forall i :: 0 <= i < |source| && covered[i] ==> Marked(input, source, spans, secrets, i))
  }

  /** Nothing in the message matches a pattern, and neither it nor its single line holds a secret in either form. */
  ghost predicate Harmless(input: string, spans: seq<Span>, passes: Option<seq<seq<Span>>>, exactSecrets: seq<string>) {
    && (forall i :: 0 <= i < |SingleLine(input)| ==> !InSpan(spans, i))
    && passes.Some? && (forall k :: 0 <= k < |passes.value| ==> passes.value[k] == [])
    && forall x :: IsFormOf(exactSecrets, x) && x != "" ==> !Occurs(input, x) && !Occurs(SingleLine(input), x)
  }

  lemma {:induction false} SingleLineStays(s: string)
    requires forall i :: 0 <= i < |s| ==> !IsLineBreak(s[i])
    ensures SingleLine(s) == s
  {
    if s != "" {
      SingleLineStays(s[1..]);
      assert s == [s[0]] + s[1..];
    }
  }

  lemma SingleLineStep(s: string)
    requires s != ""
    ensures SingleLine(s) ==
      if !IsLineBreak(s[0]) then [s[0]] + SingleLine(s[1..])
      else if |s| > 1 && IsLineBreak(s[1]) then SingleLine(s[1..])
      else " " + SingleLine(s[1..])
  {
  }

  lemma {:induction false} RunInFront(run: string, b: string)
    requires run != "" && (forall i :: 0 <= i < |run| ==> IsLineBreak(run[i])) && (b != "" ==> !IsLineBreak(b[0]))
    ensures SingleLine(run + b) == " " + SingleLine(b)
  {
    hide SingleLine, IsLineBreak;
    var s := run + b;
    SingleLineStep(s);
    assert s[1..] == run[1..] + b;
    if |run| > 1 {
      assert s[1] == run[1];
      RunInFront(run[1..], b);
    } else {
      assert s[1..] == b;
    }
  }

  /** A run of line breaks between two texts becomes one space, and the texts are read on their own. */
  lemma {:induction false} RunBecomesSpace(a: string, run: string, b: string)
    requires run != "" && (forall i :: 0 <= i < |run| ==> IsLineBreak(run[i])) && (b != "" ==> !IsLineBreak(b[0]))
    requires a != "" ==> !IsLineBreak(a[|a| - 1])
    ensures SingleLine(a + (run + b)) == SingleLine(a) + (" " + SingleLine(b))
  {
    hide SingleLine, IsLineBreak;
    var s := a + (run + b);
    if a == "" {
      assert s == run + b;
      RunInFront(run, b);
      assert SingleLine("") == "" by { SingleLineStays(""); }
    } else {
      SingleLineStep(s);
      SingleLineStep(a);
      assert s[0] == a[0] && s[1..] == a[1..] + (run + b);
      RunBecomesSpace(a[1..], run, b);
      if |a| > 1 {
        assert s[1] == a[1];
      } else {
        assert a[1..] == "" && SingleLine("") == "" by { SingleLineStays(""); }
      }
    }
  }

  lemma {:induction false} NoneCovered(s: string, covered: seq<bool>)
    requires |covered| == |s| && forall i :: 0 <= i < |s| ==> !covered[i]
    ensures Uncovered(s, covered) == s
  {
    if s != "" {
      NoneCovered(s[..|s| - 1], covered[..|s| - 1]);
      assert s == s[..|s| - 1] + [s[|s| - 1]];
    }
  }

  lemma {:induction false} NoMatches(s: string, passes: seq<seq<Span>>)
    requires forall k :: 0 <= k < |passes| ==> passes[k] == []
    ensures RedactSecrets(s, passes) == s
    decreases |passes|
  {
    if passes != [] {
      assert Replaced(s, passes[0], 0) == s;
      NoMatches(s, passes[1..]);
    }
  }

  lemma {:induction false} TrimIsPart(s: string) returns (from: nat, to: nat)
    ensures from <= to <= |s| && Trim(s) == s[from..to]
    decreases |s|
  {
    from, to := 0, |s|;
    if s != "" {
      if IsSpace(s[0]) {
        from, to := TrimIsPart(s[1..]);
        from, to := from + 1, to + 1;
      } else if IsSpace(s[|s| - 1]) {
        from, to := TrimIsPart(s[..|s| - 1]);
      }
    }
  }

  lemma OccursInPart(s: string, from: nat, to: nat, secret: string)
    requires from <= to <= |s| && Occurs(s[from..to], secret)
    ensures Occurs(s, secret)
  {
    var part, n := s[from..to], |secret|;
    var i :| OccursAt(part, secret, i);
    forall k | 0 <= k < n ensures s[from + i..from + i + n][k] == secret[k] { assert part[i..i + n][k] == part[i + k]; }
    assert OccursAt(s, secret, from + i);
  }

  /** The first 200 characters of the line, trimmed. */
  function Shortened(line: string): string {
    Trim(if |line| <= 200 then line else line[..200])
  }

  lemma ShortenedIsFree(line: string, secret: string)
    ensures Occurs(Shortened(line), secret) ==> Occurs(line, secret)
  {
    if Occurs(Shortened(line), secret) {
      var short := if |line| <= 200 then line else line[..200];
      var from, to := TrimIsPart(short);
      OccursInPart(short, from, to, secret);
      assert line[0..|short|] == short;
      OccursInPart(line, 0, |short|, secret);
    }
  }

  /** Printable in one line: no control character and no line or paragraph separator. */
  predicate IsPrintable(c: char) {
    ('\U{20}' <= c <= '\U{7E}' || '\U{9F}' < c) && c != '\U{2028}' && c != '\U{2029}'
  }

  predicate AllPrintable(s: string) {
    forall c :: c in s ==> IsPrintable(c)
  }

  lemma PrintableParts(a: string, b: string)
    ensures AllPrintable(a + b) <==> AllPrintable(a) && AllPrintable(b)
  {
    forall c | c in a || c in b ensures c in a + b { }
  }

  lemma ReplacementIsPrintable()
    ensures AllPrintable(REDACTED)
  {
  }

  lemma {:induction false} ReplacedIsPrintable(s: string, matches: seq<Span>, from: nat)
    requires from <= |s| && AllPrintable(s)
    ensures AllPrintable(Replaced(s, matches, from))
  {
    hide AllPrintable;
    assert s == s[..from] + s[from..];
    PrintableParts(s[..from], s[from..]);
    if matches != [] {
      var m := matches[0];
      if m.start < from || m.start + m.length > |s| {
        ReplacedIsPrintable(s, matches[1..], from);
      } else {
        var rest := Replaced(s, matches[1..], m.start + m.length);
        ReplacedIsPrintable(s, matches[1..], m.start + m.length);
        assert s[from..] == s[from..m.start] + s[m.start..];
        PrintableParts(s[from..m.start], s[m.start..]);
        ReplacementIsPrintable();
        PrintableParts(s[from..m.start], REDACTED);
        PrintableParts(s[from..m.start] + REDACTED, rest);
      }
    }
  }

  lemma {:induction false} RedactedIsPrintable(s: string, passes: seq<seq<Span>>)
    requires AllPrintable(s)
    ensures AllPrintable(RedactSecrets(s, passes))
    decreases |passes|
  {
    if passes != [] {
      ReplacedIsPrintable(s, passes[0], 0);
      RedactedIsPrintable(Replaced(s, passes[0], 0), passes[1..]);
    }
  }

  lemma {:induction false} PartIsPrintable(sub: string, s: string)
    requires IsSubsequence(sub, s) && AllPrintable(s)
    ensures AllPrintable(sub)
    decreases |s|
  {
    if sub != "" {
      if sub[0] == s[0] && IsSubsequence(sub[1..], s[1..]) {
        PartIsPrintable(sub[1..], s[1..]);
        assert sub == [sub[0]] + sub[1..];
      } else {
        PartIsPrintable(sub, s[1..]);
      }
    }
  }

  lemma StandInIsPrintable()
    ensures AllPrintable(UNAVAILABLE)
  {
  }

  /** Whatever the text and the matches are, the line for the log is printable. */
  lemma LineIsPrintable(text: string, passes: Option<seq<seq<Span>>>)
    ensures AllPrintable(RedactForStderr(text, passes))
  {
    if passes.Some? {
      var source := SingleLine(text);
      forall c | c in source ensures IsPrintable(c) { var i :| 0 <= i < |source| && source[i] == c; }
      RedactedIsPrintable(source, passes.value);
      var line := RedactSecrets(source, passes.value);
      var from, to := TrimIsPart(if |line| <= 200 then line else line[..200]);
    }
  }

  /** A harmless message keeps its single line: nothing is covered, matched or removed. */
  lemma HarmlessIsKept(input: string, spans: seq<Span>, passes: Option<seq<seq<Span>>>, exactSecrets: seq<string>, covered: seq<bool>)
    requires Harmless(input, spans, passes, exactSecrets) && Redaction(input, spans, SecretList(exactSecrets), covered)
    ensures RedactForStderr(Uncovered(SingleLine(input), covered), passes) == Shortened(SingleLine(input))
    ensures FreeOf(Shortened(SingleLine(input)), SecretList(exactSecrets))
  {
    hide SecretList, IsFormOf;
    var source, secrets := SingleLine(input), SecretList(exactSecrets);
    forall secret | secret in secrets ensures secret != "" && !Occurs(input, secret) && !Occurs(source, secret) { SecretsAreForms(exactSecrets, secret); }
    forall i | 0 <= i < |source| ensures !covered[i] {
      if covered[i] {
        var secret :| secret in secrets && (InOccurrence(source, secret, i) || BehindLongSecret(input, source, secret, i));
      }
    }
    NoneCovered(source, covered);
    SingleLineStays(source);
    NoMatches(source, passes.value);
    forall secret | secret in secrets && secret != "" ensures !Occurs(Shortened(source), secret) { ShortenedIsFree(source, secret); }
  }

  lemma SecretsAreForms(exactSecrets: seq<string>, x: string)
    requires x in SecretList(exactSecrets)
    ensures x != "" && IsFormOf(exactSecrets, x)
  {
  }

  /** What the diagnostic is made of: the message, or a stand-in for none. */
  function MessageOf(message: Option<string>): string {
    if message.None? then UNAVAILABLE else if message.value == "" then "unknown error" else message.value
  }

  /** `safeErrorForStderr`, for any matches of the patterns. `message` is the error's text, None when reading it threw.
      No secret is left and the line is printable; a harmless message of up to 8192 characters comes out as the first 200 characters of its single
      line, trimmed; and of any other, only covered places, matches, and secrets that those left are removed. */
  method SafeErrorForStderr(message: Option<string>, spans: seq<Span>, passes: Option<seq<seq<Span>>>, exactSecrets: seq<string>)
    returns (diagnostic: string)
    ensures forall secret :: secret in exactSecrets && secret != "" ==>
      !Occurs(diagnostic, secret) && (SingleLine(secret) != "" ==> !Occurs(diagnostic, SingleLine(secret)))
    ensures AllPrintable(diagnostic)
    ensures message.Some? && |message.value| <= 8192 && Harmless(MessageOf(message), spans, passes, exactSecrets) ==>
      diagnostic == Shortened(SingleLine(MessageOf(message)))
    ensures message.Some? && |message.value| <= 8192 ==>
      exists covered :: Redaction(MessageOf(message), spans, SecretList(exactSecrets), covered)
        && IsSubsequence(diagnostic, RedactForStderr(Uncovered(SingleLine(MessageOf(message)), covered), passes))
    ensures message.None? ==> IsSubsequence(diagnostic, UNAVAILABLE)
    ensures message.None? && (forall x :: IsFormOf(exactSecrets, x) && x != "" ==> !Occurs(UNAVAILABLE, x)) ==> diagnostic == UNAVAILABLE
  {
    StandInIsPrintable();
    hide AllPrintable, Harmless, RedactForStderr, IsSubsequence, SingleLine, Shortened;
    var secrets := SecretList(exactSecrets);
    assert forall k :: 0 <= k < |secrets| ==> secrets[k] in secrets;
    var text := UNAVAILABLE;
    ghost var covered := [];
    if message.Some? {
      var redacted;
      redacted, covered := RedactSecretsAndExact(if message.value == "" then "unknown error" else message.value, spans, secrets);
      text := RedactForStderr(redacted, passes);
      LineIsPrintable(redacted, passes);
      if |message.value| <= 8192 {
        assert Redaction(MessageOf(message), spans, secrets, covered);
        if Harmless(MessageOf(message), spans, passes, exactSecrets) { HarmlessIsKept(MessageOf(message), spans, passes, exactSecrets, covered); }
      }
    }
    diagnostic := RemoveExactSecrets(text, secrets);
    PartIsPrintable(diagnostic, text);
  }
}
