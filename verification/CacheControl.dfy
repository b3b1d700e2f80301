/** The quote-aware Cache-Control scanner (src/cimd/cache.ts). */
module CacheControl {
  import opened Prelude
  import opened Text

  const MIN_CACHEABLE_MAX_AGE := 60

  // ------------------------------------------------------------------- splitting

  /** Puts `x` in front of the first piece. */
  function Prepend(x: string, pieces: seq<string>): (r: seq<string>)
    requires pieces != []
    ensures |r| == |pieces|
  {
    [x + pieces[0]] + pieces[1..]
  }

  /** The pieces between the commas outside quoted strings. */
  function Pieces(s: string, quoted: bool): (r: seq<string>)
    ensures r != []
  {
    if s == "" then [""]
    else if quoted && s[0] == '\\' then
      if |s| == 1 then [s] else Prepend(s[..2], Pieces(s[2..], true))
    else if s[0] == '"' then Prepend(s[..1], Pieces(s[1..], !quoted))
    else if s[0] == ',' && !quoted then [""] + Pieces(s[1..], false)
    else Prepend(s[..1], Pieces(s[1..], quoted))
  }

  lemma PrependTwice(x: string, y: string, pieces: seq<string>)
    requires pieces != []
    ensures Prepend(x, Prepend(y, pieces)) == Prepend(x + y, pieces)
  {
    assert x + (y + pieces[0]) == (x + y) + pieces[0];
    assert Prepend(y, pieces)[1..] == pieces[1..];
  }

  lemma PrependNothing(pieces: seq<string>)
    requires pieces != []
    ensures Prepend("", pieces) == pieces
  {
    assert "" + pieces[0] == pieces[0];
  }

  /** What one step of the scan does to the piece in progress. */
  lemma ScanStep(before: string, rest: string, quoted: bool)
    requires rest != ""
    ensures Prepend(before, Pieces(rest, quoted)) ==
      if quoted && rest[0] == '\\' then
        (if |rest| == 1 then [before + rest] else Prepend(before + rest[..2], Pieces(rest[2..], true)))
      else if rest[0] == '"' then Prepend(before + rest[..1], Pieces(rest[1..], !quoted))
      else if rest[0] == ',' && !quoted then [before] + Pieces(rest[1..], false)
      else Prepend(before + rest[..1], Pieces(rest[1..], quoted))
  {
    if quoted && rest[0] == '\\' {
      if |rest| > 1 { PrependTwice(before, rest[..2], Pieces(rest[2..], true)); }
    } else if rest[0] == ',' && !quoted {
      var tail := Pieces(rest[1..], false);
      assert ([""] + tail)[1..] == tail && before + "" == before;
    } else {
      PrependTwice(before, rest[..1], Pieces(rest[1..], if rest[0] == '"' then !quoted else quoted));
    }
  }

  /** The pieces found so far, the piece in progress, and what is still to be scanned make up the header. */
  ghost predicate Scanning(header: string, out: seq<string>, start: int, i: int, quoted: bool) {
    && 0 <= start <= |header| && start <= i <= |header| + 1
    && (if i <= |header| then Pieces(header, false) == out + Prepend(header[start..i], Pieces(header[i..], quoted))
        else Pieces(header, false) == out + [header[start..]])
  }

  lemma ScanStart(header: string)
    ensures Scanning(header, [], 0, 0, false)
  {
    assert header[0..] == header && header[0..0] == "";
    PrependNothing(Pieces(header, false));
  }

  lemma ScanAdvance(header: string, out: seq<string>, start: int, i: int, quoted: bool)
    requires Scanning(header, out, start, i, quoted) && i < |header|
    ensures
      if quoted && header[i] == '\\' then Scanning(header, out, start, i + 2, quoted)
      else if header[i] == '"' then Scanning(header, out, start, i + 1, !quoted)
      else if header[i] == ',' && !quoted then Scanning(header, out + [header[start..i]], i + 1, i + 1, quoted)
      else Scanning(header, out, start, i + 1, quoted)
  {
    hide Pieces, Prepend;
    var before, rest := header[start..i], header[i..];
    ScanStep(before, rest, quoted);
    if quoted && header[i] == '\\' {
      if i + 1 < |header| {
        assert rest[2..] == header[i + 2..] && before + rest[..2] == header[start..i + 2];
      } else {
        assert before + rest == header[start..];
      }
    } else {
      assert rest[1..] == header[i + 1..] && before + rest[..1] == header[start..i + 1];
      if header[i] == ',' && !quoted {
        assert header[i + 1..i + 1] == "";
        PrependNothing(Pieces(header[i + 1..], false));
      }
    }
  }

  lemma ScanEnd(header: string, out: seq<string>, start: int, i: int, quoted: bool)
    requires Scanning(header, out, start, i, quoted) && i >= |header|
    ensures out + [header[start..]] == Pieces(header, false)
  {
    if i == |header| {
      assert header[i..] == "" && header[start..i] == header[start..];
      assert header[start..] + "" == header[start..];
    }
  }

  method SplitDirectives(header: string) returns (out: seq<string>)
    ensures out == Pieces(header, false)
    ensures Join(out, ",") == header
  {
    hide Pieces, Scanning, Join;
    out := [];
    var start, quoted, i := 0, false, 0;
    ScanStart(header);
    while i < |header|
      invariant 0 <= start <= i && start <= |header| && Scanning(header, out, start, i, quoted)
    {
      ScanAdvance(header, out, start, i, quoted);
      var c := header[i];
      if quoted && c == '\\' {
        i := i + 2;
        continue;
      }
      if c == '"' {
        quoted := !quoted;
      } else if c == ',' && !quoted {
        out := out + [header[start..i]];
        start := i + 1;
      }
      i := i + 1;
    }
    ScanEnd(header, out, start, i, quoted);
    out := out + [header[start..]];
    JoinPieces(header, false);
  }

  lemma JoinPrepend(x: string, pieces: seq<string>)
    requires pieces != []
    ensures Join(Prepend(x, pieces), ",") == x + Join(pieces, ",")
  {
    if |pieces| > 1 {
      assert Prepend(x, pieces)[1..] == pieces[1..];
      assert x + (pieces[0] + "," + Join(pieces[1..], ",")) == (x + pieces[0]) + "," + Join(pieces[1..], ",");
    }
  }

  /** Joining the pieces with commas gives the header back. */
  lemma {:induction false} JoinPieces(s: string, quoted: bool)
    ensures Join(Pieces(s, quoted), ",") == s
  {
    if s == "" || (quoted && s == "\\") {
    } else if quoted && s[0] == '\\' {
      JoinPieces(s[2..], true);
      JoinPrepend(s[..2], Pieces(s[2..], true));
    } else if s[0] == '"' {
      JoinPieces(s[1..], !quoted);
      JoinPrepend(s[..1], Pieces(s[1..], !quoted));
    } else if s[0] == ',' && !quoted {
      JoinPieces(s[1..], false);
      assert ([""] + Pieces(s[1..], false))[1..] == Pieces(s[1..], false);
    } else {
      JoinPieces(s[1..], quoted);
      JoinPrepend(s[..1], Pieces(s[1..], quoted));
    }
  }

  /** Read from a state, the text holds no comma outside quotes and ends outside quotes. */
  predicate Closed(s: string, quoted: bool) {
    if s == "" then !quoted
    else if quoted && s[0] == '\\' then |s| > 1 && Closed(s[2..], true)
    else if s[0] == '"' then Closed(s[1..], !quoted)
    else (s[0] != ',' || quoted) && Closed(s[1..], quoted)
  }

  lemma {:induction false} ClosedPrefix(s: string, rest: string, quoted: bool)
    requires Closed(s, quoted)
    ensures Pieces(s + "," + rest, quoted) == [s] + Pieces(rest, false)
    ensures Pieces(s, quoted) == [s]
  {
    var t := s + "," + rest;
    if s == "" {
      assert t[1..] == rest;
    } else if quoted && s[0] == '\\' {
      ClosedPrefix(s[2..], rest, true);
      assert t[2..] == s[2..] + "," + rest && t[..2] == s[..2];
      assert s[..2] + s[2..] == s;
    } else {
      var q := if s[0] == '"' then !quoted else quoted;
      ClosedPrefix(s[1..], rest, q);
      assert t[1..] == s[1..] + "," + rest && t[..1] == s[..1];
      assert s[..1] + s[1..] == s;
    }
  }

  predicate AllClosed(ds: seq<string>) {
    forall i :: 0 <= i < |ds| ==> Closed(ds[i], false)
  }

  /** Splitting a comma-join of closed texts gives the texts back. */
  lemma {:induction false} PiecesOfJoin(ds: seq<string>)
    requires ds != [] && AllClosed(ds)
    ensures Pieces(Join(ds, ","), false) == ds
  {
    ClosedPrefix(ds[0], Join(ds[1..], ","), false);
    if |ds| > 1 {
      PiecesOfJoin(ds[1..]);
      assert ds == [ds[0]] + ds[1..];
    }
  }

  // -------------------------------------------------------------------- grammar

  /** `toLowerCase()` as far as the result is ASCII: the Kelvin sign becomes `k`. */
  function LowerChar(c: char): char {
    if 'A' <= c <= 'Z' then c - 'A' + 'a' else if c == '\U{212A}' then 'k' else c
  }

  function Lower(s: string): (r: string)
    ensures |r| == |s| && forall i :: 0 <= i < |s| ==> r[i] == LowerChar(s[i])
  {
    seq(|s|, i requires 0 <= i < |s| => LowerChar(s[i]))
  }

  predicate IsTokenChar(c: char) {
    'a' <= c <= 'z' || '0' <= c <= '9' || c in "!#$%&'*+.^_`|~-"
  }

  /** DIRECTIVE_NAME: a token in lower case. */
  predicate IsLowerToken(s: string) {
    s != "" && forall i :: 0 <= i < |s| ==> IsTokenChar(s[i])
  }

  predicate IsQuotable(c: char) {
    c == '\t' || ' ' <= c <= '~' || '\U{0080}' <= c <= '\U{00FF}'
  }

  /** What may follow the opening quote of a quoted string. */
  predicate QuotedRest(s: string) {
    if s == "" then false
    else if s[0] == '"' then |s| == 1
    else if s[0] == '\\' then |s| > 1 && IsQuotable(s[1]) && QuotedRest(s[2..])
    else IsQuotable(s[0]) && QuotedRest(s[1..])
  }

  /** QUOTED_STRING: section 5.6.4 of RFC 9110. */
  predicate IsQuotedString(s: string) {
    |s| > 1 && s[0] == '"' && QuotedRest(s[1..])
  }

  predicate IsDirectiveValue(s: string) {
    IsLowerToken(Lower(s)) || IsQuotedString(s)
  }

  function IndexOf(s: string, c: char): (at: Option<nat>)
    ensures at.Some? ==> at.value < |s| && s[at.value] == c && c !in s[..at.value]
    ensures at.None? ==> c !in s
  {
    if s == "" then None else if s[0] == c then Some(0) else
      var rest := IndexOf(s[1..], c);
      if rest.None? then None else
        assert s[..rest.value + 1] == [s[0]] + s[1..][..rest.value];
        Some(rest.value + 1)
  }

  // ---------------------------------------------------------------- the meaning

  /** What one piece contributes. */
  datatype Meaning = Nothing | Refused | MaxAge(seconds: nat) | SMaxage(seconds: nat)

  predicate IsRestrictive(name: string) {
    name == "no-store" || name == "no-cache" || name == "private"
  }

  predicate IsMaxAge(name: string) {
    name == "max-age"
  }

  predicate IsSMaxage(name: string) {
    name == "s-maxage"
  }

  /** A name in lower case and its value, both well-formed. */
  function MeaningOf(name: string, value: Option<string>): Meaning {
    if IsRestrictive(name) then Refused
    else if !IsMaxAge(name) && !IsSMaxage(name) then Nothing
    else if value.None? || !IsDecimal(value.value) || DecimalValue(value.value) > MAX_SAFE_INTEGER then Refused
    else if IsMaxAge(name) then MaxAge(DecimalValue(value.value))
    else SMaxage(DecimalValue(value.value))
  }

  function Classify(raw: string): Meaning {
    var directive := Trim(raw);
    if directive == "" then Nothing
    else
      var eq := IndexOf(directive, '=');
      var name := Lower(Trim(if eq.None? then directive else directive[..eq.value]));
      var value := if eq.None? then None else Some(directive[eq.value + 1..]);
      if !IsLowerToken(name) || (value.Some? && !IsDirectiveValue(value.value)) then Refused
      else MeaningOf(name, value)
  }

  function ClassifyAll(pieces: seq<string>): (r: seq<Meaning>)
    ensures |r| == |pieces| && forall i :: 0 <= i < |pieces| ==> r[i] == Classify(pieces[i])
  {
    seq(|pieces|, i requires 0 <= i < |pieces| => Classify(pieces[i]))
  }

  function Meanings(header: string): seq<Meaning> {
    ClassifyAll(Pieces(header, false))
  }

  /** The header's lifetime is `n` seconds: a statement about which meanings occur, and how often. */
  ghost predicate GivesLifetime(m: multiset<Meaning>, n: nat) {
    && Refused !in m
    && (forall a: nat :: m[MaxAge(a)] <= 1)
    && (forall a: nat :: m[SMaxage(a)] <= 1)
    && (forall a: nat, b: nat :: MaxAge(a) in m && MaxAge(b) in m ==> a == b)
    && (forall a: nat, b: nat :: SMaxage(a) in m && SMaxage(b) in m ==> a == b)
    && (SMaxage(n) in m || (MaxAge(n) in m && forall a: nat :: SMaxage(a) !in m))
    && n >= MIN_CACHEABLE_MAX_AGE
  }

  function MaxAges(ms: seq<Meaning>): seq<nat> {
    if ms == [] then []
    else
      var last := ms[|ms| - 1];
      MaxAges(ms[..|ms| - 1]) + if last.MaxAge? then [last.seconds] else []
  }

  function SMaxages(ms: seq<Meaning>): seq<nat> {
    if ms == [] then []
    else
      var last := ms[|ms| - 1];
      SMaxages(ms[..|ms| - 1]) + if last.SMaxage? then [last.seconds] else []
  }

  function LifetimeOf(ms: seq<Meaning>): Option<nat> {
    var max, shared := MaxAges(ms), SMaxages(ms);
    if Refused in ms || |max| > 1 || |shared| > 1 then None
    else
      var lifetime := if shared != [] then Some(shared[0]) else if max != [] then Some(max[0]) else None;
      if lifetime.Some? && lifetime.value >= MIN_CACHEABLE_MAX_AGE then lifetime else None
  }

  /** The lifetime that the Cache-Control occurrences of a response give. */
  function ParsedMaxAge(values: Option<seq<string>>): Option<nat> {
    if values.None? || |values.value| != 1 then None else LifetimeOf(Meanings(values.value[0]))
  }

  lemma {:induction false} MoreMeanings(ms: seq<Meaning>, k: nat)
    requires k <= |ms|
    ensures |MaxAges(ms[..k])| <= |MaxAges(ms)| && |SMaxages(ms[..k])| <= |SMaxages(ms)|
  {
    if k < |ms| {
      MoreMeanings(ms[..|ms| - 1], k);
      assert ms[..|ms| - 1][..k] == ms[..k];
    } else {
      assert ms[..k] == ms;
    }
  }

  /** What one more meaning adds, and when it already decides the answer. */
  lemma OneMore(ms: seq<Meaning>, k: nat)
    requires k < |ms|
    ensures MaxAges(ms[..k + 1]) == MaxAges(ms[..k]) + if ms[k].MaxAge? then [ms[k].seconds] else []
    ensures SMaxages(ms[..k + 1]) == SMaxages(ms[..k]) + if ms[k].SMaxage? then [ms[k].seconds] else []
    ensures Refused in ms[..k + 1] <==> Refused in ms[..k] || ms[k] == Refused
    ensures ms[k] == Refused || |MaxAges(ms[..k + 1])| > 1 || |SMaxages(ms[..k + 1])| > 1 ==> LifetimeOf(ms).None?
  {
    assert ms[..k + 1][..k] == ms[..k];
    MoreMeanings(ms, k + 1);
  }

  /** What the scan knows after the meanings `ms`, none of which ended it. */
  ghost predicate Tally(ms: seq<Meaning>, maxOccurrences: nat, sMaxOccurrences: nat, maxAge: Option<nat>, sMaxage: Option<nat>) {
    && Refused !in ms
    && maxOccurrences == |MaxAges(ms)| <= 1
    && sMaxOccurrences == |SMaxages(ms)| <= 1
    && maxAge == (if maxOccurrences == 0 then None else Some(MaxAges(ms)[0]))
    && sMaxage == (if sMaxOccurrences == 0 then None else Some(SMaxages(ms)[0]))
  }

  lemma TallyStep(ms: seq<Meaning>, k: nat, max: nat, shared: nat, maxAge: Option<nat>, sMaxage: Option<nat>)
    requires k < |ms| && Tally(ms[..k], max, shared, maxAge, sMaxage)
    ensures ms[k] == Refused ==> LifetimeOf(ms).None?
    ensures ms[k] == Nothing ==> Tally(ms[..k + 1], max, shared, maxAge, sMaxage)
    ensures ms[k].MaxAge? ==>
      if max > 0 then LifetimeOf(ms).None? else Tally(ms[..k + 1], 1, shared, Some(ms[k].seconds), sMaxage)
    ensures ms[k].SMaxage? ==>
      if shared > 0 then LifetimeOf(ms).None? else Tally(ms[..k + 1], max, 1, maxAge, Some(ms[k].seconds))
  {
    hide MaxAges, SMaxages, LifetimeOf;
    OneMore(ms, k);
  }

  lemma TallyNothing()
    ensures Tally([], 0, 0, None, None)
  {
  }

  lemma TallyEnd(ms: seq<Meaning>, max: nat, shared: nat, maxAge: Option<nat>, sMaxage: Option<nat>)
    requires Tally(ms, max, shared, maxAge, sMaxage)
    ensures var lifetime := if sMaxage.Some? then sMaxage else maxAge;
      LifetimeOf(ms) == if lifetime.Some? && lifetime.value >= MIN_CACHEABLE_MAX_AGE then lifetime else None
  {
    hide MaxAges, SMaxages;
  }

  /** The part of the loop that reads one piece: Nothing where it continues, Refused where it returns null. */
  method ReadDirective(raw: string) returns (meaning: Meaning)
    ensures meaning == Classify(raw)
    ensures meaning != Refused <==>
      Trim(raw) == "" || exists d :: ValidDirective(d) && Spells(raw, d) && MeaningOf(Lower(d.name), ValueOf(d)) != Refused
  {
    ReadsExactlyTheDirectives(raw);
    hide Trim, IndexOf, Lower, IsLowerToken, IsDirectiveValue, IsRestrictive, IsMaxAge, IsSMaxage, DecimalValue, ValidDirective, Spells;
    var directive := Trim(raw);
    if directive == "" { return Nothing; }
    var eq := IndexOf(directive, '=');
    var name := Lower(Trim(if eq.None? then directive else directive[..eq.value]));
    if !IsLowerToken(name) { return Refused; }
    if eq.Some? && !IsDirectiveValue(directive[eq.value + 1..]) { return Refused; }
    if IsRestrictive(name) { return Refused; }
    if !IsMaxAge(name) && !IsSMaxage(name) { return Nothing; }
    if eq.None? { return Refused; }
    var value := directive[eq.value + 1..];
    if !IsDecimal(value) { return Refused; }
    var parsed := DecimalValue(value);
    if parsed > MAX_SAFE_INTEGER { return Refused; }
    return if IsMaxAge(name) then MaxAge(parsed) else SMaxage(parsed);
  }

  method ParseMaxAge(values: Option<seq<string>>) returns (lifetime: Option<nat>)
    ensures lifetime == ParsedMaxAge(values)
  {
    if values.None? || |values.value| != 1 { return None; }
    var maxAge: Option<nat>, sMaxage: Option<nat> := None, None;
    var maxOccurrences, sMaxOccurrences := 0, 0;
    var pieces := SplitDirectives(values.value[0]);
    ghost var ms := ClassifyAll(pieces);
    hide Classify, Pieces, Tally, LifetimeOf, MaxAges, SMaxages, Join;
    TallyNothing();
    for k := 0 to |pieces|
      invariant Tally(ms[..k], maxOccurrences, sMaxOccurrences, maxAge, sMaxage)
    {
      TallyStep(ms, k, maxOccurrences, sMaxOccurrences, maxAge, sMaxage);
      var meaning := ReadDirective(pieces[k]);
      match meaning
      case Nothing => continue;
      case Refused => return None;
      case MaxAge(seconds) =>
        maxOccurrences := maxOccurrences + 1;
        if maxOccurrences > 1 { return None; }
        maxAge := Some(seconds);
      case SMaxage(seconds) =>
        sMaxOccurrences := sMaxOccurrences + 1;
        if sMaxOccurrences > 1 { return None; }
        sMaxage := Some(seconds);
    }
    assert ms[..|pieces|] == ms;
    TallyEnd(ms, maxOccurrences, sMaxOccurrences, maxAge, sMaxage);
    lifetime := if sMaxage.Some? then sMaxage else maxAge;
    if lifetime.Some? && lifetime.value < MIN_CACHEABLE_MAX_AGE { return None; }
  }

  // ------------------------------------------------ order does not matter

  lemma {:induction false} MaxAgesAreCounted(ms: seq<Meaning>, a: nat)
    ensures multiset(MaxAges(ms))[a] == multiset(ms)[MaxAge(a)]
  {
    if ms != [] {
      var init, last := ms[..|ms| - 1], ms[|ms| - 1];
      MaxAgesAreCounted(init, a);
      assert multiset(ms) == multiset(init) + multiset{last} by { assert ms == init + [last]; }
    }
  }

  lemma {:induction false} SMaxagesAreCounted(ms: seq<Meaning>, a: nat)
    ensures multiset(SMaxages(ms))[a] == multiset(ms)[SMaxage(a)]
  {
    if ms != [] {
      var init, last := ms[..|ms| - 1], ms[|ms| - 1];
      SMaxagesAreCounted(init, a);
      assert multiset(ms) == multiset(init) + multiset{last} by { assert ms == init + [last]; }
    }
  }

  /** A list has at most one element exactly when nothing repeats and nothing differs. */
  lemma AtMostOne(xs: seq<nat>)
    ensures |xs| <= 1 <==>
      (forall a :: multiset(xs)[a] <= 1) && (forall a, b :: a in multiset(xs) && b in multiset(xs) ==> a == b)
  {
    if |xs| > 1 {
      assert xs == [xs[0]] + ([xs[1]] + xs[2..]);
      assert xs[0] in multiset(xs) && xs[1] in multiset(xs);
      if xs[0] == xs[1] { assert multiset(xs)[xs[0]] >= 2; }
    } else if |xs| == 1 {
      assert xs == [xs[0]];
    }
  }

  lemma MaxAgeOnce(ms: seq<Meaning>)
    ensures var m := multiset(ms);
      |MaxAges(ms)| <= 1 <==> (forall a: nat :: m[MaxAge(a)] <= 1) && (forall a: nat, b: nat :: MaxAge(a) in m && MaxAge(b) in m ==> a == b)
    ensures forall a: nat :: MaxAge(a) in multiset(ms) <==> a in MaxAges(ms)
  {
    hide MaxAges;
    var m := multiset(ms);
    forall a: nat ensures multiset(MaxAges(ms))[a] == m[MaxAge(a)] {
      MaxAgesAreCounted(ms, a);
    }
    AtMostOne(MaxAges(ms));
    assert forall a: nat :: a in MaxAges(ms) <==> multiset(MaxAges(ms))[a] > 0;
    assert forall a: nat :: a in MaxAges(ms) <==> MaxAge(a) in m;
  }

  lemma SMaxageOnce(ms: seq<Meaning>)
    ensures var m := multiset(ms);
      |SMaxages(ms)| <= 1 <==> (forall a: nat :: m[SMaxage(a)] <= 1) && (forall a: nat, b: nat :: SMaxage(a) in m && SMaxage(b) in m ==> a == b)
    ensures forall a: nat :: SMaxage(a) in multiset(ms) <==> a in SMaxages(ms)
  {
    hide SMaxages;
    var m := multiset(ms);
    forall a: nat ensures multiset(SMaxages(ms))[a] == m[SMaxage(a)] {
      SMaxagesAreCounted(ms, a);
    }
    AtMostOne(SMaxages(ms));
    assert forall a: nat :: a in SMaxages(ms) <==> multiset(SMaxages(ms))[a] > 0;
    assert forall a: nat :: a in SMaxages(ms) <==> SMaxage(a) in m;
  }

  /** The computed lifetime is the one the set-level statement allows, and the only one. */
  lemma LifetimeIsGiven(ms: seq<Meaning>, n: nat)
    ensures LifetimeOf(ms) == Some(n) <==> GivesLifetime(multiset(ms), n)
  {
    hide MaxAges, SMaxages;
    MaxAgeOnce(ms);
    SMaxageOnce(ms);
    var max, shared := MaxAges(ms), SMaxages(ms);
    assert max != [] ==> max[0] in max;
    assert shared != [] ==> shared[0] in shared;
  }

  // ------------------------------------------------ printed headers

  datatype Directive = Bare(name: string) | Token(name: string, value: string) | Quoted(name: string, text: string)

  predicate IsToken(s: string) {
    IsLowerToken(Lower(s))
  }

  /** `directive` of section 5.2 of RFC 9111. */
  predicate ValidDirective(d: Directive) {
    && IsToken(d.name)
    && (d.Token? ==> IsToken(d.value))
    && (d.Quoted? ==> IsQuotedString(d.text))
  }

  function ValueOf(d: Directive): Option<string> {
    match d
    case Bare(_) => None
    case Token(_, value) => Some(value)
    case Quoted(_, text) => Some(text)
  }

  function Print(d: Directive): string {
    if d.Bare? then d.name else d.name + "=" + ValueOf(d).value
  }

  function PrintAll(ds: seq<Directive>): (r: seq<string>)
    ensures |r| == |ds| && forall i :: 0 <= i < |ds| ==> r[i] == Print(ds[i])
  {
    seq(|ds|, i requires 0 <= i < |ds| => Print(ds[i]))
  }

  function MeaningsOf(ds: seq<Directive>): (r: seq<Meaning>)
    ensures |r| == |ds| && forall i :: 0 <= i < |ds| ==> r[i] == MeaningOf(Lower(ds[i].name), ValueOf(ds[i]))
  {
    seq(|ds|, i requires 0 <= i < |ds| => MeaningOf(Lower(ds[i].name), ValueOf(ds[i])))
  }

  lemma TokenIsPlain(s: string)
    requires IsToken(s)
    ensures forall i :: 0 <= i < |s| ==> !IsSpace(s[i]) && s[i] !in {'=', ',', '"'}
  {
    forall i | 0 <= i < |s| ensures !IsSpace(s[i]) && s[i] !in {'=', ',', '"'} {
      assert IsTokenChar(Lower(s)[i]);
    }
  }

  lemma {:induction false} PlainThenClosed(s: string, rest: string)
    requires forall i :: 0 <= i < |s| ==> s[i] !in {',', '"'}
    requires Closed(rest, false)
    ensures Closed(s + rest, false)
  {
    if s == "" {
      assert s + rest == rest;
    } else {
      PlainThenClosed(s[1..], rest);
      assert (s + rest)[1..] == s[1..] + rest;
    }
  }

  lemma {:induction false} QuotedRestIsClosed(s: string)
    requires QuotedRest(s)
    ensures Closed(s, true) && s[|s| - 1] == '"'
  {
    if s[0] == '"' {
      assert s[1..] == "";
    } else if s[0] == '\\' {
      QuotedRestIsClosed(s[2..]);
    } else {
      QuotedRestIsClosed(s[1..]);
    }
  }

  lemma PrintedIsClosed(d: Directive)
    requires ValidDirective(d)
    ensures Closed(Print(d), false)
  {
    TokenIsPlain(d.name);
    match d
    case Bare(name) =>
      PlainThenClosed(name, "");
      assert name + "" == name;
    case Token(name, value) =>
      TokenIsPlain(value);
      PlainThenClosed(value, "");
      assert value + "" == value;
      PlainThenClosed(name + "=", value);
    case Quoted(name, text) =>
      QuotedRestIsClosed(text[1..]);
      PlainThenClosed(name + "=", text);
  }

  lemma {:induction false} IndexOfFirst(x: string, c: char, y: string)
    requires c !in x
    ensures IndexOf(x + [c] + y, c) == Some(|x|)
  {
    if x != "" {
      IndexOfFirst(x[1..], c, y);
      assert (x + [c] + y)[1..] == x[1..] + [c] + y;
    }
  }

  lemma NameEnds(name: string)
    requires IsToken(name)
    ensures name != "" && !IsSpace(name[0]) && !IsSpace(name[|name| - 1])
  {
    TokenIsPlain(name);
  }

  lemma ValueEnds(d: Directive)
    requires ValidDirective(d) && !d.Bare?
    ensures var v := ValueOf(d).value; v != "" && !IsSpace(v[|v| - 1])
  {
    match d
    case Token(_, value) => NameEnds(value);
    case Quoted(_, text) => QuotedRestIsClosed(text[1..]);
  }

  // ------------------------------------------------ what a piece spells

  predicate AllSpace(s: string) {
    forall i :: 0 <= i < |s| ==> IsSpace(s[i])
  }

  /** The piece is the directive, with white space around it and behind its name. */
  ghost predicate SpellsWith(raw: string, d: Directive, a: string, b: string, c: string) {
    && AllSpace(a) && AllSpace(b) && AllSpace(c)
    && raw == a + (d.name + b + (if d.Bare? then "" else "=" + ValueOf(d).value)) + c
  }

  ghost predicate Spells(raw: string, d: Directive) {
    exists a, b, c :: SpellsWith(raw, d, a, b, c)
  }

  predicate Solid(s: string) {
    s != "" && !IsSpace(s[0]) && !IsSpace(s[|s| - 1])
  }

  lemma {:induction false} TrimAround(a: string, s: string, c: string)
    requires AllSpace(a) && Solid(s) && AllSpace(c)
    ensures Trim(a + s + c) == s
    decreases |a| + |c|
  {
    hide IsSpace;
    var t := a + s + c;
    if a != "" {
      assert IsSpace(t[0]) && t[1..] == a[1..] + s + c;
      TrimAround(a[1..], s, c);
    } else if c != "" {
      assert t[0] == s[0] && t[|t| - 1] == c[|c| - 1] && t[..|t| - 1] == a + s + c[..|c| - 1];
      TrimAround(a, s, c[..|c| - 1]);
    } else {
      assert t == s;
    }
  }

  lemma {:induction false} TrimParts(s: string) returns (a: string, c: string)
    ensures AllSpace(a) && AllSpace(c) && s == a + Trim(s) + c
    ensures Trim(s) != "" ==> Solid(Trim(s))
    decreases |s|
  {
    hide IsSpace;
    a, c := "", "";
    if s == "" {
    } else if IsSpace(s[0]) {
      a, c := TrimParts(s[1..]);
      a := [s[0]] + a;
      assert s == [s[0]] + s[1..];
    } else if IsSpace(s[|s| - 1]) {
      a, c := TrimParts(s[..|s| - 1]);
      c := c + [s[|s| - 1]];
      assert s == s[..|s| - 1] + [s[|s| - 1]];
    }
  }

  lemma TrimBehind(s: string, c: string)
    requires Solid(s) && AllSpace(c)
    ensures Trim(s + c) == s
  {
    hide Trim, Solid, AllSpace;
    NoSpace();
    TrimAround("", s, c);
    assert "" + s + c == s + c;
  }

  lemma NoSpace()
    ensures AllSpace("")
  {
  }

  lemma SpacesJoin(b: string, c: string)
    requires AllSpace(b) && AllSpace(c)
    ensures AllSpace(b + c) && '=' !in b
  {
  }

  /** How a trimmed piece with a first "=" is read. */
  lemma ReadAtEquals(raw: string, front: string, v: string)
    requires Trim(raw) == front + "=" + v && '=' !in front
    ensures Classify(raw) ==
      if !IsToken(Trim(front)) || !IsDirectiveValue(v) then Refused else MeaningOf(Lower(Trim(front)), Some(v))
  {
    hide Trim, IndexOf, Lower, IsLowerToken, IsDirectiveValue, MeaningOf;
    var t := front + "=" + v;
    assert t == front + ['='] + v;
    IndexOfFirst(front, '=', v);
    assert t[..|front|] == front && t[|front| + 1..] == v;
  }

  /** How a trimmed piece without a "=" is read. */
  lemma ReadBare(raw: string)
    requires Trim(raw) != "" && '=' !in Trim(raw)
    ensures Classify(raw) == if !IsToken(Trim(Trim(raw))) then Refused else MeaningOf(Lower(Trim(Trim(raw))), None)
  {
    hide Trim, IndexOf, Lower, IsLowerToken, IsDirectiveValue, MeaningOf;
    assert IndexOf(Trim(raw), '=').None?;
  }

  lemma ValidParts(d: Directive)
    requires ValidDirective(d)
    ensures IsToken(d.name) && Solid(d.name) && '=' !in d.name
    ensures !d.Bare? ==>
      var v := ValueOf(d).value; IsDirectiveValue(v) && v != "" && !IsSpace(v[|v| - 1])
  {
    NameEnds(d.name);
    TokenIsPlain(d.name);
    if !d.Bare? { ValueEnds(d); }
    hide IsSpace, Lower, IsLowerToken, IsQuotedString;
  }

  /** A spelling of a well-formed directive is read as that directive. */
  lemma SpellingIsRead(raw: string, d: Directive)
    requires ValidDirective(d) && Spells(raw, d)
    ensures Trim(raw) != "" && Classify(raw) == MeaningOf(Lower(d.name), ValueOf(d))
  {
    hide ValidDirective, Trim, IsToken, IsDirectiveValue, MeaningOf, Lower, Classify, AllSpace, IsSpace;
    var a, b, c :| SpellsWith(raw, d, a, b, c);
    ValidParts(d);
    SpacesJoin(b, c);
    TrimBehind(d.name, b);
    if d.Bare? {
      assert raw == a + d.name + (b + c);
      TrimAround(a, d.name, b + c);
      NoSpace();
      TrimBehind(d.name, "");
      assert d.name + "" == d.name;
      ReadBare(raw);
    } else {
      var v := ValueOf(d).value;
      var inner := d.name + b + "=" + v;
      assert inner == d.name + b + ("=" + v) && raw == a + inner + c;
      TrimAround(a, inner, c);
      ReadAtEquals(raw, d.name + b, v);
    }
  }

  /** The parts of a trimmed front: nothing stands before its name. */
  lemma FrontParts(front: string, t: string) returns (b: string)
    requires front != "" && t != "" && front[0] == t[0] && Solid(t)
    ensures AllSpace(b) && front == Trim(front) + b
  {
    hide Trim;
    var a, b' := TrimParts(front);
    if a != "" { StartsWithSpace(a, Trim(front) + b'); }
    assert a == "" && "" + Trim(front) + b' == Trim(front) + b';
    b := b';
  }

  lemma StartsWithSpace(a: string, rest: string)
    requires AllSpace(a) && a != ""
    ensures IsSpace((a + rest)[0])
    ensures forall b: string :: a + b + rest == a + (b + rest)
  {
  }

  function DirectiveOf(name: string, value: string): Directive {
    if IsToken(value) then Token(name, value) else Quoted(name, value)
  }

  lemma DirectiveOfIsValid(name: string, value: string)
    requires IsToken(name) && IsDirectiveValue(value)
    ensures ValidDirective(DirectiveOf(name, value)) && ValueOf(DirectiveOf(name, value)) == Some(value)
    ensures DirectiveOf(name, value).name == name && !DirectiveOf(name, value).Bare?
  {
  }

  /** The directive that an accepted piece spells. */
  lemma ReadIsSpelling(raw: string) returns (d: Directive)
    requires Trim(raw) != "" && Classify(raw) != Refused
    ensures ValidDirective(d) && Spells(raw, d)
  {
    hide Trim, IsToken, Classify, AllSpace, IndexOf, IsDirectiveValue, ValidDirective, SpellsWith;
    var eq := IndexOf(Trim(raw), '=');
    if eq.None? { d := ReadIsBare(raw); } else { d := ReadHasValue(raw, eq.value); }
  }

  lemma ReadIsBare(raw: string) returns (d: Directive)
    requires Trim(raw) != "" && Classify(raw) != Refused && '=' !in Trim(raw)
    ensures ValidDirective(d) && Spells(raw, d)
  {
    hide Trim, IsToken, Classify, AllSpace, MeaningOf;
    var t := Trim(raw);
    var a, c := TrimParts(raw);
    ReadBare(raw);
    var b := FrontParts(t, t);
    d := Bare(Trim(t));
    assert Trim(t) + b + "" == t;
    assert SpellsWith(raw, d, a, b, c);
  }

  lemma ReadHasValue(raw: string, at: nat) returns (d: Directive)
    requires at < |Trim(raw)| && Trim(raw)[at] == '=' && '=' !in Trim(raw)[..at] && Classify(raw) != Refused
    ensures ValidDirective(d) && Spells(raw, d)
  {
    hide Trim, IsToken, Classify, AllSpace, MeaningOf, IsDirectiveValue, ValidDirective, DirectiveOf;
    var t := Trim(raw);
    var a, c := TrimParts(raw);
    var front, v := t[..at], t[at + 1..];
    assert t == front + "=" + v;
    ReadAtEquals(raw, front, v);
    EmptyIsNoToken(front);
    var b := FrontParts(front, t);
    d := DirectiveOf(Trim(front), v);
    DirectiveOfIsValid(Trim(front), v);
    assert Trim(front) + b + ("=" + v) == t;
    assert SpellsWith(raw, d, a, b, c);
  }

  lemma EmptyIsNoToken(front: string)
    requires IsToken(Trim(front))
    ensures front != ""
  {
  }

  /** A piece means nothing if it is blank, what its directive means if it spells a well-formed one, and is refused
      otherwise: the reading of pieces accepts the grammar and nothing else. */
  lemma ReadsExactlyTheDirectives(raw: string)
    ensures Trim(raw) == "" ==> Classify(raw) == Nothing
    ensures forall d :: ValidDirective(d) && Spells(raw, d) ==> Trim(raw) != "" && Classify(raw) == MeaningOf(Lower(d.name), ValueOf(d))
    ensures Classify(raw) != Refused <==>
      Trim(raw) == "" || exists d :: ValidDirective(d) && Spells(raw, d) && MeaningOf(Lower(d.name), ValueOf(d)) != Refused
  {
    hide ValidDirective, Spells, MeaningOf, Lower, IsLowerToken, IsDirectiveValue;
    forall d | ValidDirective(d) && Spells(raw, d) ensures Trim(raw) != "" && Classify(raw) == MeaningOf(Lower(d.name), ValueOf(d)) {
      SpellingIsRead(raw, d);
    }
    if Trim(raw) != "" && Classify(raw) != Refused {
      var d := ReadIsSpelling(raw);
    }
  }

  lemma PrintedEnds(d: Directive)
    requires ValidDirective(d)
    ensures Trim(d.name) == d.name
    ensures Print(d) != "" && Trim(Print(d)) == Print(d)
  {
    NameEnds(d.name);
    if !d.Bare? { ValueEnds(d); }
    hide ValidDirective, IsToken, IsQuotedString, IsSpace;
    var s := Print(d);
    assert s[0] == d.name[0];
    assert !d.Bare? ==> s[|s| - 1] == ValueOf(d).value[|ValueOf(d).value| - 1];
  }

  /** A printed directive is read with its own name and value. */
  lemma ClassifyPrinted(d: Directive)
    requires ValidDirective(d)
    ensures Classify(Print(d)) == MeaningOf(Lower(d.name), ValueOf(d))
  {
    hide Trim, IndexOf, Lower, IsLowerToken, IsQuotedString, MeaningOf;
    var s := Print(d);
    PrintedEnds(d);
    TokenIsPlain(d.name);
    if !d.Bare? {
      IndexOfFirst(d.name, '=', ValueOf(d).value);
      assert s == d.name + ['='] + ValueOf(d).value;
      assert s[..|d.name|] == d.name && s[|d.name| + 1..] == ValueOf(d).value;
    }
  }

  /** Scanning a printed list of directives finds exactly those directives. */
  lemma ScanPrinted(ds: seq<Directive>)
    requires ds != [] && forall i :: 0 <= i < |ds| ==> ValidDirective(ds[i])
    ensures Pieces(Join(PrintAll(ds), ","), false) == PrintAll(ds)
    ensures Meanings(Join(PrintAll(ds), ",")) == MeaningsOf(ds)
  {
    var printed := PrintAll(ds);
    forall i | 0 <= i < |ds| ensures Closed(printed[i], false) && Classify(printed[i]) == MeaningsOf(ds)[i] {
      PrintedIsClosed(ds[i]);
      ClassifyPrinted(ds[i]);
    }
    PiecesOfJoin(printed);
  }

  lemma ClassifyConcat(ps: seq<string>, qs: seq<string>)
    ensures ClassifyAll(ps + qs) == ClassifyAll(ps) + ClassifyAll(qs)
  {
  }

  lemma TakeOne(qs: seq<string>, j: nat)
    requires j < |qs|
    ensures multiset(qs) == multiset(qs[..j] + qs[j + 1..]) + multiset{qs[j]}
    ensures multiset(ClassifyAll(qs)) == multiset(ClassifyAll(qs[..j] + qs[j + 1..])) + multiset{Classify(qs[j])}
  {
    hide Classify;
    var a, b := qs[..j], qs[j + 1..];
    assert qs == a + ([qs[j]] + b);
    ClassifyConcat(a, b);
    ClassifyConcat([qs[j]], b);
    ClassifyConcat(a, [qs[j]] + b);
    assert ClassifyAll([qs[j]]) == [Classify(qs[j])];
  }

  lemma Cancel(a: multiset<string>, b: multiset<string>, x: string)
    requires a + multiset{x} == b + multiset{x}
    ensures a == b
  {
    assert a == (a + multiset{x}) - multiset{x} && b == (b + multiset{x}) - multiset{x};
  }

  lemma {:induction false} ClassesAreCounted(ps: seq<string>, qs: seq<string>)
    requires multiset(ps) == multiset(qs)
    ensures multiset(ClassifyAll(ps)) == multiset(ClassifyAll(qs))
    decreases |ps|
  {
    hide Classify, ClassifyAll;
    if ps == [] {
      assert |multiset(qs)| == 0;
      assert qs == ps;
    } else {
      var j := PlaceOf(ps, qs);
      var front, rest := ps[..0] + ps[1..], qs[..j] + qs[j + 1..];
      TakeOne(ps, 0);
      TakeOne(qs, j);
      Cancel(multiset(front), multiset(rest), ps[0]);
      ClassesAreCounted(front, rest);
    }
  }

  lemma PlaceOf(ps: seq<string>, qs: seq<string>) returns (j: nat)
    requires multiset(ps) == multiset(qs) && ps != []
    ensures j < |qs| && qs[j] == ps[0]
  {
    assert ps[0] in multiset(ps);
    j :| 0 <= j < |qs| && qs[j] == ps[0];
  }

  lemma SameLifetime(ms: seq<Meaning>, ns: seq<Meaning>)
    requires multiset(ms) == multiset(ns)
    ensures LifetimeOf(ms) == LifetimeOf(ns)
  {
    hide LifetimeOf, GivesLifetime;
    var a, b := LifetimeOf(ms), LifetimeOf(ns);
    if a.Some? {
      LifetimeIsGiven(ms, a.value);
      LifetimeIsGiven(ns, a.value);
    } else if b.Some? {
      LifetimeIsGiven(ms, b.value);
      LifetimeIsGiven(ns, b.value);
    }
  }

  /** The lifetime does not depend on the order of the directives. */
  lemma OrderDoesNotMatter(ds: seq<string>, es: seq<string>)
    requires ds != [] && AllClosed(ds) && multiset(ds) == multiset(es)
    ensures ParsedMaxAge(Some([Join(ds, ",")])) == ParsedMaxAge(Some([Join(es, ",")]))
  {
    hide Pieces, Closed, LifetimeOf, Classify;
    assert |ds| == |multiset(ds)| == |es|;
    forall i | 0 <= i < |es| ensures Closed(es[i], false) {
      assert es[i] in multiset(ds);
    }
    PiecesOfJoin(ds);
    PiecesOfJoin(es);
    ClassesAreCounted(ds, es);
    SameLifetime(ClassifyAll(ds), ClassifyAll(es));
  }

  // ------------------------------------------------ single lifetimes

  // ------------------------------------------------ the lifetime of a header, by its directives

  predicate IsNamed(d: Directive, name: string) {
    Lower(d.name) == name
  }

  predicate GivesAge(d: Directive) {
    IsNamed(d, "max-age") || IsNamed(d, "s-maxage")
  }

  /** The value is a run of digits that stands for `n`. */
  predicate HasNumber(d: Directive, n: nat) {
    && !d.Bare? && ValueOf(d).value != "" && (forall i :: 0 <= i < |ValueOf(d).value| ==> '0' <= ValueOf(d).value[i] <= '9')
    && DecimalValue(ValueOf(d).value) == n
  }

  /** The directives state this lifetime: none of them forbids storing, each age is given once and as a safe integer, it is
      the shared one if there is one, and at least a minute. */
  ghost predicate StateLifetime(ds: seq<Directive>, n: nat) {
    && (forall i :: 0 <= i < |ds| ==> !IsNamed(ds[i], "no-store") && !IsNamed(ds[i], "no-cache") && !IsNamed(ds[i], "private"))
    && (forall i :: 0 <= i < |ds| && GivesAge(ds[i]) ==> exists m: nat :: HasNumber(ds[i], m) && m <= 0x1F_FFFF_FFFF_FFFF)
    && (forall i, j :: 0 <= i < j < |ds| && GivesAge(ds[i]) && GivesAge(ds[j]) ==> Lower(ds[i].name) != Lower(ds[j].name))
    && (exists i :: 0 <= i < |ds| && HasNumber(ds[i], n)
          && (IsNamed(ds[i], "s-maxage")
              || (IsNamed(ds[i], "max-age") && forall j :: 0 <= j < |ds| ==> !IsNamed(ds[j], "s-maxage"))))
    && n >= 60
  }

  /** What one directive contributes, by its name and value. */
  lemma MeaningExactly(d: Directive, n: nat)
    ensures var m := MeaningOf(Lower(d.name), ValueOf(d));
      && (m == MaxAge(n) <==> IsNamed(d, "max-age") && HasNumber(d, n) && n <= 0x1F_FFFF_FFFF_FFFF)
      && (m == SMaxage(n) <==> IsNamed(d, "s-maxage") && HasNumber(d, n) && n <= 0x1F_FFFF_FFFF_FFFF)
  {
    hide Lower, DecimalValue;
  }

  lemma RefusedExactly(d: Directive)
    ensures MeaningOf(Lower(d.name), ValueOf(d)) == Refused <==>
      || IsNamed(d, "no-store") || IsNamed(d, "no-cache") || IsNamed(d, "private")
      || (GivesAge(d) && !exists n: nat :: HasNumber(d, n) && n <= 0x1F_FFFF_FFFF_FFFF)
  {
    hide Lower, DecimalValue;
    if GivesAge(d) && !d.Bare? && IsDecimal(ValueOf(d).value) { assert HasNumber(d, DecimalValue(ValueOf(d).value)); }
  }

  lemma {:induction false} CountedOnce(ms: seq<Meaning>, m: Meaning)
    ensures multiset(ms)[m] <= 1 <==> forall i, j :: 0 <= i < j < |ms| ==> !(ms[i] == m && ms[j] == m)
    ensures multiset(ms)[m] == 0 <==> m !in ms
  {
    if ms != [] {
      var front, last := ms[..|ms| - 1], ms[|ms| - 1];
      assert ms == front + [last];
      CountedOnce(front, m);
      assert multiset(ms)[m] == multiset(front)[m] + if last == m then 1 else 0;
      if multiset(ms)[m] > 1 && multiset(front)[m] == 1 {
        assert last == m && m in front;
        var i :| 0 <= i < |front| && front[i] == m;
        assert ms[i] == m && ms[|ms| - 1] == m;
      }
      if multiset(front)[m] > 1 {
        var i, j :| 0 <= i < j < |front| && front[i] == m && front[j] == m;
        assert ms[i] == m && ms[j] == m;
      }
    }
  }

  /** A header that lists well-formed directives has the lifetime they state, and none where they state none. */
  lemma LifetimeByDirectives(ds: seq<Directive>, n: nat)
    requires ds != [] && forall i :: 0 <= i < |ds| ==> ValidDirective(ds[i])
    ensures ParsedMaxAge(Some([Join(PrintAll(ds), ",")])) == Some(n) <==> StateLifetime(ds, n)
  {
    hide LifetimeOf, MeaningOf, Lower, HasNumber, ValidDirective, Pieces, Join, Classify;
    ScanPrinted(ds);
    var ms := MeaningsOf(ds);
    LifetimeIsGiven(ms, n);
    forall i | 0 <= i < |ds| ensures ms[i] == Refused <==>
      (IsNamed(ds[i], "no-store") || IsNamed(ds[i], "no-cache") || IsNamed(ds[i], "private")
       || (GivesAge(ds[i]) && !exists n: nat :: HasNumber(ds[i], n) && n <= 0x1F_FFFF_FFFF_FFFF)) {
      RefusedExactly(ds[i]);
    }
    if StateLifetime(ds, n) { StatedIsGiven(ds, n); }
    if GivesLifetime(multiset(ms), n) { GivenIsStated(ds, n); }
  }

  lemma MeaningNames(d: Directive)
    ensures var m := MeaningOf(Lower(d.name), ValueOf(d)); (m.MaxAge? ==> IsNamed(d, "max-age")) && (m.SMaxage? ==> IsNamed(d, "s-maxage"))
  {
    hide Lower, DecimalValue;
  }

  /** Each kind of age occurs at one place at most. */
  ghost predicate SingleAges(ms: seq<Meaning>) {
    && (forall i, j :: 0 <= i < |ms| && 0 <= j < |ms| && ms[i].MaxAge? && ms[j].MaxAge? ==> i == j)
    && (forall i, j :: 0 <= i < |ms| && 0 <= j < |ms| && ms[i].SMaxage? && ms[j].SMaxage? ==> i == j)
  }

  lemma StatedAgesAreSingle(ds: seq<Directive>, n: nat)
    requires StateLifetime(ds, n)
    ensures SingleAges(MeaningsOf(ds))
  {
    hide MeaningOf, Lower, HasNumber;
    forall i | 0 <= i < |ds|
      ensures var m := MeaningsOf(ds)[i]; (m.MaxAge? ==> IsNamed(ds[i], "max-age")) && (m.SMaxage? ==> IsNamed(ds[i], "s-maxage")) {
      MeaningNames(ds[i]);
    }
  }

  lemma SingleAgesCount(ms: seq<Meaning>, a: nat, b: nat)
    requires SingleAges(ms)
    ensures multiset(ms)[MaxAge(a)] <= 1 && multiset(ms)[SMaxage(a)] <= 1
    ensures MaxAge(a) in multiset(ms) && MaxAge(b) in multiset(ms) ==> a == b
    ensures SMaxage(a) in multiset(ms) && SMaxage(b) in multiset(ms) ==> a == b
  {
    CountedOnce(ms, MaxAge(a));
    CountedOnce(ms, SMaxage(a));
  }

  /** The stated age is among the meanings, and the shared one is not where it does not count. */
  lemma StatedAgeOccurs(ds: seq<Directive>, n: nat)
    requires StateLifetime(ds, n)
    ensures SMaxage(n) in MeaningsOf(ds) || (MaxAge(n) in MeaningsOf(ds) && forall a: nat :: SMaxage(a) !in MeaningsOf(ds))
  {
    hide MeaningOf, Lower, HasNumber;
    var ms := MeaningsOf(ds);
    var i :| 0 <= i < |ds| && HasNumber(ds[i], n)
      && (IsNamed(ds[i], "s-maxage") || (IsNamed(ds[i], "max-age") && forall j :: 0 <= j < |ds| ==> !IsNamed(ds[j], "s-maxage")));
    var m: nat :| HasNumber(ds[i], m) && m <= 0x1F_FFFF_FFFF_FFFF;
    OneNumber(ds[i], m, n);
    MeaningExactly(ds[i], n);
    assert ms[i] in ms;
    if !IsNamed(ds[i], "s-maxage") {
      forall k | 0 <= k < |ds| ensures !ms[k].SMaxage? { MeaningNames(ds[k]); }
    }
  }

  lemma StatedIsGiven(ds: seq<Directive>, n: nat)
    requires StateLifetime(ds, n)
    ensures GivesLifetime(multiset(MeaningsOf(ds)), n)
  {
    var ms := MeaningsOf(ds);
    forall i | 0 <= i < |ds| ensures ms[i] != Refused { RefusedExactly(ds[i]); }
    assert n >= MIN_CACHEABLE_MAX_AGE;
    StatedAgesAreSingle(ds, n);
    StatedAgeOccurs(ds, n);
    hide StateLifetime, SingleAges, MeaningOf, Lower;
    forall a: nat, b: nat
      ensures multiset(ms)[MaxAge(a)] <= 1 && multiset(ms)[SMaxage(a)] <= 1
      ensures MaxAge(a) in multiset(ms) && MaxAge(b) in multiset(ms) ==> a == b
      ensures SMaxage(a) in multiset(ms) && SMaxage(b) in multiset(ms) ==> a == b {
      SingleAgesCount(ms, a, b);
    }
  }

  lemma OneNumber(d: Directive, m: nat, n: nat)
    requires HasNumber(d, m) && HasNumber(d, n)
    ensures m == n
  {
  }

  lemma GivenIsStated(ds: seq<Directive>, n: nat)
    requires GivesLifetime(multiset(MeaningsOf(ds)), n)
    ensures StateLifetime(ds, n)
  {
    hide MeaningOf, Lower, HasNumber;
    var ms := MeaningsOf(ds);
    forall i | 0 <= i < |ds| ensures ms[i] != Refused {
      assert ms[i] in multiset(ms);
    }
    forall i | 0 <= i < |ds|
      ensures !IsNamed(ds[i], "no-store") && !IsNamed(ds[i], "no-cache") && !IsNamed(ds[i], "private")
      ensures GivesAge(ds[i]) ==> exists m: nat :: HasNumber(ds[i], m) && m <= 0x1F_FFFF_FFFF_FFFF {
      RefusedExactly(ds[i]);
    }
    forall i, j | 0 <= i < j < |ds| && GivesAge(ds[i]) && GivesAge(ds[j]) ensures Lower(ds[i].name) != Lower(ds[j].name) {
      if Lower(ds[i].name) == Lower(ds[j].name) { SameNameTwice(ds, n, i, j); }
    }
    if SMaxage(n) in ms {
      var i :| 0 <= i < |ms| && ms[i] == SMaxage(n);
      MeaningExactly(ds[i], n);
    } else {
      assert MaxAge(n) in ms;
      var i :| 0 <= i < |ms| && ms[i] == MaxAge(n);
      MeaningExactly(ds[i], n);
      if j :| 0 <= j < |ds| && IsNamed(ds[j], "s-maxage") { SharedOccurs(ds, j); }
    }
  }

  lemma SharedOccurs(ds: seq<Directive>, j: nat)
    requires j < |ds| && IsNamed(ds[j], "s-maxage") && exists m: nat :: HasNumber(ds[j], m) && m <= 0x1F_FFFF_FFFF_FFFF
    ensures exists m: nat :: SMaxage(m) in multiset(MeaningsOf(ds))
  {
    hide MeaningOf, Lower, HasNumber;
    var m: nat :| HasNumber(ds[j], m) && m <= 0x1F_FFFF_FFFF_FFFF;
    MeaningExactly(ds[j], m);
    assert MeaningsOf(ds)[j] in multiset(MeaningsOf(ds));
  }

  /** Two ages of one name are the same meaning twice, or two different ones. */
  lemma SameNameTwice(ds: seq<Directive>, n: nat, i: nat, j: nat)
    requires i < j < |ds| && GivesAge(ds[i]) && Lower(ds[i].name) == Lower(ds[j].name)
    requires exists m: nat :: HasNumber(ds[i], m) && m <= 0x1F_FFFF_FFFF_FFFF
    requires exists m: nat :: HasNumber(ds[j], m) && m <= 0x1F_FFFF_FFFF_FFFF
    ensures !GivesLifetime(multiset(MeaningsOf(ds)), n)
  {
    hide MeaningOf, Lower, HasNumber;
    var ms := MeaningsOf(ds);
    var a: nat :| HasNumber(ds[i], a) && a <= 0x1F_FFFF_FFFF_FFFF;
    var b: nat :| HasNumber(ds[j], b) && b <= 0x1F_FFFF_FFFF_FFFF;
    MeaningExactly(ds[i], a);
    MeaningExactly(ds[j], b);
    CountedOnce(ms, ms[i]);
    assert ms[i] in multiset(ms) && ms[j] in multiset(ms);
  }

  lemma DecimalIsToken(n: nat)
    ensures IsToken(Decimal(n)) && IsDecimal(Decimal(n)) && DecimalValue(Decimal(n)) == n
  {
    DecimalReadsBack(n);
    forall i | 0 <= i < |Decimal(n)| ensures IsTokenChar(Lower(Decimal(n))[i]) { }
  }

  lemma AgeNames()
    ensures IsToken("max-age") && Lower("max-age") == "max-age" && IsMaxAge("max-age") && !IsRestrictive("max-age")
    ensures IsToken("s-maxage") && Lower("s-maxage") == "s-maxage" && !IsMaxAge("s-maxage") && !IsRestrictive("s-maxage")
  {
    AgeNamesAreLower();
    hide Lower;
  }

  lemma AgeNamesAreLower()
    ensures Lower("max-age") == "max-age" && Lower("s-maxage") == "s-maxage"
  {
  }

  function AgeDirectives(max: Option<nat>, shared: Option<nat>): seq<Directive> {
    (if max.Some? then [Token("max-age", Decimal(max.value))] else [])
    + (if shared.Some? then [Token("s-maxage", Decimal(shared.value))] else [])
  }

  /** A header that states one lifetime, or one for all caches and one for shared ones, gives the shared one if
      there is one, and none below a minute or beyond the safe integers. */
  lemma SharedLifetimeWins(max: Option<nat>, shared: Option<nat>)
    requires max.Some? || shared.Some?
    ensures ParsedMaxAge(Some([Join(PrintAll(AgeDirectives(max, shared)), ",")])) ==
      var lifetime := if shared.Some? then shared.value else max.value;
      if (max.Some? ==> max.value <= MAX_SAFE_INTEGER) && MIN_CACHEABLE_MAX_AGE <= lifetime <= MAX_SAFE_INTEGER
      then Some(lifetime) else None
  {
    hide IsToken, Lower, IsMaxAge, IsSMaxage, IsRestrictive, IsDecimal, DecimalValue, Decimal, Pieces, Meanings, LifetimeOf, MeaningsOf;
    AgeNames();
    if max.Some? { DecimalIsToken(max.value); }
    if shared.Some? { DecimalIsToken(shared.value); }
    var ds := AgeDirectives(max, shared);
    ScanPrinted(ds);
    MeaningsOfAges(max, shared);
    LifetimeOfAges(max, shared);
  }

  function AgeMeaning(seconds: nat, all: bool): Meaning {
    if seconds > MAX_SAFE_INTEGER then Refused else if all then MaxAge(seconds) else SMaxage(seconds)
  }

  lemma MeaningOfAge(n: nat)
    ensures MeaningOf(Lower("max-age"), Some(Decimal(n))) == AgeMeaning(n, true)
    ensures MeaningOf(Lower("s-maxage"), Some(Decimal(n))) == AgeMeaning(n, false)
  {
    hide Lower, IsRestrictive, IsToken, Decimal;
    AgeNames();
    DecimalIsToken(n);
  }

  function AgeMeanings(max: Option<nat>, shared: Option<nat>): seq<Meaning> {
    (if max.Some? then [AgeMeaning(max.value, true)] else []) + (if shared.Some? then [AgeMeaning(shared.value, false)] else [])
  }

  lemma LifetimeOfAges(max: Option<nat>, shared: Option<nat>)
    requires max.Some? || shared.Some?
    ensures LifetimeOf(AgeMeanings(max, shared)) ==
      var lifetime := if shared.Some? then shared.value else max.value;
      if (max.Some? ==> max.value <= MAX_SAFE_INTEGER) && MIN_CACHEABLE_MAX_AGE <= lifetime <= MAX_SAFE_INTEGER
      then Some(lifetime) else None
  {
    if max.Some? { OneMeaning(AgeMeaning(max.value, true)); }
    if shared.Some? { OneMeaning(AgeMeaning(shared.value, false)); }
    if max.Some? && shared.Some? { TwoMeanings(AgeMeaning(max.value, true), AgeMeaning(shared.value, false)); }
    hide MaxAges, SMaxages;
  }

  lemma OneMeaning(m: Meaning)
    ensures MaxAges([m]) == (if m.MaxAge? then [m.seconds] else []) && SMaxages([m]) == (if m.SMaxage? then [m.seconds] else [])
  {
    assert [m][..0] == [];
  }

  lemma TwoMeanings(m: Meaning, n: Meaning)
    ensures [m] + [n] == [m, n]
    ensures MaxAges([m, n]) == MaxAges([m]) + (if n.MaxAge? then [n.seconds] else [])
    ensures SMaxages([m, n]) == SMaxages([m]) + (if n.SMaxage? then [n.seconds] else [])
  {
    assert [m, n][..1] == [m];
  }

  lemma MeaningsOfAges(max: Option<nat>, shared: Option<nat>)
    ensures MeaningsOf(AgeDirectives(max, shared)) == AgeMeanings(max, shared)
  {
    hide MeaningOf, AgeMeaning, Lower, Decimal;
    if max.Some? { MeaningOfAge(max.value); }
    if shared.Some? { MeaningOfAge(shared.value); }
  }
}
