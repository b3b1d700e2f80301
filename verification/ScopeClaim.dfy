/** Scope lists, their bounds, and the space-joined access-token claim. */
module ScopeClaim {
  import opened Prelude
  import opened Text

  const MAX_SCOPE_ENTRIES := 128
  const MAX_SCOPE_TOKEN_BYTES := 256
  const MAX_SCOPE_CLAIM_BYTES := MAX_SCOPE_ENTRIES * MAX_SCOPE_TOKEN_BYTES + MAX_SCOPE_ENTRIES - 1

  /** NQCHAR of section 3.3 of RFC 6749. */
  predicate IsScopeChar(c: char) {
    c == '\U{21}' || '\U{23}' <= c <= '\U{5B}' || '\U{5D}' <= c <= '\U{7E}'
  }

  predicate IsScopeToken(s: string) {
    s != "" && forall i :: 0 <= i < |s| ==> IsScopeChar(s[i])
  }

  predicate IsBoundedScopeToken(s: string) {
    IsScopeToken(s) && Utf8Length(s) <= MAX_SCOPE_TOKEN_BYTES
  }

  /** The entry limits alone: number of entries and size of each. */
  predicate WithinEntryLimits(list: seq<string>) {
    |list| <= MAX_SCOPE_ENTRIES && forall i :: 0 <= i < |list| ==> IsBoundedScopeToken(list[i])
  }

  function TotalLength(list: seq<string>): nat {
    if list == [] then 0 else TotalLength(list[..|list| - 1]) + |list[|list| - 1]|
  }

  lemma {:induction false} TotalLengthBound(list: seq<string>)
    requires forall i :: 0 <= i < |list| ==> IsBoundedScopeToken(list[i])
    ensures TotalLength(list) <= |list| * MAX_SCOPE_TOKEN_BYTES
  {
    if list != [] {
      TotalLengthBound(list[..|list| - 1]);
      AsciiLength(list[|list| - 1]);
    }
  }

  /** Reads the list once and checks it entry by entry, keeping the length of the
      join so far. The claim limit on that length never refuses a list: the
      verdict is the entry limits'. */
  method SnapshotBoundedScopeList(value: seq<string>) returns (result: Option<seq<string>>)
    ensures result == StoredBounded(value)
  {
    if |value| > MAX_SCOPE_ENTRIES { return None; }
    var scopes: seq<string> := [];
    var claimBytes := Max(0, |value| - 1);
    for i := 0 to |value|
      invariant scopes == value[..i]
      invariant forall j :: 0 <= j < i ==> IsBoundedScopeToken(value[j])
      invariant claimBytes == Max(0, |value| - 1) + TotalLength(value[..i])
    {
      var scope := value[i];
      if !IsBoundedScopeToken(scope) { return None; }
      AsciiLength(scope);
      TotalLengthBound(value[..i]);
      assert value[..i + 1][..i] == value[..i];
      claimBytes := claimBytes + Utf8Length(scope);
      if claimBytes > MAX_SCOPE_CLAIM_BYTES { return None; }
      scopes := scopes + [scope];
    }
    assert value[..|value|] == value;
    return Some(scopes);
  }

  function StoredBounded(value: seq<string>): Option<seq<string>> {
    if WithinEntryLimits(value) then Some(value) else None
  }

  /** storedScopes: a bounded list within the catalog, or a refusal. */
  function StoredScopes(value: seq<string>, catalog: set<string>): Option<seq<string>> {
    if WithinEntryLimits(value) && (forall i :: 0 <= i < |value| ==> value[i] in catalog) then Some(value) else None
  }

  // ------------------------------------------------------------------- ordering

  predicate LexLe(a: string, b: string) {
    a == "" || (b != "" && (a[0] < b[0] || (a[0] == b[0] && LexLe(a[1..], b[1..]))))
  }

  lemma {:induction false} LexTotal(a: string, b: string)
    ensures LexLe(a, b) || LexLe(b, a)
  {
    if a != "" && b != "" && a[0] == b[0] { LexTotal(a[1..], b[1..]); }
  }

  lemma {:induction false} LexAntisymmetric(a: string, b: string)
    requires LexLe(a, b) && LexLe(b, a)
    ensures a == b
  {
    if a != "" && b != "" {
      LexAntisymmetric(a[1..], b[1..]);
      assert a == [a[0]] + a[1..] && b == [b[0]] + b[1..];
    }
  }

  lemma {:induction false} LexTransitive(a: string, b: string, c: string)
    requires LexLe(a, b) && LexLe(b, c)
    ensures LexLe(a, c)
  {
    if a != "" && a[0] == b[0] && b[0] == c[0] { LexTransitive(a[1..], b[1..], c[1..]); }
  }

  /** `a` and `b` first differ at place `k`, and there `a` has the smaller character. */
  predicate SmallerAt(a: string, b: string, k: int) {
    0 <= k < |a| && k < |b| && (forall i :: 0 <= i < k ==> a[i] == b[i]) && a[k] < b[k]
  }

  /** The order of texts: the shorter of two where one begins the other, and else the one with the smaller character at the
      first place where they differ. */
  lemma {:induction false} LexExactly(a: string, b: string)
    ensures LexLe(a, b) <==> a <= b || exists k :: SmallerAt(a, b, k)
  {
    if a != "" && b != "" {
      assert a == [a[0]] + a[1..] && b == [b[0]] + b[1..];
      if a[0] == b[0] {
        LexExactly(a[1..], b[1..]);
        assert a <= b <==> a[1..] <= b[1..];
        forall k: nat ensures SmallerAt(a, b, k + 1) <==> SmallerAt(a[1..], b[1..], k) { SmallerLater(a, b, k); }
        if k :| SmallerAt(a, b, k) { assert SmallerAt(a[1..], b[1..], k - 1); }
        if k :| SmallerAt(a[1..], b[1..], k) { assert SmallerAt(a, b, k + 1); }
      } else {
        assert SmallerAt(a, b, 0) <==> a[0] < b[0];
      }
    }
  }

  lemma SmallerLater(a: string, b: string, k: nat)
    requires a != "" && b != "" && a[0] == b[0]
    ensures SmallerAt(a, b, k + 1) <==> SmallerAt(a[1..], b[1..], k)
  {
    if SmallerAt(a, b, k + 1) {
      forall i | 0 <= i < k ensures a[1..][i] == b[1..][i] { assert a[i + 1] == b[i + 1]; }
    }
    if SmallerAt(a[1..], b[1..], k) {
      forall i | 0 <= i < k + 1 ensures a[i] == b[i] { if i > 0 { assert a[1..][i - 1] == b[1..][i - 1]; } }
    }
  }

  predicate IsSorted(xs: seq<string>) {
    forall i, j :: 0 <= i < j < |xs| ==> LexLe(xs[i], xs[j])
  }

  function Insert(x: string, xs: seq<string>): seq<string> {
    if xs == [] then [x]
    else if LexLe(x, xs[0]) then [x] + xs
    else [xs[0]] + Insert(x, xs[1..])
  }

  /** `[...scopes].sort()`. */
  function Sorted(xs: seq<string>): seq<string> {
    if xs == [] then [] else Insert(xs[0], Sorted(xs[1..]))
  }

  lemma {:induction false} InsertFacts(x: string, xs: seq<string>)
    requires IsSorted(xs)
    ensures IsSorted(Insert(x, xs)) && multiset(Insert(x, xs)) == multiset{x} + multiset(xs)
  {
    if xs == [] {
    } else {
      assert xs == [xs[0]] + xs[1..];
      if LexLe(x, xs[0]) {
        forall j | 0 <= j < |xs| ensures LexLe(x, xs[j]) {
          if j > 0 { LexTransitive(x, xs[0], xs[j]); }
        }
      } else {
        InsertFacts(x, xs[1..]);
        LexTotal(x, xs[0]);
        var rest := Insert(x, xs[1..]);
        forall j | 0 <= j < |rest| ensures LexLe(xs[0], rest[j]) {
          assert rest[j] in multiset(rest);
          assert rest[j] == x || rest[j] in xs[1..];
        }
      }
    }
  }

  lemma {:induction false} SortedFacts(xs: seq<string>)
    ensures IsSorted(Sorted(xs)) && multiset(Sorted(xs)) == multiset(xs)
  {
    if xs != [] {
      SortedFacts(xs[1..]);
      InsertFacts(xs[0], Sorted(xs[1..]));
      assert xs == [xs[0]] + xs[1..];
    }
  }

  /** The first element of a sorted list is below every element. */
  lemma FirstIsLeast(xs: seq<string>, x: string)
    requires IsSorted(xs) && x in xs
    ensures LexLe(xs[0], x)
  {
    var i :| 0 <= i < |xs| && xs[i] == x;
    if i == 0 { LexTotal(x, x); }
  }

  lemma {:induction false} SortedIsUnique(xs: seq<string>, ys: seq<string>)
    requires IsSorted(xs) && IsSorted(ys) && multiset(xs) == multiset(ys)
    ensures xs == ys
  {
    hide LexLe;
    assert |xs| == |multiset(xs)| == |multiset(ys)| == |ys|;
    if xs != [] {
      assert xs[0] in multiset(ys) && ys[0] in multiset(xs);
      FirstIsLeast(ys, xs[0]);
      FirstIsLeast(xs, ys[0]);
      LexAntisymmetric(xs[0], ys[0]);
      TailOf(xs);
      TailOf(ys);
      SortedIsUnique(xs[1..], ys[1..]);
    }
  }

  lemma TailOf(xs: seq<string>)
    requires xs != []
    ensures multiset(xs[1..]) == multiset(xs) - multiset{xs[0]} && xs == [xs[0]] + xs[1..]
  {
    assert xs == [xs[0]] + xs[1..];
  }

  // ---------------------------------------------------------------------- claim

  function ScopeString(scopes: seq<string>): string {
    Join(Sorted(scopes), " ")
  }

  /** accessScopeString: the claim of a checked list. */
  function AccessScopeString(value: seq<string>): Option<string> {
    if WithinEntryLimits(value) then Some(ScopeString(value)) else None
  }

  /** `value.split(" ", limit)`. */
  function SplitAtMost(value: string, limit: nat): seq<string> {
    var parts := Split(value, ' ');
    if |parts| <= limit then parts else parts[..limit]
  }

  /** incomingAccessScopes. */
  function IncomingAccessScopes(value: string): Option<seq<string>> {
    if Utf8Length(value) > MAX_SCOPE_CLAIM_BYTES then None
    else StoredBounded(if value == "" then [] else SplitAtMost(value, MAX_SCOPE_ENTRIES + 1))
  }

  lemma {:induction false} JoinedLength(list: seq<string>)
    requires forall i :: 0 <= i < |list| ==> IsBoundedScopeToken(list[i])
    ensures |Join(list, " ")| <= |list| * MAX_SCOPE_TOKEN_BYTES + Max(0, |list| - 1)
    ensures forall i :: 0 <= i < |Join(list, " ")| ==> Join(list, " ")[i] < '\U{80}'
  {
    if list != [] {
      AsciiLength(list[0]);
      JoinedLength(list[1..]);
    }
  }

  /** The join of a list within the entry limits fits the claim limit. */
  lemma ClaimFits(list: seq<string>)
    requires WithinEntryLimits(list)
    ensures Utf8Length(Join(list, " ")) <= MAX_SCOPE_CLAIM_BYTES
  {
    JoinedLength(list);
    AsciiLength(Join(list, " "));
  }

  lemma SortedWithinLimits(list: seq<string>)
    requires WithinEntryLimits(list)
    ensures WithinEntryLimits(Sorted(list)) && |Sorted(list)| == |list|
  {
    SortedFacts(list);
    assert |multiset(Sorted(list))| == |multiset(list)|;
    forall i | 0 <= i < |Sorted(list)| ensures IsBoundedScopeToken(Sorted(list)[i]) {
      assert Sorted(list)[i] in multiset(list);
    }
  }

  /** Parsing the claim of any list within the entry limits returns the sorted list. */
  lemma ClaimRoundTrip(list: seq<string>)
    requires WithinEntryLimits(list)
    ensures AccessScopeString(list).Some?
    ensures IncomingAccessScopes(AccessScopeString(list).value) == Some(Sorted(list))
    ensures IsSorted(Sorted(list)) && multiset(Sorted(list)) == multiset(list)
  {
    hide IsSorted, Utf8Length, Sorted;
    var sorted := Sorted(list);
    SortedFacts(list);
    SortedWithinLimits(list);
    ClaimFits(sorted);
    if sorted != [] {
      assert sorted[0] != "";
      forall i | 0 <= i < |sorted| ensures ' ' !in sorted[i] { assert IsBoundedScopeToken(sorted[i]); }
      SplitJoin(sorted, ' ');
    }
  }

  /** A claim that is accepted is exactly the join of what was read from it. */
  lemma AcceptedClaimRejoins(value: string)
    requires IncomingAccessScopes(value).Some?
    ensures Join(IncomingAccessScopes(value).value, " ") == value
    ensures WithinEntryLimits(IncomingAccessScopes(value).value)
  {
    if value != "" {
      var parts := Split(value, ' ');
      JoinSplit(value, ' ');
      assert |SplitAtMost(value, MAX_SCOPE_ENTRIES + 1)| <= MAX_SCOPE_ENTRIES;
    }
  }

  /** The claim depends only on which scopes the list holds and how often. */
  lemma ClaimIgnoresOrder(xs: seq<string>, ys: seq<string>)
    requires multiset(xs) == multiset(ys)
    ensures ScopeString(xs) == ScopeString(ys)
  {
    SortedFacts(xs);
    SortedFacts(ys);
    SortedIsUnique(Sorted(xs), Sorted(ys));
  }
}
