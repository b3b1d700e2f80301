/** The bounded cache of validated client documents (src/cimd/cache.ts). */
module SuccessCache {
  import opened Prelude

  datatype Entry<T> = Entry(key: string, value: T, expiresAtMs: int)

  /** The entries in the order of the source's Map. A missing clock value stands for a non-finite one. */
  datatype Cache<T> = Cache(entries: seq<Entry<T>>, lastObserved: Option<int>)

  datatype Call<T> =
    | Get(key: string, now: Option<int>)
    | Set(key: string, value: T, expiresAt: Option<int>, now: Option<int>)

  // ------------------------------------------------------- association sequences

  predicate Has<T>(es: seq<Entry<T>>, key: string) {
    exists i :: 0 <= i < |es| && es[i].key == key
  }

  predicate UniqueKeys<T>(es: seq<Entry<T>>) {
    forall i, j :: 0 <= i < j < |es| ==> es[i].key != es[j].key
  }

  function Find<T>(es: seq<Entry<T>>, key: string): (found: Option<Entry<T>>)
    ensures found.Some? <==> Has(es, key)
    ensures found.Some? ==> found.value in es && found.value.key == key
  {
    if es == [] then None else if es[0].key == key then Some(es[0]) else
      assert Has(es[1..], key) ==> Has(es, key) by {
        if Has(es[1..], key) {
          var i :| 0 <= i < |es[1..]| && es[1..][i].key == key;
          assert es[i + 1].key == key;
        }
      }
      assert Has(es, key) ==> Has(es[1..], key) by {
        if Has(es, key) {
          var i :| 0 <= i < |es| && es[i].key == key;
          assert es[1..][i - 1].key == key;
        }
      }
      Find(es[1..], key)
  }

  function Without<T>(es: seq<Entry<T>>, key: string): (rest: seq<Entry<T>>) {
    if es == [] then [] else if es[0].key == key then es[1..] else [es[0]] + Without(es[1..], key)
  }

  /** The last `n` entries. */
  function Newest<T>(es: seq<Entry<T>>, n: nat): seq<Entry<T>> {
    if |es| <= n then es else es[|es| - n..]
  }

  lemma WithoutStep<T>(es: seq<Entry<T>>, key: string)
    requires es != []
    ensures Without(es, key) == if es[0].key == key then es[1..] else [es[0]] + Without(es[1..], key)
  {
  }

  lemma HeldLater<T>(es: seq<Entry<T>>, key: string, i: nat)
    requires 0 < i < |es| && es[i].key == key
    ensures Has(es[1..], key)
  {
    assert es[1..][i - 1].key == key;
  }

  /** Without deletes one position, the one of the key. */
  lemma {:induction false} WithoutIsOneDeletion<T>(es: seq<Entry<T>>, key: string) returns (at: nat)
    requires Has(es, key)
    ensures at < |es| && es[at].key == key && Without(es, key) == es[..at] + es[at + 1..]
  {
    var i :| 0 <= i < |es| && es[i].key == key;
    WithoutStep(es, key);
    hide Without, Has;
    if es[0].key == key {
      assert es[..0] == [] && [] + es[1..] == es[1..];
      return 0;
    }
    HeldLater(es, key, i);
    var k := WithoutIsOneDeletion(es[1..], key);
    at := k + 1;
    SplitLater(es, k);
  }

  lemma SplitLater<T>(es: seq<T>, k: nat)
    requires k + 1 < |es|
    ensures es[..k + 1] + es[k + 2..] == [es[0]] + (es[1..][..k] + es[1..][k + 1..])
  {
    assert es[..k + 1] == [es[0]] + es[1..][..k];
    assert es[k + 2..] == es[1..][k + 1..];
  }

  lemma {:induction false} WithoutNothing<T>(es: seq<Entry<T>>, key: string)
    requires !Has(es, key)
    ensures Without(es, key) == es
  {
    if es != [] {
      assert es[0].key != key;
      forall i | 0 <= i < |es[1..]| ensures es[1..][i].key != key { assert es[1..][i] == es[i + 1]; }
      WithoutNothing(es[1..], key);
      assert es == [es[0]] + es[1..];
    }
  }

  lemma DeletionKeeps<T>(es: seq<Entry<T>>, at: nat)
    requires UniqueKeys(es) && at < |es|
    ensures var rest := es[..at] + es[at + 1..];
      && UniqueKeys(rest) && |rest| == |es| - 1
      && (forall e :: e in rest ==> e in es && e.key != es[at].key)
      && (forall e :: e in es && e.key != es[at].key ==> e in rest)
  {
    var rest := es[..at] + es[at + 1..];
    forall i | 0 <= i < |rest| ensures rest[i] == es[if i < at then i else i + 1] { }
    forall e | e in es && e.key != es[at].key ensures e in rest {
      var i :| 0 <= i < |es| && es[i] == e;
      assert rest[if i < at then i else i - 1] == e;
    }
  }

  /** What deletion leaves: the other entries, in their order. */
  lemma WithoutKeeps<T>(es: seq<Entry<T>>, key: string)
    requires UniqueKeys(es)
    ensures UniqueKeys(Without(es, key)) && !Has(Without(es, key), key)
    ensures forall e :: e in Without(es, key) ==> e in es && e.key != key
    ensures forall e :: e in es && e.key != key ==> e in Without(es, key)
    ensures |Without(es, key)| == |es| - if Has(es, key) then 1 else 0
  {
    hide Without, UniqueKeys;
    if Has(es, key) {
      var at := WithoutIsOneDeletion(es, key);
      DeletionKeeps(es, at);
    } else {
      WithoutNothing(es, key);
    }
  }

  lemma FindUnique<T>(es: seq<Entry<T>>, e: Entry<T>)
    requires UniqueKeys(es) && e in es
    ensures Find(es, e.key) == Some(e)
  {
  }

  // ------------------------------------------------------------------ operations

  /** A finite reading that does not go back. */
  predicate GoodReading(last: Option<int>, now: Option<int>) {
    now.Some? && (last.Some? ==> last.value <= now.value)
  }

  function DoGet<T>(c: Cache<T>, key: string, now: Option<int>): (Cache<T>, Option<T>) {
    if !GoodReading(c.lastObserved, now) then (Cache([], now), None)
    else
      var found := Find(c.entries, key);
      if found.None? then (Cache(c.entries, now), None)
      else
        var rest := Without(c.entries, key);
        if now.value < found.value.expiresAtMs then (Cache(rest + [found.value], now), Some(found.value.value))
        else (Cache(rest, now), None)
  }

  function DoSet<T>(c: Cache<T>, max: int, key: string, value: T, expiresAt: Option<int>, now: Option<int>): Cache<T> {
    if !GoodReading(c.lastObserved, now) then Cache([], now)
    else if expiresAt.None? then Cache(c.entries, now)
    else
      var room := Newest(Without(c.entries, key), if max <= 0 then 0 else max - 1);
      Cache(room + [Entry(key, value, expiresAt.value)], now)
  }

  function Next<T>(c: Cache<T>, max: int, call: Call<T>): Cache<T> {
    match call
    case Get(key, now) => DoGet(c, key, now).0
    case Set(key, value, expiresAt, now) => DoSet(c, max, key, value, expiresAt, now)
  }

  function Empty<T>(): Cache<T> {
    Cache([], None)
  }

  function After<T>(max: int, calls: seq<Call<T>>): Cache<T> {
    if calls == [] then Empty() else Next(After(max, calls[..|calls| - 1]), max, calls[|calls| - 1])
  }

  class CimdSuccessCache<T> {
    var entries: seq<Entry<T>>
    var lastObservedNowMs: Option<int>
    const maxEntries: int

    function Contents(): Cache<T>
      reads this
    {
      Cache(entries, lastObservedNowMs)
    }

    constructor (maxEntries: int)
      ensures Contents() == Empty() && this.maxEntries == maxEntries
    {
      this.maxEntries := maxEntries;
      entries, lastObservedNowMs := [], None;
    }

    method Get(key: string, nowMs: Option<int>) returns (answer: Option<T>)
      modifies this
      ensures (Contents(), answer) == DoGet(old(Contents()), key, nowMs)
    {
      var ok := Observe(nowMs);
      if !ok { return None; }
      var entry := Find(entries, key);
      if entry.None? { return None; }
      if !(nowMs.value < entry.value.expiresAtMs) {
        entries := Without(entries, key);
        return None;
      }
      entries := Without(entries, key);
      entries := entries + [entry.value];
      return Some(entry.value.value);
    }

    method Set(key: string, registration: T, expiresAtMs: Option<int>, observedNowMs: Option<int>)
      modifies this
      ensures Contents() == DoSet(old(Contents()), maxEntries, key, registration, expiresAtMs, observedNowMs)
    {
      var ok := Observe(observedNowMs);
      if !ok || expiresAtMs.None? { return; }
      entries := Without(entries, key);
      ghost var before := entries;
      while |entries| >= maxEntries
        invariant lastObservedNowMs == observedNowMs
        invariant |entries| <= |before| && entries == before[|before| - |entries|..]
        invariant |entries| >= Min(|before|, if maxEntries <= 0 then 0 else maxEntries - 1)
        decreases |entries|
      {
        if entries == [] { break; }
        entries := entries[1..];
      }
      assert entries == Newest(before, if maxEntries <= 0 then 0 else maxEntries - 1);
      entries := entries + [Entry(key, registration, expiresAtMs.value)];
    }

    method Observe(nowMs: Option<int>) returns (ok: bool)
      modifies this
      ensures lastObservedNowMs == nowMs
      ensures ok == GoodReading(old(lastObservedNowMs), nowMs)
      ensures entries == if ok then old(entries) else []
    {
      var prior := lastObservedNowMs;
      lastObservedNowMs := nowMs;
      if nowMs.None? || (prior.Some? && nowMs.value < prior.value) {
        entries := [];
        return false;
      }
      return true;
    }
  }

  // -------------------------------------------------------- bounded and duplicate-free

  lemma StepKeepsShape<T>(c: Cache<T>, max: int, call: Call<T>)
    requires UniqueKeys(c.entries)
    ensures UniqueKeys(Next(c, max, call).entries)
    ensures |c.entries| <= Max(1, max) ==> |Next(c, max, call).entries| <= Max(1, max)
  {
    hide Without, Find, Has, UniqueKeys, Newest;
    WithoutKeeps(c.entries, call.key);
    NothingIsUnique<T>();
    var rest := Without(c.entries, call.key);
    if call.Get? {
      if Find(c.entries, call.key).Some? { AppendedIsUnique(rest, Find(c.entries, call.key).value); }
    } else if call.expiresAt.Some? {
      NewestIsUnique(rest, if max <= 0 then 0 else max - 1);
      AppendedIsUnique(Newest(rest, if max <= 0 then 0 else max - 1), Entry(call.key, call.value, call.expiresAt.value));
    }
  }

  lemma NothingIsUnique<T>()
    ensures UniqueKeys<T>([])
  {
  }

  lemma AppendedIsUnique<T>(es: seq<Entry<T>>, e: Entry<T>)
    requires UniqueKeys(es) && forall x :: x in es ==> x.key != e.key
    ensures UniqueKeys(es + [e])
  {
  }

  lemma NewestIsUnique<T>(es: seq<Entry<T>>, n: nat)
    requires UniqueKeys(es)
    ensures UniqueKeys(Newest(es, n)) && |Newest(es, n)| <= n && |Newest(es, n)| <= |es| && forall e :: e in Newest(es, n) ==> e in es
  {
  }

  /** The size bound. With `max < 1` one entry is still stored. */
  lemma {:induction false} SizeBound<T>(max: int, calls: seq<Call<T>>)
    ensures UniqueKeys(After(max, calls).entries) && |After(max, calls).entries| <= Max(1, max)
  {
    if calls != [] {
      SizeBound(max, calls[..|calls| - 1]);
      StepKeepsShape(After(max, calls[..|calls| - 1]), max, calls[|calls| - 1]);
    }
  }

  /** The size stays within the configured maximum in every run exactly when that is at least one. */
  lemma SizeWithinMaximum<T>(max: int, key: string, value: T)
    ensures (forall calls: seq<Call<T>> :: |After(max, calls).entries| <= max) <==> max >= 1
  {
    if max >= 1 {
      forall calls: seq<Call<T>> ensures |After(max, calls).entries| <= max {
        SizeBound(max, calls);
      }
    } else {
      var one := [Call.Set(key, value, Some(1), Some(0))];
      assert one[..0] == [];
      assert After(max, one) == Next(Empty<T>(), max, one[0]);
      assert |After(max, one).entries| == 1;
    }
  }

  // ---------------------------------------------- the unbounded map it stands for

  /** The same cache without a bound and without an order. */
  datatype Unbounded<T> = Unbounded(entries: map<string, Entry<T>>, lastObserved: Option<int>)

  function NextUnbounded<T>(u: Unbounded<T>, call: Call<T>): (Unbounded<T>, Option<T>) {
    if !GoodReading(u.lastObserved, call.now) then (Unbounded(map[], call.now), None)
    else match call
    case Get(key, now) =>
      if key !in u.entries then (Unbounded(u.entries, now), None)
      else if now.value < u.entries[key].expiresAtMs then (Unbounded(u.entries, now), Some(u.entries[key].value))
      else (Unbounded(u.entries - {key}, now), None)
    case Set(key, value, expiresAt, now) =>
      if expiresAt.None? then (Unbounded(u.entries, now), None)
      else (Unbounded(u.entries[key := Entry(key, value, expiresAt.value)], now), None)
  }

  function AfterUnbounded<T>(calls: seq<Call<T>>): Unbounded<T> {
    if calls == [] then Unbounded(map[], None)
    else NextUnbounded(AfterUnbounded(calls[..|calls| - 1]), calls[|calls| - 1]).0
  }

  ghost predicate Within<T>(c: Cache<T>, u: Unbounded<T>) {
    && c.lastObserved == u.lastObserved
    && forall e :: e in c.entries ==> e.key in u.entries && u.entries[e.key] == e
  }

  lemma FindIsWithin<T>(c: Cache<T>, u: Unbounded<T>, key: string)
    requires Within(c, u)
    ensures var found := Find(c.entries, key);
      if found.Some? then key in u.entries && u.entries[key] == found.value else forall e :: e in c.entries ==> e.key != key
  {
  }

  lemma StepStaysWithin<T>(c: Cache<T>, u: Unbounded<T>, max: int, call: Call<T>)
    requires UniqueKeys(c.entries) && Within(c, u)
    ensures Within(Next(c, max, call), NextUnbounded(u, call).0)
  {
    hide Without, UniqueKeys, Newest, Has, Find;
    var rest, n := Without(c.entries, call.key), if max <= 0 then 0 else max - 1;
    WithoutKeeps(c.entries, call.key);
    NewestArePart(rest, n);
    FindIsWithin(c, u, call.key);
    assert Within(Cache(c.entries, call.now), Unbounded(u.entries, call.now));
    assert Within(Cache(rest, call.now), Unbounded(u.entries - {call.key}, call.now));
    if call.Set? && call.expiresAt.Some? {
      var entry := Entry(call.key, call.value, call.expiresAt.value);
      assert Within(Cache(Newest(rest, n) + [entry], call.now), Unbounded(u.entries[call.key := entry], call.now));
    }
  }

  lemma NewestArePart<T>(es: seq<Entry<T>>, n: nat)
    ensures forall e :: e in Newest(es, n) ==> e in es
  {
  }

  lemma {:induction false} RunStaysWithin<T>(max: int, calls: seq<Call<T>>)
    ensures Within(After(max, calls), AfterUnbounded(calls))
  {
    if calls != [] {
      var before := calls[..|calls| - 1];
      RunStaysWithin(max, before);
      SizeBound(max, before);
      StepStaysWithin(After(max, before), AfterUnbounded(before), max, calls[|calls| - 1]);
    }
  }

  /** Every hit is the answer of the unbounded map; a miss differs from it only for an entry not held. */
  lemma HitsAgree<T>(max: int, calls: seq<Call<T>>, key: string, now: Option<int>)
    ensures var c, u := After(max, calls), AfterUnbounded(calls);
      var answer, reference := DoGet(c, key, now).1, NextUnbounded(u, Call.Get(key, now)).1;
      && (answer.Some? ==> answer == reference)
      && (Has(c.entries, key) ==> answer == reference)
  {
    RunStaysWithin(max, calls);
  }

  /** A reading that goes back or is not finite leaves nothing that can be served. */
  lemma BadReadingEmpties<T>(c: Cache<T>, max: int, call: Call<T>, key: string, now: Option<int>)
    requires !GoodReading(c.lastObserved, call.now)
    ensures DoGet(Next(c, max, call), key, now).1.None?
    ensures Next(c, max, call).lastObserved == call.now
  {
  }

  // -------------------------------------------------------------- recency and eviction

  /** The key a call uses, if it stores or serves one. */
  function Touch<T>(c: Cache<T>, call: Call<T>): Option<string> {
    if call.Get? then (if DoGet(c, call.key, call.now).1.Some? then Some(call.key) else None)
    else if GoodReading(c.lastObserved, call.now) && call.expiresAt.Some? then Some(call.key)
    else None
  }

  /** The keys used by a run, one for each use, oldest first. */
  function Uses<T>(max: int, calls: seq<Call<T>>): seq<string> {
    if calls == [] then []
    else
      var before := calls[..|calls| - 1];
      var touch := Touch(After(max, before), calls[|calls| - 1]);
      Uses(max, before) + if touch.Some? then [touch.value] else []
  }

  /** The number of uses up to and including the last one of `key`. */
  function LastUse(uses: seq<string>, key: string): (n: nat)
    ensures n <= |uses|
    ensures forall i :: n <= i < |uses| ==> uses[i] != key
    ensures n > 0 ==> uses[n - 1] == key
  {
    if uses == [] then 0
    else if uses[|uses| - 1] == key then |uses|
    else LastUse(uses[..|uses| - 1], key)
  }

  lemma LastUseAppend(uses: seq<string>, k: string, key: string)
    ensures LastUse(uses + [k], key) == if k == key then |uses| + 1 else LastUse(uses, key)
  {
    assert (uses + [k])[..|uses|] == uses;
  }

  /** The entries are in the order of their last uses. */
  ghost predicate RecencyOrder<T>(es: seq<Entry<T>>, uses: seq<string>) {
    && (forall i :: 0 <= i < |es| ==> LastUse(uses, es[i].key) > 0)
    && (forall i, j :: 0 <= i < j < |es| ==> LastUse(uses, es[i].key) < LastUse(uses, es[j].key))
  }

  lemma DeletingKeepsOrder<T>(es: seq<Entry<T>>, key: string, uses: seq<string>)
    requires RecencyOrder(es, uses)
    ensures RecencyOrder(Without(es, key), uses)
  {
    hide LastUse, Has, Without;
    if Has(es, key) {
      var at := WithoutIsOneDeletion(es, key);
      var rest := Without(es, key);
      forall i | 0 <= i < |rest| ensures rest[i] == es[if i < at then i else i + 1] { }
    } else {
      WithoutNothing(es, key);
    }
  }

  lemma DroppingKeepsOrder<T>(es: seq<Entry<T>>, n: nat, uses: seq<string>)
    requires RecencyOrder(es, uses)
    ensures RecencyOrder(Newest(es, n), uses)
  {
    hide LastUse;
  }

  lemma AppendingKeepsOrder<T>(es: seq<Entry<T>>, e: Entry<T>, uses: seq<string>)
    requires RecencyOrder(es, uses) && !Has(es, e.key)
    ensures RecencyOrder(es + [e], uses + [e.key])
  {
    forall i | 0 <= i < |es| ensures LastUse(uses + [e.key], es[i].key) == LastUse(uses, es[i].key) <= |uses| {
      LastUseAppend(uses, e.key, es[i].key);
    }
    LastUseAppend(uses, e.key, e.key);
  }

  lemma NewestLacks<T>(es: seq<Entry<T>>, n: nat, key: string)
    requires !Has(es, key)
    ensures !Has(Newest(es, n), key)
  {
  }

  lemma NothingIsOrdered<T>(uses: seq<string>)
    ensures RecencyOrder<T>([], uses)
  {
  }

  lemma StepKeepsOrder<T>(c: Cache<T>, uses: seq<string>, max: int, call: Call<T>)
    requires UniqueKeys(c.entries) && RecencyOrder(c.entries, uses)
    ensures var touch := Touch(c, call);
      RecencyOrder(Next(c, max, call).entries, uses + if touch.Some? then [touch.value] else [])
  {
    hide RecencyOrder, Has, UniqueKeys, Newest, Without;
    var n := if max <= 0 then 0 else max - 1;
    var rest := Without(c.entries, call.key);
    DeletingKeepsOrder(c.entries, call.key, uses);
    DroppingKeepsOrder(rest, n, uses);
    WithoutKeeps(c.entries, call.key);
    NewestLacks(rest, n, call.key);
    assert uses + [] == uses;
    NothingIsOrdered<T>(uses);
    match call
    case Get(key, now) =>
      var found := Find(c.entries, key);
      if found.Some? { AppendingKeepsOrder(rest, found.value, uses); }
    case Set(key, value, expiresAt, now) =>
      if expiresAt.Some? { AppendingKeepsOrder(Newest(rest, n), Entry(key, value, expiresAt.value), uses); }
  }

  /** In every run the entries stand in the order of their last uses. */
  lemma {:induction false} OrderIsRecency<T>(max: int, calls: seq<Call<T>>)
    ensures RecencyOrder(After(max, calls).entries, Uses(max, calls))
  {
    if calls != [] {
      hide RecencyOrder, UniqueKeys, Next, Touch;
      var before := calls[..|calls| - 1];
      OrderIsRecency(max, before);
      SizeBound(max, before);
      StepKeepsOrder(After(max, before), Uses(max, before), max, calls[|calls| - 1]);
    } else {
      assert After<T>(max, calls) == Empty<T>();
    }
  }

  function UsedAfter(uses: seq<string>, n: nat): set<string>
    requires n <= |uses|
  {
    set i | n <= i < |uses| :: uses[i]
  }

  /** An entry that is neither cleared nor found expired leaves only after `max` other keys were used since its last use. */
  lemma EvictionNeedsOthers<T>(max: int, calls: seq<Call<T>>, call: Call<T>, key: string)
    requires max >= 1
    requires Has(After(max, calls).entries, key) && !Has(After(max, calls + [call]).entries, key)
    requires GoodReading(After(max, calls).lastObserved, call.now)
    requires !(call.Get? && call.key == key)
    ensures var uses := Uses(max, calls + [call]);
      key !in UsedAfter(uses, LastUse(uses, key)) && |UsedAfter(uses, LastUse(uses, key))| >= max
  {
    assert (calls + [call])[..|calls|] == calls;
    var c, uses := After(max, calls), Uses(max, calls);
    SizeBound(max, calls);
    OrderIsRecency(max, calls);
    DeletingKeepsOrder(c.entries, call.key, uses);
    WithoutKeeps(c.entries, call.key);
    var at := EvictedFromTheFront(c, max, call, key);
    LaterKeysWereUsed(Without(c.entries, call.key), at, uses, call.key);
  }

  /** Only storing another key pushes an entry out, and it then stood at least `max` places from the end. */
  lemma EvictedFromTheFront<T>(c: Cache<T>, max: int, call: Call<T>, key: string) returns (at: nat)
    requires max >= 1 && UniqueKeys(c.entries) && GoodReading(c.lastObserved, call.now)
    requires Has(c.entries, key) && !Has(Next(c, max, call).entries, key) && !(call.Get? && call.key == key)
    ensures call.Set? && call.expiresAt.Some?
    ensures var rest := Without(c.entries, call.key); at < |rest| && rest[at].key == key && |rest| - at >= max
  {
    WithoutKeeps(c.entries, call.key);
    var e :| e in c.entries && e.key == key;
    var next, rest := Next(c, max, call).entries, Without(c.entries, call.key);
    OthersStay(c, max, call, e);
    assert e !in next && call.key != key by {
      assert forall x :: x in next ==> x.key != key;
      if call.Set? && call.expiresAt.Some? { assert next[|next| - 1].key == call.key; }
    }
    at :| 0 <= at < |rest| && rest[at] == e;
    RecentStay(rest, at, max - 1);
  }

  lemma OthersStay<T>(c: Cache<T>, max: int, call: Call<T>, e: Entry<T>)
    requires UniqueKeys(c.entries) && GoodReading(c.lastObserved, call.now) && e in c.entries
    ensures e.key != call.key && (call.Get? || call.expiresAt.None?) ==> e in Next(c, max, call).entries
    ensures call.Set? && call.expiresAt.None? ==> e in Next(c, max, call).entries
  {
    WithoutKeeps(c.entries, call.key);
  }

  lemma RecentStay<T>(es: seq<Entry<T>>, at: nat, n: nat)
    requires at < |es|
    ensures |es| - at <= n ==> es[at] in Newest(es, n)
  {
    if n < |es| && |es| - at <= n {
      assert Newest(es, n)[at - (|es| - n)] == es[at];
    }
  }

  /** The keys behind an entry, and the key just set, were all used after its last use. */
  lemma LaterKeysWereUsed<T>(es: seq<Entry<T>>, at: nat, uses: seq<string>, newest: string)
    requires at < |es| && UniqueKeys(es) && RecencyOrder(es, uses) && !Has(es, newest)
    ensures LastUse(uses + [newest], es[at].key) == LastUse(uses, es[at].key)
    ensures |UsedAfter(uses + [newest], LastUse(uses, es[at].key))| >= |es| - at
    ensures es[at].key !in UsedAfter(uses + [newest], LastUse(uses, es[at].key))
  {
    hide LastUse;
    var last := LastUse(uses, es[at].key);
    LastUseAppend(uses, newest, es[at].key);
    var behind := KeysOf(es[at + 1..]);
    KeysAreCounted(es[at + 1..]);
    assert newest !in behind;
    var used := UsedAfter(uses + [newest], last);
    forall k | k in behind ensures k in used {
      var j :| 0 <= j < |es[at + 1..]| && es[at + 1..][j].key == k;
      var n := LastUse(uses, es[at + 1 + j].key);
      assert (uses + [newest])[n - 1] == k;
    }
    assert (uses + [newest])[|uses|] == newest;
    Subset(behind + {newest}, used);
  }

  function KeysOf<T>(es: seq<Entry<T>>): set<string> {
    set i | 0 <= i < |es| :: es[i].key
  }

  lemma {:induction false} KeysAreCounted<T>(es: seq<Entry<T>>)
    requires UniqueKeys(es)
    ensures |KeysOf(es)| == |es|
  {
    if es != [] {
      KeysAreCounted(es[1..]);
      assert KeysOf(es) == {es[0].key} + KeysOf(es[1..]) by {
        forall k | k in KeysOf(es) ensures k in {es[0].key} + KeysOf(es[1..]) {
          var i :| 0 <= i < |es| && es[i].key == k;
          if i > 0 { assert es[1..][i - 1].key == k; }
        }
        forall k | k in KeysOf(es[1..]) ensures k in KeysOf(es) {
          var i :| 0 <= i < |es[1..]| && es[1..][i].key == k;
          assert es[i + 1].key == k;
        }
      }
    }
  }

  lemma Subset<T>(a: set<T>, b: set<T>)
    requires a <= b
    ensures |a| <= |b|
  {
    assert b == a + (b - a);
  }

  // ------------------------------------------------------------- what is kept is served

  /** The entry is held, and only keys of `others` were used after it. */
  ghost predicate Held<T>(es: seq<Entry<T>>, entry: Entry<T>, others: set<string>) {
    exists i :: HeldAt(es, entry, others, i)
  }

  ghost predicate HeldAt<T>(es: seq<Entry<T>>, entry: Entry<T>, others: set<string>, i: int) {
    0 <= i < |es| && es[i] == entry && forall j :: i < j < |es| ==> es[j].key in others
  }

  lemma HeldRemoved<T>(es: seq<Entry<T>>, entry: Entry<T>, others: set<string>, at: nat, i: nat)
    requires UniqueKeys(es) && HeldAt(es, entry, others, i) && at < |es| && at != i
    ensures HeldAt(es[..at] + es[at + 1..], entry, others - {es[at].key}, if at < i then i - 1 else i)
  {
    var rest, k := es[..at] + es[at + 1..], if at < i then i - 1 else i;
    forall j | k < j < |rest| ensures rest[j].key in others - {es[at].key} {
      var l := if j < at then j else j + 1;
      assert rest[j] == es[l] && es[l].key != es[at].key;
    }
  }

  lemma HeldWithout<T>(es: seq<Entry<T>>, entry: Entry<T>, others: set<string>, key: string)
    requires UniqueKeys(es) && Held(es, entry, others) && key != entry.key
    ensures Held(Without(es, key), entry, others - {key})
  {
    var i :| HeldAt(es, entry, others, i);
    if Has(es, key) {
      var at := WithoutIsOneDeletion(es, key);
      hide UniqueKeys, Has;
      HeldRemoved(es, entry, others, at, i);
    } else {
      WithoutNothing(es, key);
      assert HeldAt(es, entry, others - {key}, i);
    }
  }

  lemma HeldAppend<T>(es: seq<Entry<T>>, entry: Entry<T>, others: set<string>, e: Entry<T>)
    requires Held(es, entry, others)
    ensures Held(es + [e], entry, others + {e.key})
  {
    var i :| HeldAt(es, entry, others, i);
    assert HeldAt(es + [e], entry, others + {e.key}, i);
  }

  lemma HeldMore<T>(es: seq<Entry<T>>, entry: Entry<T>, others: set<string>, more: set<string>)
    requires Held(es, entry, others) && others <= more
    ensures Held(es, entry, more)
  {
    var i :| HeldAt(es, entry, others, i);
    assert HeldAt(es, entry, more, i);
  }

  lemma HeldNewest<T>(es: seq<Entry<T>>, entry: Entry<T>, others: set<string>, n: nat)
    requires UniqueKeys(es) && Held(es, entry, others) && |others| < n
    ensures Held(Newest(es, n), entry, others)
  {
    var i :| HeldAt(es, entry, others, i);
    var behind := es[i + 1..];
    KeysAreCounted(behind);
    Subset(KeysOf(behind), others);
    if |es| > n {
      assert HeldAt(Newest(es, n), entry, others, i - (|es| - n));
    }
  }

  /** A use of another key. */
  lemma OtherCallHolds<T>(c: Cache<T>, max: int, call: Call<T>, entry: Entry<T>, others: set<string>)
    requires UniqueKeys(c.entries) && Held(c.entries, entry, others) && entry.key !in others
    requires GoodReading(c.lastObserved, call.now) && call.key != entry.key && |others + {call.key}| < max
    ensures Held(Next(c, max, call).entries, entry, others + {call.key})
  {
    var less, all := others - {call.key}, others + {call.key};
    var found, rest := Find(c.entries, call.key), Without(c.entries, call.key);
    WithoutKeeps(c.entries, call.key);
    HeldMore(c.entries, entry, others, all);
    HeldWithout(c.entries, entry, others, call.key);
    hide Without, Newest, UniqueKeys, Has, Held;
    assert less + {call.key} == all && |less| + 1 == |all|;
    HeldMore(rest, entry, less, all);
    if call.Get? && found.Some? { HeldAppend(rest, entry, less, found.value); }
    if call.Set? && call.expiresAt.Some? {
      HeldNewest(rest, entry, less, max - 1);
      HeldAppend(Newest(rest, max - 1), entry, less, Entry(call.key, call.value, call.expiresAt.value));
    }
  }

  /** A lookup that serves nothing uses nothing: it can only remove an expired entry. */
  lemma MissHolds<T>(c: Cache<T>, key: string, now: Option<int>, entry: Entry<T>, others: set<string>)
    requires UniqueKeys(c.entries) && Held(c.entries, entry, others) && GoodReading(c.lastObserved, now)
    requires key != entry.key && DoGet(c, key, now).1.None?
    ensures Held(DoGet(c, key, now).0.entries, entry, others)
  {
    HeldWithout(c.entries, entry, others, key);
    HeldMore(Without(c.entries, key), entry, others - {key}, others);
  }

  /** One call on a clock that does not go back. */
  lemma StepHolds<T>(c: Cache<T>, max: int, call: Call<T>, entry: Entry<T>, others: set<string>)
    requires UniqueKeys(c.entries) && Held(c.entries, entry, others) && entry.key !in others
    requires GoodReading(c.lastObserved, call.now)
    requires call.key == entry.key ==> call.Get? && call.now.value < entry.expiresAtMs
    requires |others + {call.key} - {entry.key}| < max
    ensures Held(Next(c, max, call).entries, entry, others + {call.key} - {entry.key})
  {
    var all := others + {call.key} - {entry.key};
    if call.key == entry.key {
      var i :| HeldAt(c.entries, entry, others, i);
      FindUnique(c.entries, entry);
      var rest := Without(c.entries, call.key);
      assert HeldAt(rest + [entry], entry, all, |rest|);
    } else {
      assert others + {call.key} == all;
      OtherCallHolds(c, max, call, entry, others);
    }
  }

  /** The calls that come while an entry is to stay: the clock goes on without reaching its expiry, and nobody sets its key. */
  ghost predicate Quiet<T>(last: int, calls: seq<Call<T>>, key: string, expiresAt: int)
    decreases |calls|
  {
    calls == [] ||
      (calls[0].now.Some? && last <= calls[0].now.value < expiresAt && (calls[0].key == key ==> calls[0].Get?)
       && Quiet(calls[0].now.value, calls[1..], key, expiresAt))
  }

  function KeysUsed<T>(calls: seq<Call<T>>): set<string> {
    set i | 0 <= i < |calls| :: calls[i].key
  }

  lemma KeysOfRest<T>(calls: seq<Call<T>>)
    requires calls != []
    ensures calls[0].key in KeysUsed(calls) && KeysUsed(calls[1..]) <= KeysUsed(calls)
  {
    forall k | k in KeysUsed(calls[1..]) ensures k in KeysUsed(calls) {
      var i :| 0 <= i < |calls[1..]| && calls[1..][i].key == k;
      assert calls[i + 1].key == k;
    }
  }

  function Continue<T>(c: Cache<T>, max: int, calls: seq<Call<T>>): Cache<T>
    decreases |calls|
  {
    if calls == [] then c else Continue(Next(c, max, calls[0]), max, calls[1..])
  }

  lemma {:induction false} AfterContinues<T>(max: int, calls: seq<Call<T>>, later: seq<Call<T>>)
    ensures After(max, calls + later) == Continue(After(max, calls), max, later)
    decreases |later|
  {
    if later == [] {
      assert calls + later == calls;
    } else {
      assert calls + later == (calls + [later[0]]) + later[1..];
      assert (calls + [later[0]])[..|calls|] == calls;
      AfterContinues(max, calls + [later[0]], later[1..]);
    }
  }

  lemma ReadingIsKept<T>(c: Cache<T>, max: int, call: Call<T>)
    ensures Next(c, max, call).lastObserved == call.now
  {
  }

  lemma {:induction false} QuietHolds<T>(c: Cache<T>, max: int, calls: seq<Call<T>>, entry: Entry<T>, others: set<string>, bound: set<string>)
    requires UniqueKeys(c.entries) && Held(c.entries, entry, others) && c.lastObserved.Some?
    requires Quiet(c.lastObserved.value, calls, entry.key, entry.expiresAtMs)
    requires others + KeysUsed(calls) - {entry.key} <= bound && entry.key !in others && |bound| < max
    ensures var end := Continue(c, max, calls);
      UniqueKeys(end.entries) && Held(end.entries, entry, bound) && end.lastObserved.Some?
      && (calls == [] ==> end.lastObserved == c.lastObserved)
      && (calls != [] ==> end.lastObserved == calls[|calls| - 1].now)
    decreases |calls|
  {
    hide Next, UniqueKeys, Held;
    if calls == [] {
      HeldMore(c.entries, entry, others, bound);
    } else {
      var call, rest := calls[0], calls[1..];
      var now := others + {call.key} - {entry.key};
      KeysOfRest(calls);
      Subset(now, bound);
      StepHolds(c, max, call, entry, others);
      StepKeepsShape(c, max, call);
      ReadingIsKept(c, max, call);
      hide KeysUsed, GoodReading;
      QuietHolds(Next(c, max, call), max, rest, entry, now, bound);
    }
  }

  /** A stored value is served until it expires, as long as fewer than `max` other keys were used since. */
  lemma RecentAndFreshIsServed<T>(max: int, calls: seq<Call<T>>, store: Call<T>, later: seq<Call<T>>, now: int)
    requires store.Set? && store.expiresAt.Some? && GoodReading(After(max, calls).lastObserved, store.now)
    requires Quiet(store.now.value, later + [Call.Get(store.key, Some(now))], store.key, store.expiresAt.value)
    requires |KeysUsed(later) - {store.key}| < max
    ensures DoGet(After(max, calls + [store] + later), store.key, Some(now)).1 == Some(store.value)
  {
    var entry := Entry(store.key, store.value, store.expiresAt.value);
    var c := After(max, calls + [store]);
    assert (calls + [store])[..|calls|] == calls;
    SizeBound(max, calls + [store]);
    AfterContinues(max, calls + [store], later);
    JustStored(After(max, calls), max, store);
    hide After, Next, UniqueKeys, Held, Continue;
    QuietPrefix(store.now.value, later, now, store.key, store.expiresAt.value);
    QuietHolds(c, max, later, entry, {}, KeysUsed(later) - {store.key});
    HeldIsServed(Continue(c, max, later), entry, KeysUsed(later) - {store.key}, now);
  }

  lemma JustStored<T>(c: Cache<T>, max: int, store: Call<T>)
    requires store.Set? && store.expiresAt.Some? && GoodReading(c.lastObserved, store.now)
    ensures Held(Next(c, max, store).entries, Entry(store.key, store.value, store.expiresAt.value), {})
    ensures Next(c, max, store).lastObserved == store.now
  {
    var es := Next(c, max, store).entries;
    assert HeldAt(es, Entry(store.key, store.value, store.expiresAt.value), {}, |es| - 1);
  }

  lemma HeldIsServed<T>(c: Cache<T>, entry: Entry<T>, others: set<string>, now: int)
    requires UniqueKeys(c.entries) && Held(c.entries, entry, others)
    requires GoodReading(c.lastObserved, Some(now)) && now < entry.expiresAtMs
    ensures DoGet(c, entry.key, Some(now)).1 == Some(entry.value)
  {
    var i :| HeldAt(c.entries, entry, others, i);
    FindUnique(c.entries, entry);
  }

  lemma {:induction false} QuietPrefix<T>(last: int, later: seq<Call<T>>, now: int, key: string, expiresAt: int)
    requires Quiet(last, later + [Call.Get(key, Some(now))], key, expiresAt)
    ensures Quiet(last, later, key, expiresAt) && now < expiresAt
    ensures (if later == [] then last else if later[|later| - 1].now.Some? then later[|later| - 1].now.value else now) <= now
    decreases |later|
  {
    var all := later + [Call.Get(key, Some(now))];
    if later != [] {
      assert all[1..] == later[1..] + [Call.Get(key, Some(now))];
      QuietPrefix(later[0].now.value, later[1..], now, key, expiresAt);
    }
  }
}
