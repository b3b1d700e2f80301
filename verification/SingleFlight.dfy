/** One fetch per client id, with bounded followers (src/cimd/resolve.ts, src/cimd/waiters.ts). */
module SingleFlight {
  import opened Prelude
  import opened SuccessCache
  import opened Freshness

  /** The caps of src/cimd/options.ts and the cache's default size. */
  datatype Caps = Caps(maxInFlight: nat, maxWaiters: nat, ttlSeconds: nat, maxEntries: int)

  // ------------------------------------------------------------- the resolver's state

  /** The fetch each client id is waiting for, and the number of followers of each. */
  type Registry = map<string, nat>
  type Counts = map<string, nat>

  /** What the resolver holds between two synchronous stretches. Fetches are numbered; a number stands for its promise. */
  datatype Resolver = Resolver(cache: Cache<Fetch>, inFlight: Registry, counts: Counts, nextFetch: nat)

  datatype Begun = Hit(fetch: Fetch) | Overloaded | Joined(number: nat) | Started(number: nat)

  function CountOf(counts: Counts, key: string): nat {
    if key in counts then counts[key] else 0
  }

  function Acquired(counts: Counts, key: string, max: nat): (Counts, bool) {
    if CountOf(counts, key) >= max then (counts, false) else (counts[key := CountOf(counts, key) + 1], true)
  }

  function Released(counts: Counts, key: string): Counts {
    var parked: int := if key in counts then counts[key] else 1;
    var left := parked - 1;
    if left <= 0 then counts - {key} else counts[key := left as nat]
  }

  /** #registrationFor up to its first await. */
  function Begin(r: Resolver, caps: Caps, key: string, now: Option<int>): (Resolver, Begun) {
    var (cache, hit) := DoGet(r.cache, key, now);
    var r1 := r.(cache := cache);
    if hit.Some? then (r1, Hit(hit.value))
    else if key in r.inFlight then
      var (counts, ok) := Acquired(r.counts, key, caps.maxWaiters);
      if ok then (r1.(counts := counts), Joined(r.inFlight[key])) else (r1, Overloaded)
    else if |r.inFlight| >= caps.maxInFlight then (r1, Overloaded)
    else (r1.(inFlight := r.inFlight[key := r.nextFetch], nextFetch := r.nextFetch + 1), Started(r.nextFetch))
  }

  class WaiterCounts {
    var counts: Counts

    constructor ()
      ensures counts == map[]
    {
      counts := map[];
    }

    method TryAcquire(key: string, max: nat) returns (ok: bool)
      modifies this
      ensures (counts, ok) == Acquired(old(counts), key, max)
    {
      var parked := if key in counts then counts[key] else 0;
      if parked >= max { return false; }
      counts := counts[key := parked + 1];
      return true;
    }

    method Release(key: string)
      modifies this
      ensures counts == Released(old(counts), key)
    {
      var parked: int := if key in counts then counts[key] else 1;
      var left := parked - 1;
      if left <= 0 { counts := counts - {key}; } else { counts := counts[key := left as nat]; }
    }
  }

  class CimdResolver {
    const cache: CimdSuccessCache<Fetch>
    const waiters: WaiterCounts
    const caps: Caps
    var inFlight: Registry
    var nextFetch: nat

    ghost predicate Valid()
      reads this, cache
    {
      cache.maxEntries == caps.maxEntries
    }

    function Contents(): Resolver
      reads this, cache, waiters
    {
      Resolver(cache.Contents(), inFlight, waiters.counts, nextFetch)
    }

    constructor (caps: Caps)
      ensures Valid() && fresh(cache) && fresh(waiters)
      ensures Contents() == Resolver(Empty(), map[], map[], 0) && this.caps == caps
    {
      this.caps := caps;
      cache := new CimdSuccessCache<Fetch>(caps.maxEntries);
      waiters := new WaiterCounts();
      inFlight, nextFetch := map[], 0;
    }

    method RegistrationFor(key: string, now: Option<int>) returns (begun: Begun)
      requires Valid()
      modifies this, cache, waiters
      ensures Valid() && (Contents(), begun) == Begin(old(Contents()), caps, key, now)
    {
      var hit := cache.Get(key, now);
      if hit.Some? { return Hit(hit.value); }
      if key in inFlight {
        var ok := waiters.TryAcquire(key, caps.maxWaiters);
        if !ok { return Overloaded; }
        return Joined(inFlight[key]);
      }
      if |inFlight| >= caps.maxInFlight { return Overloaded; }
      var pending := nextFetch;
      nextFetch := nextFetch + 1;
      inFlight := inFlight[key := pending];
      return Started(pending);
    }

    /** #fetchAndCache after its fetch returned a document. */
    method FetchAndCache(key: string, result: Fetch)
      requires Valid()
      modifies cache
      ensures Valid()
      ensures Contents() == old(Contents()).(cache := Store(old(Contents()).cache, caps.maxEntries, key, result, caps.ttlSeconds))
      ensures result.t1.Some? && FreshAt(result, caps.ttlSeconds, result.t1.value) && GoodReading(old(cache.lastObservedNowMs), result.t1) ==>
        exists e :: e in cache.entries && e.key == key && e.value == result
      ensures !(result.t1.Some? && FreshAt(result, caps.ttlSeconds, result.t1.value)) ==> Contents() == old(Contents())
    {
      StoredExactlyWhenFreshOnReceipt(result, caps.ttlSeconds);
      FreshIsHeld(cache.Contents(), caps.maxEntries, key, result, caps.ttlSeconds);
      hide FreshAt, ComputeCacheExpiryMs;
      var expiresAtMs := ComputeCacheExpiryMs(result, caps.ttlSeconds);
      if expiresAtMs.Some? {
        cache.Set(key, result, expiresAtMs, result.t1);
      }
    }

    /** The leader's finally block. */
    method LeaderSettles(key: string)
      requires Valid()
      modifies this
      ensures Valid() && Contents() == old(Contents()).(inFlight := old(inFlight) - {key})
    {
      inFlight := inFlight - {key};
    }

    /** A follower's finally block. */
    method FollowerSettles(key: string)
      requires Valid()
      modifies waiters
      ensures Valid() && Contents() == old(Contents()).(counts := Released(old(waiters.counts), key))
    {
      waiters.Release(key);
    }
  }

  // -------------------------------------------------------------------- the protocol

  datatype Caller = Caller(key: string, fetch: nat, follower: bool)

  datatype Running = Running(key: string, t0: Option<int>)

  /** How the fetch of a client id ended; None models a rejected promise. */
  datatype Settlement = Settlement(key: string, result: Option<Fetch>)

  type Outstanding = map<nat, Running>
  type Settled = map<nat, Settlement>
  type Callers = map<nat, Caller>

  /** The resolver, its outstanding fetches, the settled results, and the callers that await one. */
  datatype Protocol = Protocol(
    resolver: Resolver,
    running: Outstanding,
    settled: Settled,
    callers: Callers,
    nextCaller: nat)

  /** A document and its header fields. */
  datatype Response = Response(document: string, view: Option<CacheView>)

  /** Steps of any number of interleaved callers. Arriving reads the clock twice, ending a fetch once. */
  datatype Event =
    | Arrive(key: string, now: Option<int>, t0: Option<int>)
    | FetchEnds(fetch: nat, response: Option<Response>, t1: Option<int>)
    | Resume(caller: nat)

  predicate Enabled(p: Protocol, event: Event) {
    match event
    case Arrive(_, _, _) => true
    case FetchEnds(fetch, _, _) => fetch in p.running
    case Resume(caller) => caller in p.callers && p.callers[caller].fetch in p.settled
  }

  function DoArrive(p: Protocol, caps: Caps, key: string, now: Option<int>, t0: Option<int>): Protocol {
    var (resolver, begun) := Begin(p.resolver, caps, key, now);
    var p1 := p.(resolver := resolver);
    match begun
    case Joined(number) =>
      p1.(callers := p.callers[p.nextCaller := Caller(key, number, true)], nextCaller := p.nextCaller + 1)
    case Started(number) =>
      p1.(callers := p.callers[p.nextCaller := Caller(key, number, false)], nextCaller := p.nextCaller + 1,
          running := p.running[number := Running(key, t0)])
    case _ => p1
  }

  function DoFetchEnds(p: Protocol, caps: Caps, fetch: nat, response: Option<Response>, t1: Option<int>): Protocol
    requires fetch in p.running
  {
    var running := p.running[fetch];
    var result := if response.None? then None else Some(Fetch(response.value.document, response.value.view, running.t0, t1));
    var cache := if result.None? then p.resolver.cache
                 else Store(p.resolver.cache, caps.maxEntries, running.key, result.value, caps.ttlSeconds);
    p.(resolver := p.resolver.(cache := cache), running := p.running - {fetch}, settled := p.settled[fetch := Settlement(running.key, result)])
  }

  function DoResume(p: Protocol, caller: nat): Protocol
    requires caller in p.callers
  {
    var c, r := p.callers[caller], p.resolver;
    p.(callers := p.callers - {caller},
       resolver := if c.follower then r.(counts := Released(r.counts, c.key)) else r.(inFlight := r.inFlight - {c.key}))
  }

  function Next(p: Protocol, caps: Caps, event: Event): Protocol
    requires Enabled(p, event)
  {
    match event
    case Arrive(key, now, t0) => DoArrive(p, caps, key, now, t0)
    case FetchEnds(fetch, response, t1) => DoFetchEnds(p, caps, fetch, response, t1)
    case Resume(caller) => DoResume(p, caller)
  }

  function Initial(): Protocol {
    Protocol(Resolver(Empty(), map[], map[], 0), map[], map[], map[], 0)
  }

  /** The state after an interleaving; None when one of its steps was not possible. */
  function After(caps: Caps, events: seq<Event>): Option<Protocol> {
    if events == [] then Some(Initial())
    else
      var before := After(caps, events[..|events| - 1]);
      var last := events[|events| - 1];
      if before.None? || !Enabled(before.value, last) then None else Some(Next(before.value, caps, last))
  }

  // ------------------------------------------------------------------- the invariant

  /** Callers parked as followers of a client id. */
  function Followers(callers: Callers, key: string): set<nat> {
    set c | c in callers && callers[c].follower && callers[c].key == key
  }

  predicate AwaitableBy(fetch: nat, key: string, running: Outstanding, settled: Settled) {
    (fetch in settled && settled[fetch].key == key) || (fetch in running && running[fetch].key == key)
  }

  /** Fetches: the outstanding ones are registered under their own client id. */
  ghost predicate FetchesRegistered(running: Outstanding, settled: Settled, inFlight: Registry, next: nat) {
    && (forall n :: n in running ==> n < next && running[n].key in inFlight && inFlight[running[n].key] == n)
    && (forall n :: n in settled ==> n < next && n !in running)
    && (forall key :: key in inFlight ==> inFlight[key] < next && AwaitableBy(inFlight[key], key, running, settled))
    && (forall k, l :: k in inFlight && l in inFlight && inFlight[k] == inFlight[l] ==> k == l)
  }

  /** Callers: everyone awaits a fetch of their own client id, and each registration has its one leader. */
  ghost predicate CallersRegistered(callers: Callers, running: Outstanding, settled: Settled,
                                    inFlight: Registry, next: nat)
  {
    && (forall c :: c in callers ==> c < next && AwaitableBy(callers[c].fetch, callers[c].key, running, settled))
    && (forall c :: c in callers && !callers[c].follower ==> callers[c].key in inFlight && inFlight[callers[c].key] == callers[c].fetch)
    && (forall c, d :: c in callers && d in callers && !callers[c].follower && !callers[d].follower && callers[c].key == callers[d].key ==> c == d)
    && (forall key :: key in inFlight ==> exists c :: c in callers && !callers[c].follower && callers[c].key == key)
  }

  /** Counts: each is the number of parked followers of its id, and zero is never stored. */
  ghost predicate CountsAreFollowers(counts: Counts, callers: Callers, max: nat) {
    && (forall key :: CountOf(counts, key) == |Followers(callers, key)| <= max)
    && (forall key :: key in counts ==> counts[key] > 0)
  }

  /** Every cached document came from a fetch of the id it is held under. */
  ghost predicate Sourced(entries: seq<Entry<Fetch>>, settled: Settled) {
    forall e :: e in entries ==> exists n :: n in settled && settled[n] == Settlement(e.key, Some(e.value))
  }

  ghost predicate Inv(p: Protocol, caps: Caps) {
    && FetchesRegistered(p.running, p.settled, p.resolver.inFlight, p.resolver.nextFetch)
    && CallersRegistered(p.callers, p.running, p.settled, p.resolver.inFlight, p.nextCaller)
    && CountsAreFollowers(p.resolver.counts, p.callers, caps.maxWaiters)
    && |p.resolver.inFlight| <= caps.maxInFlight
    && UniqueKeys(p.resolver.cache.entries)
    && Honest(p.resolver.cache, caps.ttlSeconds)
    && Sourced(p.resolver.cache.entries, p.settled)
  }

  lemma StartKeepsFetches(running: Outstanding, settled: Settled, inFlight: Registry, next: nat, key: string, t0: Option<int>)
    requires FetchesRegistered(running, settled, inFlight, next) && key !in inFlight
    ensures FetchesRegistered(running[next := Running(key, t0)], settled, inFlight[key := next], next + 1)
  {
  }

  lemma EndKeepsFetches(running: Outstanding, settled: Settled, inFlight: Registry, next: nat, fetch: nat, result: Option<Fetch>)
    requires FetchesRegistered(running, settled, inFlight, next) && fetch in running
    ensures FetchesRegistered(running - {fetch}, settled[fetch := Settlement(running[fetch].key, result)], inFlight, next)
  {
  }

  lemma SettleKeepsFetches(running: Outstanding, settled: Settled, inFlight: Registry, next: nat, key: string)
    requires FetchesRegistered(running, settled, inFlight, next) && key in inFlight && inFlight[key] in settled
    ensures FetchesRegistered(running, settled, inFlight - {key}, next)
  {
  }

  lemma ParkKeepsCallers(callers: Callers, running: Outstanding, settled: Settled, inFlight: Registry, next: nat, key: string)
    requires CallersRegistered(callers, running, settled, inFlight, next)
    requires key in inFlight && AwaitableBy(inFlight[key], key, running, settled)
    ensures CallersRegistered(callers[next := Caller(key, inFlight[key], true)], running, settled, inFlight, next + 1)
  {
    var callers' := callers[next := Caller(key, inFlight[key], true)];
    forall k | k in inFlight ensures exists c :: c in callers' && !callers'[c].follower && callers'[c].key == k {
      var c :| c in callers && !callers[c].follower && callers[c].key == k;
      assert c in callers' && callers'[c] == callers[c];
    }
  }

  lemma StartKeepsCallers(callers: Callers, running: Outstanding, settled: Settled, inFlight: Registry, next: nat,
                          key: string, t0: Option<int>, fetch: nat)
    requires CallersRegistered(callers, running, settled, inFlight, next)
    requires key !in inFlight && fetch !in running
    ensures CallersRegistered(callers[next := Caller(key, fetch, false)], running[fetch := Running(key, t0)], settled, inFlight[key := fetch], next + 1)
  {
    var callers', inFlight' := callers[next := Caller(key, fetch, false)], inFlight[key := fetch];
    assert next in callers' && callers'[next].key == key;
    forall k | k in inFlight' ensures exists c :: c in callers' && !callers'[c].follower && callers'[c].key == k {
      if k != key {
        var c :| c in callers && !callers[c].follower && callers[c].key == k;
        assert c in callers' && callers'[c] == callers[c];
      }
    }
  }

  lemma EndKeepsCallers(callers: Callers, running: Outstanding, settled: Settled, inFlight: Registry, next: nat,
                        fetch: nat, result: Option<Fetch>)
    requires CallersRegistered(callers, running, settled, inFlight, next) && fetch in running && fetch !in settled
    ensures CallersRegistered(callers, running - {fetch}, settled[fetch := Settlement(running[fetch].key, result)], inFlight, next)
  {
  }

  lemma FollowerKeepsCallers(callers: Callers, running: Outstanding, settled: Settled, inFlight: Registry, next: nat, caller: nat)
    requires CallersRegistered(callers, running, settled, inFlight, next) && caller in callers && callers[caller].follower
    ensures CallersRegistered(callers - {caller}, running, settled, inFlight, next)
  {
    var callers' := callers - {caller};
    forall k | k in inFlight ensures exists c :: c in callers' && !callers'[c].follower && callers'[c].key == k {
      var c :| c in callers && !callers[c].follower && callers[c].key == k;
      assert c in callers' && callers'[c] == callers[c];
    }
  }

  lemma LeaderKeepsCallers(callers: Callers, running: Outstanding, settled: Settled, inFlight: Registry, next: nat, caller: nat)
    requires CallersRegistered(callers, running, settled, inFlight, next) && caller in callers && !callers[caller].follower
    ensures CallersRegistered(callers - {caller}, running, settled, inFlight - {callers[caller].key}, next)
  {
    var callers', inFlight' := callers - {caller}, inFlight - {callers[caller].key};
    forall k | k in inFlight' ensures exists c :: c in callers' && !callers'[c].follower && callers'[c].key == k {
      var c :| c in callers && !callers[c].follower && callers[c].key == k;
      assert c in callers' && callers'[c] == callers[c];
    }
  }

  /** Parking one more caller under a number not yet used. */
  lemma ParkFollowers(callers: Callers, next: nat, caller: Caller, key: string)
    requires next !in callers
    ensures Followers(callers[next := caller], key) ==
      Followers(callers, key) + if caller.follower && caller.key == key then {next} else {}
    ensures next !in Followers(callers, key)
  {
  }

  lemma ParkKeepsCounts(counts: Counts, callers: Callers, max: nat, next: nat, caller: Caller)
    requires CountsAreFollowers(counts, callers, max) && next !in callers
    requires caller.follower ==> Acquired(counts, caller.key, max).1
    ensures CountsAreFollowers(if caller.follower then Acquired(counts, caller.key, max).0 else counts, callers[next := caller], max)
  {
    var counts' := if caller.follower then Acquired(counts, caller.key, max).0 else counts;
    forall key ensures CountOf(counts', key) == |Followers(callers[next := caller], key)| <= max {
      ParkFollowers(callers, next, caller, key);
    }
  }

  lemma LeaveKeepsCounts(counts: Counts, callers: Callers, max: nat, caller: nat)
    requires CountsAreFollowers(counts, callers, max) && caller in callers
    ensures CountsAreFollowers(if callers[caller].follower then Released(counts, callers[caller].key) else counts, callers - {caller}, max)
  {
    var c := callers[caller];
    var counts' := if c.follower then Released(counts, c.key) else counts;
    assert c.follower ==> caller in Followers(callers, c.key);
    forall key ensures CountOf(counts', key) == |Followers(callers - {caller}, key)| <= max {
      assert CountOf(counts, key) == |Followers(callers, key)|;
      assert Followers(callers - {caller}, key) == Followers(callers, key) - if c.follower && c.key == key then {caller} else {};
    }
  }

  lemma LookupKeepsSourced(c: Cache<Fetch>, settled: Settled, key: string, now: Option<int>)
    requires Sourced(c.entries, settled) && UniqueKeys(c.entries)
    ensures Sourced(DoGet(c, key, now).0.entries, settled)
  {
    hide UniqueKeys, Has;
    WithoutKeeps(c.entries, key);
    var rest, found := Without(c.entries, key), Find(c.entries, key);
    if found.Some? {
      forall e | e in rest + [found.value] ensures e in c.entries { assert e in rest || e == found.value; }
    }
  }

  lemma StoreKeepsSourced(c: Cache<Fetch>, settled: Settled, caps: Caps, fetch: nat, key: string, f: Fetch)
    requires Sourced(c.entries, settled) && UniqueKeys(c.entries) && fetch !in settled
    ensures Sourced(Store(c, caps.maxEntries, key, f, caps.ttlSeconds).entries, settled[fetch := Settlement(key, Some(f))])
  {
    hide UniqueKeys, Has, ComputeCacheExpiryMs;
    WithoutKeeps(c.entries, key);
    var settled' := settled[fetch := Settlement(key, Some(f))];
    MoreSettled(c.entries, settled, fetch, settled'[fetch]);
    var rest, n := Without(c.entries, key), if caps.maxEntries <= 0 then 0 else caps.maxEntries - 1;
    NewestArePart(rest, n);
    forall e | e in Newest(rest, n) ensures e in c.entries { assert e in rest; }
    assert fetch in settled' && settled'[fetch] == Settlement(key, Some(f));
  }

  lemma MoreSettled(entries: seq<Entry<Fetch>>, settled: Settled, fetch: nat, settlement: Settlement)
    requires Sourced(entries, settled) && fetch !in settled
    ensures Sourced(entries, settled[fetch := settlement])
  {
    var settled' := settled[fetch := settlement];
    forall e | e in entries ensures exists n :: n in settled' && settled'[n] == Settlement(e.key, Some(e.value)) {
      var n :| n in settled && settled[n] == Settlement(e.key, Some(e.value));
      assert n in settled' && settled'[n] == settled[n];
    }
  }

  // ---------------------------------------------------------------- steps keep it

  lemma JoinKeepsInv(p: Protocol, caps: Caps, key: string, cache: Cache<Fetch>)
    requires Inv(p, caps) && UniqueKeys(cache.entries) && Honest(cache, caps.ttlSeconds) && Sourced(cache.entries, p.settled)
    requires key in p.resolver.inFlight && Acquired(p.resolver.counts, key, caps.maxWaiters).1
    ensures var r := p.resolver.(cache := cache, counts := Acquired(p.resolver.counts, key, caps.maxWaiters).0);
      Inv(p.(resolver := r, callers := p.callers[p.nextCaller := Caller(key, p.resolver.inFlight[key], true)], nextCaller := p.nextCaller + 1), caps)
  {
    hide CountsAreFollowers, UniqueKeys, Honest, Sourced, Acquired;
    var r := p.resolver;
    assert p.nextCaller !in p.callers;
    assert AwaitableBy(r.inFlight[key], key, p.running, p.settled);
    hide FetchesRegistered, CallersRegistered;
    ParkKeepsCallers(p.callers, p.running, p.settled, r.inFlight, p.nextCaller, key);
    ParkKeepsCounts(r.counts, p.callers, caps.maxWaiters, p.nextCaller, Caller(key, r.inFlight[key], true));
  }

  lemma StartKeepsInv(p: Protocol, caps: Caps, key: string, cache: Cache<Fetch>, t0: Option<int>)
    requires Inv(p, caps) && UniqueKeys(cache.entries) && Honest(cache, caps.ttlSeconds) && Sourced(cache.entries, p.settled)
    requires key !in p.resolver.inFlight && |p.resolver.inFlight| < caps.maxInFlight
    ensures var n := p.resolver.nextFetch;
      var r := p.resolver.(cache := cache, inFlight := p.resolver.inFlight[key := n], nextFetch := n + 1);
      Inv(p.(resolver := r, running := p.running[n := Running(key, t0)],
             callers := p.callers[p.nextCaller := Caller(key, n, false)], nextCaller := p.nextCaller + 1), caps)
  {
    var r := p.resolver;
    assert p.nextCaller !in p.callers && r.nextFetch !in p.running;
    hide FetchesRegistered, CallersRegistered, CountsAreFollowers, UniqueKeys, Honest, Sourced;
    StartKeepsFetches(p.running, p.settled, r.inFlight, r.nextFetch, key, t0);
    StartKeepsCallers(p.callers, p.running, p.settled, r.inFlight, p.nextCaller, key, t0, r.nextFetch);
    ParkKeepsCounts(r.counts, p.callers, caps.maxWaiters, p.nextCaller, Caller(key, r.nextFetch, false));
  }

  lemma LookupKeepsInv(p: Protocol, caps: Caps, key: string, now: Option<int>)
    requires Inv(p, caps)
    ensures var cache := DoGet(p.resolver.cache, key, now).0;
      UniqueKeys(cache.entries) && Honest(cache, caps.ttlSeconds) && Sourced(cache.entries, p.settled) && Inv(p.(resolver := p.resolver.(cache := cache)), caps)
  {
    var c := p.resolver.cache;
    LookupKeepsHonest(c, caps.ttlSeconds, key, now);
    LookupKeepsSourced(c, p.settled, key, now);
    StepKeepsShape(c, 0, Call.Get(key, now));
    hide FetchesRegistered, CallersRegistered, CountsAreFollowers, UniqueKeys, Honest, Sourced, DoGet;
  }

  lemma ArriveKeepsInv(p: Protocol, caps: Caps, key: string, now: Option<int>, t0: Option<int>)
    requires Inv(p, caps)
    ensures Inv(DoArrive(p, caps, key, now, t0), caps)
  {
    hide Inv, UniqueKeys, Honest, Sourced, DoGet, Acquired;
    var r, cache := p.resolver, DoGet(p.resolver.cache, key, now).0;
    LookupKeepsInv(p, caps, key, now);
    match Begin(r, caps, key, now).1
    case Joined(number) => JoinKeepsInv(p, caps, key, cache);
    case Started(number) => StartKeepsInv(p, caps, key, cache, t0);
    case _ =>
  }

  /** What holds of the cache alone. */
  ghost predicate GoodCache(c: Cache<Fetch>, settled: Settled, caps: Caps) {
    UniqueKeys(c.entries) && Honest(c, caps.ttlSeconds) && Sourced(c.entries, settled)
  }

  lemma StoreKeepsGoodCache(c: Cache<Fetch>, settled: Settled, caps: Caps, fetch: nat, key: string, f: Fetch)
    requires GoodCache(c, settled, caps) && fetch !in settled
    ensures GoodCache(Store(c, caps.maxEntries, key, f, caps.ttlSeconds), settled[fetch := Settlement(key, Some(f))], caps)
  {
    StoreKeepsHonest(c, caps.maxEntries, caps.ttlSeconds, key, f);
    StoreKeepsSourced(c, settled, caps, fetch, key, f);
    StepKeepsShape(c, caps.maxEntries, Call.Set(key, f, ComputeCacheExpiryMs(f, caps.ttlSeconds), f.t1));
    hide UniqueKeys, Honest, Sourced, ComputeCacheExpiryMs;
  }

  lemma FetchEndsKeepsInv(p: Protocol, caps: Caps, fetch: nat, response: Option<Response>, t1: Option<int>)
    requires Inv(p, caps) && fetch in p.running
    ensures Inv(DoFetchEnds(p, caps, fetch, response, t1), caps)
  {
    assert fetch !in p.settled;
    hide FetchesRegistered, CallersRegistered, CountsAreFollowers, UniqueKeys, Honest, Sourced, Store;
    var r, q := p.resolver, DoFetchEnds(p, caps, fetch, response, t1);
    EndKeepsFetches(p.running, p.settled, r.inFlight, r.nextFetch, fetch, q.settled[fetch].result);
    EndKeepsCallers(p.callers, p.running, p.settled, r.inFlight, p.nextCaller, fetch, q.settled[fetch].result);
    if response.Some? {
      StoreKeepsGoodCache(r.cache, p.settled, caps, fetch, p.running[fetch].key, q.settled[fetch].result.value);
    } else {
      MoreSettled(r.cache.entries, p.settled, fetch, q.settled[fetch]);
    }
  }

  lemma ResumeKeepsInv(p: Protocol, caps: Caps, caller: nat)
    requires Inv(p, caps) && caller in p.callers && p.callers[caller].fetch in p.settled
    ensures Inv(DoResume(p, caller), caps)
  {
    var r, c := p.resolver, p.callers[caller];
    LeaveKeepsCounts(r.counts, p.callers, caps.maxWaiters, caller);
    hide FetchesRegistered, CountsAreFollowers, UniqueKeys, Honest, Sourced;
    if c.follower {
      FollowerKeepsCallers(p.callers, p.running, p.settled, r.inFlight, p.nextCaller, caller);
    } else {
      LeaderKeepsCallers(p.callers, p.running, p.settled, r.inFlight, p.nextCaller, caller);
      SettleKeepsFetches(p.running, p.settled, r.inFlight, r.nextFetch, c.key);
      assert |r.inFlight - {c.key}| <= |r.inFlight| by {
        assert (r.inFlight - {c.key}).Keys == r.inFlight.Keys - {c.key};
      }
    }
  }

  lemma {:induction false} InvAlways(caps: Caps, events: seq<Event>)
    requires After(caps, events).Some?
    ensures Inv(After(caps, events).value, caps)
  {
    if events == [] {
      assert forall key :: Followers(map[], key) == {};
    } else {
      InvAlways(caps, events[..|events| - 1]);
      hide Inv, DoArrive, DoFetchEnds, DoResume;
      var p := After(caps, events[..|events| - 1]).value;
      match events[|events| - 1]
      case Arrive(key, now, t0) => ArriveKeepsInv(p, caps, key, now, t0);
      case FetchEnds(fetch, response, t1) => FetchEndsKeepsInv(p, caps, fetch, response, t1);
      case Resume(caller) => ResumeKeepsInv(p, caps, caller);
    }
  }

  // ------------------------------------------------------------------ main results

  lemma {:induction false} RunningFits(fetches: set<nat>, running: Outstanding, inFlight: Registry)
    requires fetches <= running.Keys
    requires forall n :: n in fetches ==> running[n].key in inFlight && inFlight[running[n].key] == n
    ensures |fetches| <= |inFlight|
  {
    if fetches != {} {
      var n :| n in fetches;
      var key := running[n].key;
      RunningFits(fetches - {n}, running, inFlight - {key});
      assert (inFlight - {key}).Keys == inFlight.Keys - {key};
    }
  }

  /** In every interleaving: one outstanding fetch per client id, at most maxInFlight in all, and followers within their cap. */
  lemma OneFetchPerClient(caps: Caps, events: seq<Event>)
    requires After(caps, events).Some?
    ensures var p := After(caps, events).value;
      && (forall m, n :: m in p.running && n in p.running && p.running[m].key == p.running[n].key ==> m == n)
      && |p.running| <= caps.maxInFlight
      && (forall key :: |Followers(p.callers, key)| <= caps.maxWaiters)
  {
    InvAlways(caps, events);
    var p := After(caps, events).value;
    hide After, CallersRegistered, UniqueKeys, Honest, Sourced;
    RunningFits(p.running.Keys, p.running, p.resolver.inFlight);
    assert |p.running| == |p.running.Keys|;
    forall key ensures |Followers(p.callers, key)| <= caps.maxWaiters {
      assert CountOf(p.resolver.counts, key) == |Followers(p.callers, key)|;
    }
  }

  function WaitingOn(callers: Callers, fetches: set<nat>): set<nat> {
    set c | c in callers && callers[c].fetch in fetches
  }

  function Leaders(callers: Callers, key: string): set<nat> {
    set c | c in callers && !callers[c].follower && callers[c].key == key
  }

  lemma WaitingOnOne(p: Protocol, caps: Caps, n: nat)
    requires Inv(p, caps) && n in p.running
    ensures |WaitingOn(p.callers, {n})| <= caps.maxWaiters + 1
  {
    var key := p.running[n].key;
    assert |Leaders(p.callers, key)| <= 1 by {
      hide UniqueKeys, Honest, Sourced, FetchesRegistered, CountsAreFollowers;
      if c :| c in Leaders(p.callers, key) {
        assert Leaders(p.callers, key) == {c};
      }
    }
    assert WaitingOn(p.callers, {n}) <= Followers(p.callers, key) + Leaders(p.callers, key) by {
      hide UniqueKeys, Honest, Sourced, CountsAreFollowers;
      forall c | c in WaitingOn(p.callers, {n}) ensures p.callers[c].key == key {
        assert AwaitableBy(p.callers[c].fetch, p.callers[c].key, p.running, p.settled);
      }
    }
    hide UniqueKeys, Honest, Sourced, CallersRegistered, FetchesRegistered;
    assert CountOf(p.resolver.counts, key) == |Followers(p.callers, key)|;
    Subset(WaitingOn(p.callers, {n}), Followers(p.callers, key) + Leaders(p.callers, key));
  }

  lemma {:induction false} WaitingOnMany(p: Protocol, caps: Caps, fetches: set<nat>)
    requires Inv(p, caps) && fetches <= p.running.Keys
    ensures |WaitingOn(p.callers, fetches)| <= |fetches| * (caps.maxWaiters + 1)
  {
    hide Inv;
    if fetches == {} {
      assert WaitingOn(p.callers, fetches) == {};
    } else {
      var n :| n in fetches;
      WaitingOnOne(p, caps, n);
      WaitingOnMany(p, caps, fetches - {n});
      assert WaitingOn(p.callers, fetches) == WaitingOn(p.callers, fetches - {n}) + WaitingOn(p.callers, {n});
      assert |fetches - {n}| == |fetches| - 1;
    }
  }

  lemma BoundInState(p: Protocol, caps: Caps)
    requires Inv(p, caps) && |p.running| <= caps.maxInFlight
    ensures |WaitingOn(p.callers, p.running.Keys)| <= caps.maxInFlight * (caps.maxWaiters + 1)
  {
    hide Inv;
    WaitingOnMany(p, caps, p.running.Keys);
    var n, w := |p.running.Keys|, caps.maxWaiters + 1;
    assert n == |p.running|;
    assert (caps.maxInFlight - n) * w >= 0;
    assert caps.maxInFlight * w == (caps.maxInFlight - n) * w + n * w;
  }

  /** Callers waiting on outstanding fetches never exceed maxInFlight x (maxWaiters + 1). */
  lemma WaitersAreBounded(caps: Caps, events: seq<Event>)
    requires After(caps, events).Some?
    ensures var p := After(caps, events).value;
      |WaitingOn(p.callers, p.running.Keys)| <= caps.maxInFlight * (caps.maxWaiters + 1)
  {
    hide Inv, After, WaitingOn;
    InvAlways(caps, events);
    OneFetchPerClient(caps, events);
    BoundInState(After(caps, events).value, caps);
  }

  /** A leader that settles removes the registration of its own fetch and no other. */
  lemma SettleRemovesOnlyItsOwn(caps: Caps, events: seq<Event>, caller: nat)
    requires After(caps, events).Some?
    requires caller in After(caps, events).value.callers && After(caps, events).value.callers[caller].fetch in After(caps, events).value.settled
    ensures var p := After(caps, events).value;
      var c, before, later := p.callers[caller], p.resolver.inFlight, DoResume(p, caller).resolver.inFlight;
      forall key :: key in before && before[key] != c.fetch ==> key in later && later[key] == before[key]
    ensures var p := After(caps, events).value;
      !p.callers[caller].follower ==> p.callers[caller].fetch !in DoResume(p, caller).resolver.inFlight.Values
  {
    InvAlways(caps, events);
    var p := After(caps, events).value;
  }

  /** A caller that resumes gets the outcome of a fetch of its own client id. */
  lemma CallersGetTheirOwn(caps: Caps, events: seq<Event>, caller: nat)
    requires After(caps, events).Some? && Enabled(After(caps, events).value, Resume(caller))
    ensures var p := After(caps, events).value;
      p.settled[p.callers[caller].fetch].key == p.callers[caller].key
  {
    InvAlways(caps, events);
    hide After;
    var p := After(caps, events).value;
    assert AwaitableBy(p.callers[caller].fetch, p.callers[caller].key, p.running, p.settled);
  }

  /** A caller is refused exactly when the cache has nothing fresh for it and its fetch has its full number of
      followers, or when it has no fetch and the full number of fetches is registered. */
  lemma RefusedExactlyWhenFull(caps: Caps, events: seq<Event>, key: string, now: Option<int>)
    requires After(caps, events).Some?
    ensures var p := After(caps, events).value;
      Begin(p.resolver, caps, key, now).1 == Overloaded <==>
        && DoGet(p.resolver.cache, key, now).1.None?
        && (if key in p.resolver.inFlight then |Followers(p.callers, key)| == caps.maxWaiters
            else |p.resolver.inFlight| == caps.maxInFlight)
  {
    InvAlways(caps, events);
    hide After, FetchesRegistered, CallersRegistered, UniqueKeys, Honest, Sourced, DoGet;
    var p := After(caps, events).value;
    assert CountOf(p.resolver.counts, key) == |Followers(p.callers, key)|;
  }

  /** Once nobody waits any more, no registration, no count and no fetch is left over. */
  lemma NothingLeaks(caps: Caps, events: seq<Event>)
    requires After(caps, events).Some? && After(caps, events).value.callers == map[]
    ensures var p := After(caps, events).value;
      p.resolver.inFlight == map[] && p.resolver.counts == map[] && p.running == map[]
  {
    InvAlways(caps, events);
    hide Inv, After;
    NobodyLeft(After(caps, events).value, caps);
  }

  lemma NobodyLeft(p: Protocol, caps: Caps)
    requires Inv(p, caps) && p.callers == map[]
    ensures p.resolver.inFlight == map[] && p.resolver.counts == map[] && p.running == map[]
  {
    hide UniqueKeys, Honest, Sourced;
    assert p.resolver.inFlight == map[] by { hide FetchesRegistered, CountsAreFollowers; }
    hide FetchesRegistered, CallersRegistered;
    assert p.running.Keys == {} by {
      hide CountsAreFollowers;
      if n :| n in p.running {
        RunningIsRegistered(p.running, p.settled, p.resolver.inFlight, p.resolver.nextFetch, n);
      }
    }
    assert p.resolver.counts.Keys == {} by {
      hide CountsAreFollowers;
      if key :| key in p.resolver.counts {
        CountedIsParked(p.resolver.counts, p.callers, caps.maxWaiters, key);
      }
    }
  }

  lemma RunningIsRegistered(running: Outstanding, settled: Settled, inFlight: Registry, next: nat, n: nat)
    requires FetchesRegistered(running, settled, inFlight, next) && n in running
    ensures inFlight != map[]
  {
    assert running[n].key in inFlight;
  }

  lemma CountedIsParked(counts: Counts, callers: Callers, max: nat, key: string)
    requires CountsAreFollowers(counts, callers, max) && key in counts
    ensures callers != map[]
  {
    assert CountOf(counts, key) == |Followers(callers, key)|;
    var c :| c in Followers(callers, key);
  }

  /** An arriving caller is served without a fetch exactly while the document held under its own id is fresh. */
  lemma ServedFromCache(caps: Caps, events: seq<Event>, key: string, now: Option<int>, f: Fetch)
    requires After(caps, events).Some?
    ensures var c := After(caps, events).value.resolver.cache;
      Begin(After(caps, events).value.resolver, caps, key, now).1 == Hit(f) <==>
        && GoodReading(c.lastObserved, now)
        && (exists e :: e in c.entries && e.key == key && e.value == f)
        && FreshAt(f, caps.ttlSeconds, now.value)
    ensures var p := After(caps, events).value;
      Begin(p.resolver, caps, key, now).1 == Hit(f) ==> exists n :: n in p.settled && p.settled[n] == Settlement(key, Some(f))
  {
    InvAlways(caps, events);
    hide FreshAt, After;
    var p := After(caps, events).value;
    ServedExactlyWhileFresh(p.resolver.cache, caps.ttlSeconds, key, now, f);
    hide Honest, DoGet;
    if Begin(p.resolver, caps, key, now).1 == Hit(f) {
      var e :| e in p.resolver.cache.entries && e.key == key && e.value == f;
    }
  }
}
