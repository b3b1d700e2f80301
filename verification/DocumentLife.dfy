/** What becomes of a fetched document: as long as it is fresh, the clock goes forward and few enough other documents are
    used, everyone who asks for it is served without a fetch. */
module DocumentLife {
  import opened Prelude
  import opened SuccessCache
  import opened Freshness
  import opened SingleFlight

  /** The result of a fetch that ends now. */
  function ResultOf(p: Protocol, fetch: nat, response: Response, t1: Option<int>): Fetch
    requires fetch in p.running
  {
    Fetch(response.document, response.view, p.running[fetch].t0, t1)
  }

  /** A fetch ends with a document that is fresh on receipt. */
  predicate BringsFresh(p: Protocol, caps: Caps, e: Event) {
    && e.FetchEnds? && e.fetch in p.running && e.response.Some? && e.t1.Some?
    && FreshAt(ResultOf(p, e.fetch, e.response.value, e.t1), caps.ttlSeconds, e.t1.value)
  }

  /** The client id whose document the event serves from the cache or brings fresh. */
  function Uses(p: Protocol, caps: Caps, e: Event): set<string> {
    if e.Arrive? && Begin(p.resolver, caps, e.key, e.now).1.Hit? then {e.key}
    else if BringsFresh(p, caps, e) then {p.running[e.fetch].key}
    else {}
  }

  function UsedIds(caps: Caps, p: Protocol, events: seq<Event>): set<string>
    decreases |events|
  {
    if events == [] || !Enabled(p, events[0]) then {}
    else Uses(p, caps, events[0]) + UsedIds(caps, SingleFlight.Next(p, caps, events[0]), events[1..])
  }

  /** The reading the event makes for the cache, or the last one where it makes none. */
  function ReadingOf(p: Protocol, caps: Caps, e: Event, last: int): Option<int> {
    if e.Arrive? then e.now else if BringsFresh(p, caps, e) then e.t1 else Some(last)
  }

  /** The events are possible one after the other, and the readings made for the cache go forward from `last` up to `n`. */
  predicate Forward(caps: Caps, p: Protocol, events: seq<Event>, last: int, n: int)
    decreases |events|
  {
    if events == [] then last <= n
    else
      var e := events[0];
      && Enabled(p, e)
      && var reading := ReadingOf(p, caps, e, last);
      && reading.Some? && last <= reading.value
      && Forward(caps, SingleFlight.Next(p, caps, e), events[1..], reading.value, n)
  }

  function Onward(caps: Caps, p: Protocol, events: seq<Event>): Protocol
    decreases |events|
  {
    if events == [] || !Enabled(p, events[0]) then p else Onward(caps, SingleFlight.Next(p, caps, events[0]), events[1..])
  }

  lemma AfterOneMore(caps: Caps, events: seq<Event>, e: Event)
    requires SingleFlight.After(caps, events).Some? && Enabled(SingleFlight.After(caps, events).value, e)
    ensures SingleFlight.After(caps, events + [e]) == Some(SingleFlight.Next(SingleFlight.After(caps, events).value, caps, e))
  {
    assert (events + [e])[..|events|] == events;
  }

  lemma {:induction false} AfterOnward(caps: Caps, events: seq<Event>, later: seq<Event>, last: int, n: int)
    requires SingleFlight.After(caps, events).Some? && Forward(caps, SingleFlight.After(caps, events).value, later, last, n)
    ensures SingleFlight.After(caps, events + later) == Some(Onward(caps, SingleFlight.After(caps, events).value, later))
    decreases |later|
  {
    hide SingleFlight.Next, SingleFlight.After, Enabled, ReadingOf;
    if later == [] {
      assert events + later == events;
    } else {
      var e := later[0];
      assert events + later == (events + [e]) + later[1..];
      AfterOneMore(caps, events, e);
      var p := SingleFlight.After(caps, events).value;
      var reading := ReadingOf(p, caps, e, last);
      AfterOnward(caps, events + [e], later[1..], reading.value, n);
    }
  }

  // ------------------------------------------------------------------------- one step

  /** The document is held, only documents of `others` were used after it, and no fetch of its id is under way. */
  ghost predicate Keeps(p: Protocol, caps: Caps, entry: Entry<Fetch>, others: set<string>, last: int) {
    && Inv(p, caps) && Held(p.resolver.cache.entries, entry, others) && p.resolver.cache.lastObserved == Some(last)
    && forall m :: m in p.running ==> p.running[m].key != entry.key
  }

  lemma InvHasUniqueKeys(p: Protocol, caps: Caps)
    requires Inv(p, caps)
    ensures UniqueKeys(p.resolver.cache.entries)
  {
  }

  lemma ArrivalShape(p: Protocol, caps: Caps, key: string, now: Option<int>, t0: Option<int>)
    ensures DoArrive(p, caps, key, now, t0).resolver.cache == DoGet(p.resolver.cache, key, now).0
    ensures Begin(p.resolver, caps, key, now).1.Hit? <==> DoGet(p.resolver.cache, key, now).1.Some?
  {
    hide Acquired, DoGet;
  }

  lemma LookupReads(c: Cache<Fetch>, key: string, now: Option<int>)
    ensures DoGet(c, key, now).0.lastObserved == now
  {
  }

  lemma LookupKeeps(c: Cache<Fetch>, max: int, key: string, now: Option<int>, entry: Entry<Fetch>, others: set<string>)
    requires UniqueKeys(c.entries) && Held(c.entries, entry, others) && entry.key !in others && GoodReading(c.lastObserved, now)
    requires now.value < entry.expiresAtMs
    requires var used := if DoGet(c, key, now).1.Some? then {key} else {}; |others + used - {entry.key}| < max
    ensures var used := if DoGet(c, key, now).1.Some? then {key} else {}; Held(DoGet(c, key, now).0.entries, entry, others + used - {entry.key})
    ensures key == entry.key ==> DoGet(c, key, now).1.Some?
  {
    hide Held, UniqueKeys, DoGet;
    if key == entry.key { HeldIsServed(c, entry, others, now.value); }
    if DoGet(c, key, now).1.Some? {
      StepHolds(c, max, Call.Get(key, now), entry, others);
    } else {
      MissHolds(c, key, now, entry, others);
      assert others + {} - {entry.key} == others;
    }
  }

  lemma ArrivalKeeps(p: Protocol, caps: Caps, e: Event, entry: Entry<Fetch>, others: set<string>, last: int)
    requires Keeps(p, caps, entry, others, last) && entry.key !in others && e.Arrive?
    requires e.now.Some? && last <= e.now.value < entry.expiresAtMs
    requires |others + Uses(p, caps, e) - {entry.key}| < caps.maxEntries
    ensures Keeps(DoArrive(p, caps, e.key, e.now, e.t0), caps, entry, others + Uses(p, caps, e) - {entry.key}, e.now.value)
  {
    hide Inv, Held, UniqueKeys, DoGet, DoArrive, Begin;
    InvHasUniqueKeys(p, caps);
    ArriveKeepsInv(p, caps, e.key, e.now, e.t0);
    ArrivalShape(p, caps, e.key, e.now, e.t0);
    LookupReads(p.resolver.cache, e.key, e.now);
    LookupKeeps(p.resolver.cache, caps.maxEntries, e.key, e.now, entry, others);
    StartsOwnKey(p, caps, e.key, e.now, e.t0, entry.key);
  }

  /** An arrival for another id, or one that is served, starts no fetch of this one. */
  lemma StartsOwnKey(p: Protocol, caps: Caps, key: string, now: Option<int>, t0: Option<int>, other: string)
    requires forall m :: m in p.running ==> p.running[m].key != other
    requires key == other ==> DoGet(p.resolver.cache, key, now).1.Some?
    ensures forall m :: m in DoArrive(p, caps, key, now, t0).running ==> DoArrive(p, caps, key, now, t0).running[m].key != other
  {
    hide DoGet, Acquired;
  }

  lemma EndKeeps(p: Protocol, caps: Caps, e: Event, entry: Entry<Fetch>, others: set<string>, last: int)
    requires Keeps(p, caps, entry, others, last) && entry.key !in others && e.FetchEnds? && e.fetch in p.running
    requires BringsFresh(p, caps, e) ==> last <= e.t1.value < entry.expiresAtMs
    requires |others + Uses(p, caps, e) - {entry.key}| < caps.maxEntries
    ensures Keeps(DoFetchEnds(p, caps, e.fetch, e.response, e.t1), caps, entry, others + Uses(p, caps, e) - {entry.key},
                  if BringsFresh(p, caps, e) then e.t1.value else last)
  {
    hide Inv, Held, UniqueKeys, FreshAt, ComputeCacheExpiryMs;
    var c, key := p.resolver.cache, p.running[e.fetch].key;
    InvHasUniqueKeys(p, caps);
    FetchEndsKeepsInv(p, caps, e.fetch, e.response, e.t1);
    if e.response.Some? {
      var f := ResultOf(p, e.fetch, e.response.value, e.t1);
      FreshIsHeld(c, caps.maxEntries, key, f, caps.ttlSeconds);
      StoredExactlyWhenFreshOnReceipt(f, caps.ttlSeconds);
      if BringsFresh(p, caps, e) {
        StepHolds(c, caps.maxEntries, Call.Set(key, f, ComputeCacheExpiryMs(f, caps.ttlSeconds), e.t1), entry, others);
        assert Store(c, caps.maxEntries, key, f, caps.ttlSeconds)
          == SuccessCache.Next(c, caps.maxEntries, Call.Set(key, f, ComputeCacheExpiryMs(f, caps.ttlSeconds), e.t1));
      }
    }
    assert !BringsFresh(p, caps, e) ==> others + Uses(p, caps, e) - {entry.key} == others;
  }

  lemma ResumeKeeps(p: Protocol, caps: Caps, e: Event, entry: Entry<Fetch>, others: set<string>, last: int)
    requires Keeps(p, caps, entry, others, last) && entry.key !in others && e.Resume? && Enabled(p, e)
    ensures Keeps(DoResume(p, e.caller), caps, entry, others + Uses(p, caps, e) - {entry.key}, last)
  {
    hide Inv, Held;
    ResumeKeepsInv(p, caps, e.caller);
    assert others + Uses(p, caps, e) - {entry.key} == others;
  }

  // ------------------------------------------------------------------------- whole runs

  lemma {:induction false} RunKeeps(caps: Caps, p: Protocol, events: seq<Event>, entry: Entry<Fetch>, others: set<string>, bound: set<string>,
                                    last: int, n: int)
    requires Keeps(p, caps, entry, others, last) && entry.key !in others && Forward(caps, p, events, last, n) && n < entry.expiresAtMs
    requires others + UsedIds(caps, p, events) - {entry.key} <= bound && |bound| < caps.maxEntries
    ensures exists end: int :: end <= n && Keeps(Onward(caps, p, events), caps, entry, bound, end)
    decreases |events|
  {
    hide Keeps, FreshAt, Uses, DoArrive, DoFetchEnds, DoResume;
    if events == [] {
      KeepsMore(p, caps, entry, others, bound, last);
      assert Keeps(Onward(caps, p, events), caps, entry, bound, last);
    } else {
      var e, rest := events[0], events[1..];
      var q := SingleFlight.Next(p, caps, e);
      var reading := ReadingOf(p, caps, e, last);
      var now := others + Uses(p, caps, e) - {entry.key};
      Subset(now, bound);
      ReadingsBounded(caps, q, rest, reading.value, n);
      match e
      {
        case Arrive(_, _, _) => ArrivalKeeps(p, caps, e, entry, others, last);
        case FetchEnds(_, _, _) => EndKeeps(p, caps, e, entry, others, last);
        case Resume(_) => ResumeKeeps(p, caps, e, entry, others, last);
      }
      RunKeeps(caps, q, rest, entry, now, bound, reading.value, n);
      var end: int :| end <= n && Keeps(Onward(caps, q, rest), caps, entry, bound, end);
      assert Onward(caps, p, events) == Onward(caps, q, rest);
    }
  }

  lemma {:induction false} ReadingsBounded(caps: Caps, p: Protocol, events: seq<Event>, last: int, n: int)
    requires Forward(caps, p, events, last, n)
    ensures last <= n
    decreases |events|
  {
    hide SingleFlight.Next, ReadingOf;
    if events != [] {
      var e := events[0];
      var reading := ReadingOf(p, caps, e, last);
      ReadingsBounded(caps, SingleFlight.Next(p, caps, e), events[1..], reading.value, n);
    }
  }

  lemma KeepsMore(p: Protocol, caps: Caps, entry: Entry<Fetch>, others: set<string>, more: set<string>, last: int)
    requires Keeps(p, caps, entry, others, last) && others <= more
    ensures Keeps(p, caps, entry, more, last)
  {
    hide Inv, Held;
    HeldMore(p.resolver.cache.entries, entry, others, more);
  }

  // ----------------------------------------------------------------------------- results

  /** A result that is not fresh on receipt, a failure, or one without a clock reading leaves the held documents alone. */
  lemma StaleIsNotHeld(p: Protocol, caps: Caps, e: Event)
    requires e.FetchEnds? && e.fetch in p.running && !BringsFresh(p, caps, e)
    ensures DoFetchEnds(p, caps, e.fetch, e.response, e.t1).resolver.cache == p.resolver.cache
  {
    hide FreshAt;
    if e.response.Some? {
      FreshIsHeld(p.resolver.cache, caps.maxEntries, p.running[e.fetch].key, ResultOf(p, e.fetch, e.response.value, e.t1), caps.ttlSeconds);
    }
  }

  /** In every interleaving: after a fetch brought a document that is fresh on receipt, and then any steps in which the
      clock goes forward and fewer than maxEntries other documents are served or brought fresh, whoever arrives for it is
      served exactly that document if and only if it is still fresh. */
  lemma FetchedIsServed(caps: Caps, before: seq<Event>, end: Event, later: seq<Event>, n: int)
    requires SingleFlight.After(caps, before).Some? && BringsFresh(SingleFlight.After(caps, before).value, caps, end)
    requires GoodReading(SingleFlight.After(caps, before).value.resolver.cache.lastObserved, end.t1)
    requires var q := SingleFlight.Next(SingleFlight.After(caps, before).value, caps, end);
      && Forward(caps, q, later, end.t1.value, n)
      && |UsedIds(caps, q, later) - {SingleFlight.After(caps, before).value.running[end.fetch].key}| < caps.maxEntries
    ensures SingleFlight.After(caps, before + [end] + later).Some?
    ensures var p := SingleFlight.After(caps, before).value; var f := ResultOf(p, end.fetch, end.response.value, end.t1);
      var r := SingleFlight.After(caps, before + [end] + later).value.resolver;
      Begin(r, caps, p.running[end.fetch].key, Some(n)).1 == Hit(f) <==> FreshAt(f, caps.ttlSeconds, n)
  {
    hide Inv, FreshAt, ComputeCacheExpiryMs, Held, Forward, UsedIds, DoGet, Onward;
    var p := SingleFlight.After(caps, before).value;
    var key, f := p.running[end.fetch].key, ResultOf(p, end.fetch, end.response.value, end.t1);
    var q := SingleFlight.Next(p, caps, end);
    assert (before + [end])[..|before|] == before;
    assert SingleFlight.After(caps, before + [end]) == Some(q);
    AfterOnward(caps, before + [end], later, end.t1.value, n);
    ServedFromCache(caps, before + [end] + later, key, Some(n), f);
    if FreshAt(f, caps.ttlSeconds, n) {
      InvAlways(caps, before);
      InvAlways(caps, before + [end]);
      FreshIsHeld(p.resolver.cache, caps.maxEntries, key, f, caps.ttlSeconds);
      ReadingsBounded(caps, q, later, end.t1.value, n);
      ExpiryIsEndOfFreshness(f, caps.ttlSeconds, n);
      var entry := Entry(key, f, ComputeCacheExpiryMs(f, caps.ttlSeconds).value);
      NoOtherFetch(p, caps, end.fetch);
      var bound := UsedIds(caps, q, later) - {key};
      assert Keeps(q, caps, entry, {}, end.t1.value);
      RunKeeps(caps, q, later, entry, {}, bound, end.t1.value, n);
      var last: int :| last <= n && Keeps(Onward(caps, q, later), caps, entry, bound, last);
      InvHasUniqueKeys(Onward(caps, q, later), caps);
      HeldIsServed(Onward(caps, q, later).resolver.cache, entry, bound, n);
    }
  }

  lemma NoOtherFetch(p: Protocol, caps: Caps, fetch: nat)
    requires Inv(p, caps) && fetch in p.running
    ensures forall m :: m in p.running && p.running[m].key == p.running[fetch].key ==> m == fetch
  {
  }
}
