/** One store swept on behalf of several clocks. */
module ExpiryLifecycle {
  import opened Prelude
  import opened Clock
  import opened GrantStore
  import opened SweepInvisible
  import StoreInvariant

  /** Clocks are told apart by identity; a reading outside the canonical range counts as a failure. */
  type ClockId = nat
  type Readings = map<ClockId, int>

  predicate Readable(clocks: seq<ClockId>, now: Readings) {
    forall k :: k in clocks ==> k in now && CanonicalTime(now[k])
  }

  /** `t` is the smallest reading of the clocks. */
  predicate IsEarliest(t: int, clocks: seq<ClockId>, now: Readings)
    requires Readable(clocks, now)
  {
    && (exists k :: k in clocks && now[k] == t)
    && (forall k :: k in clocks ==> t <= now[k])
  }

  datatype StartResult = Started | AlreadyBound | Refused

  class StoreExpiryLifecycle {
    var ready: bool
    var stopped: bool
    var clocks: seq<ClockId>
    var scheduled: bool
    const collectionLagMs: nat

    constructor (ready: bool, collectionLagMs: nat)
      ensures clocks == [] && !stopped && !scheduled && this.ready == ready && this.collectionLagMs == collectionLagMs
    {
      this.ready, this.stopped, this.clocks, this.scheduled := ready, false, [], false;
      this.collectionLagMs := collectionLagMs;
    }

    /** Binds a clock once. `timerFails` says that the scheduler could not be created. */
    method Start(clock: ClockId, timerFails: bool) returns (result: StartResult)
      modifies this
      ensures stopped == old(stopped) && ready == old(ready)
      ensures result.Started? <==> !stopped && ready && clock !in old(clocks) && (old(scheduled) || !timerFails)
      ensures result.AlreadyBound? <==> !stopped && ready && clock in old(clocks)
      ensures clocks == if result.Started? then old(clocks) + [clock] else old(clocks)
      ensures scheduled == (old(scheduled) || result.Started?)
    {
      if stopped || !ready { return Refused; }
      if clock in clocks { return AlreadyBound; }
      clocks := clocks + [clock];
      if !scheduled {
        if timerFails {
          clocks := clocks[..|clocks| - 1];
          return Refused;
        }
        scheduled := true;
      }
      return Started;
    }

    method Stop()
      modifies this`stopped
      ensures stopped
    {
      stopped := true;
    }

    /** The time of the next sweep: no time at all unless every bound clock can be read. */
    method EarliestNowMs(now: Readings) returns (t: Option<int>)
      ensures t.None? <==> clocks == [] || !Readable(clocks, now)
      ensures t.Some? ==> IsEarliest(t.value + collectionLagMs, clocks, now)
    {
      if clocks == [] { return None; }
      if clocks[0] !in now || !CanonicalTime(now[clocks[0]]) { return None; }
      var earliest := now[clocks[0]];
      for i := 1 to |clocks|
        invariant Readable(clocks[..i], now) && IsEarliest(earliest, clocks[..i], now)
      {
        var k := clocks[i];
        assert clocks[..i + 1] == clocks[..i] + [k];
        if k !in now || !CanonicalTime(now[k]) { return None; }
        earliest := Min(earliest, now[k]);
      }
      assert clocks[..|clocks|] == clocks;
      return Some(earliest - collectionLagMs);
    }
  }

  // ------------------------------------------------------------- several sharers

  /** What happens to a shared store: a sharer binds its clock, which then shows `at`; a scheduled sweep runs, at a
      moment at which the bound clocks show `now`; a sharer makes a call that goes by the reading `read` of its clock,
      which shows `at` when the call reaches the store. */
  datatype Event =
    | Bind(clock: ClockId, at: int)
    | SweepRun(now: Readings, time: int)
    | CallBy(clock: ClockId, read: int, at: int, op: Op)

  /** The bound clocks, the latest reading of each, the latest sweep, and the clocks that were behind the sweeps
      when they were bound. */
  datatype Timeline = Timeline(clocks: seq<ClockId>, last: Readings, watermark: Option<int>, behind: set<ClockId>)

  /** A call presents the time it read, and a consent or flow JTI only if it was unexpired then. */
  predicate TimedBy(op: Op, read: int) {
    match op
    case CommitApproval(_, _, e, _) => read < e
    case ConsumeJti(_, e) => read < e
    case ConsumeCode(_, now, _, _) => now == read
    case Rotate(_, _, now, _, _) => now == read
    case FindGranted(q) => q.now == read
    case Sweep(_) => false
    case _ => true
  }

  /** The calls that may wait between their clock reading and the store: an approval's read of the prior grants, and
      the callback's consumption of its flow JTI. All others read the clock in the same synchronous stretch. */
  predicate MayWait(op: Op) {
    op.FindGranted? || op.ConsumeJti?
  }

  /** Each bound clock only moves forward, and a sweep goes by the earliest of them. */
  predicate Possible(t: Timeline, lag: nat, e: Event) {
    match e
    case Bind(k, at) => k !in t.clocks
    case SweepRun(now, time) =>
      && Readable(t.clocks, now) && CanonicalTime(time) && IsEarliest(time + lag, t.clocks, now)
      && (forall k :: k in t.clocks && k in t.last ==> t.last[k] <= now[k])
    case CallBy(k, read, at, op) =>
      && k in t.clocks && (k in t.last ==> t.last[k] <= at)
      && TimedBy(op, read) && read <= at && (read == at || MayWait(op))
  }

  function Advance(t: Timeline, e: Event): Timeline {
    match e
    case Bind(k, at) =>
      Timeline(t.clocks + [k], t.last[k := at], t.watermark, if AtOrAfter(t.watermark, at) then t.behind else t.behind + {k})
    case SweepRun(now, time) => t.(last := now, watermark := LaterOf(t.watermark, time))
    case CallBy(k, _, at, _) => t.(last := t.last[k := at])
  }

  /** The timeline after the events; None when one of them is not possible. */
  function Timed(t: Timeline, lag: nat, events: seq<Event>): Option<Timeline>
    decreases |events|
  {
    if events == [] then Some(t)
    else if !Possible(t, lag, events[0]) then None
    else Timed(Advance(t, events[0]), lag, events[1..])
  }

  function Beginning(): Timeline {
    Timeline([], map[], None, {})
  }

  /** The store calls of the events. */
  function Calls(events: seq<Event>): (ops: seq<Op>) {
    if events == [] then []
    else CallOf(events[0]) + Calls(events[1..])
  }

  function CallOf(e: Event): seq<Op> {
    match e
    case Bind(_, _) => []
    case SweepRun(_, time) => [Sweep(time)]
    case CallBy(_, _, _, op) => [op]
  }

  /** No clock is behind the sweeps when it is bound, and no call goes by a reading that a sweep has overtaken
      while it waited. */
  predicate Undisturbed(t: Timeline, events: seq<Event>)
    decreases |events|
  {
    events == [] ||
      ((match events[0]
        case Bind(_, at) => AtOrAfter(t.watermark, at)
        case SweepRun(_, _) => true
        case CallBy(_, read, at, _) => read == at || AtOrAfter(t.watermark, read))
       && Undisturbed(Advance(t, events[0]), events[1..]))
  }

  /** A clock that was not behind when it was bound never falls behind. */
  predicate Ahead(t: Timeline) {
    forall k :: k in t.clocks ==> k in t.last && (k !in t.behind ==> AtOrAfter(t.watermark, t.last[k]))
  }

  lemma StepKeepsAhead(t: Timeline, lag: nat, e: Event, past: Past)
    requires Ahead(t) && Possible(t, lag, e) && t.watermark == past.watermark
    ensures Ahead(Advance(t, e))
    ensures Advance(t, e).watermark == AfterAll(past, CallOf(e)).watermark
  {
    var t' := Advance(t, e);
    if e.SweepRun? {
      forall k | k in t'.clocks ensures k in t'.last && (k !in t'.behind ==> AtOrAfter(t'.watermark, t'.last[k])) {
        assert e.time + lag <= e.now[k];
      }
    }
    if e.CallBy? { assert AfterAll(past, [e.op]) == After(past, e.op); }
  }

  lemma AfterAllConcat(past: Past, xs: seq<Op>, ys: seq<Op>)
    requires |xs| <= 1
    ensures AfterAll(past, xs + ys) == AfterAll(AfterAll(past, xs), ys)
    ensures FreshRun(xs + ys, past) ==> FreshRun(ys, AfterAll(past, xs)) && (xs != [] ==> FreshOp(xs[0], past))
  {
    if xs == [] {
      assert xs + ys == ys;
    } else {
      assert (xs + ys)[1..] == ys && xs[1..] == [];
    }
  }

  lemma {:induction false} RunsStayAhead(t: Timeline, lag: nat, events: seq<Event>, past: Past)
    requires Ahead(t) && Timed(t, lag, events).Some? && t.watermark == past.watermark
    ensures Ahead(Timed(t, lag, events).value)
    ensures Timed(t, lag, events).value.watermark == AfterAll(past, Calls(events)).watermark
    decreases |events|
  {
    if events != [] {
      hide Ahead, Possible, Advance, CallOf, After;
      var e := events[0];
      StepKeepsAhead(t, lag, e, past);
      AtMostOneCall(e);
      AfterAllConcat(past, CallOf(e), Calls(events[1..]));
      RunsStayAhead(Advance(t, e), lag, events[1..], AfterAll(past, CallOf(e)));
    }
  }

  lemma AtMostOneCall(e: Event)
    ensures |CallOf(e)| <= 1
  {
  }

  // ---------------------------------------------------------------------- results

  /** In every run an affected call goes by a reading behind the sweeps, and then either its clock was behind them
      when it was bound, or the call is one that waited while a sweep overtook its reading. */
  lemma AffectedCallsAreDelayed(instanceId: string, lag: nat, before: seq<Event>, call: Event)
    requires Timed(Beginning(), lag, before).Some? && call.CallBy? && Possible(Timed(Beginning(), lag, before).value, lag, call)
    requires FreshRun(Calls(before), FreshPast()) && NoneAffected(EmptyStore(instanceId), EmptyStore(instanceId), Calls(before))
    requires var s := EmptyStore(instanceId);
      Affected(Run(s, Calls(before)), Run(s, WithoutSweeps(Calls(before))), call.op) && !call.op.FindToken?
    ensures var t := Timed(Beginning(), lag, before).value;
      && t.watermark.Some? && call.read < t.watermark.value
      && (call.clock in t.behind || (MayWait(call.op) && t.watermark.value <= call.at))
  {
    hide Affected, Sim;
    var s, t := EmptyStore(instanceId), Timed(Beginning(), lag, before).value;
    EmptyIsAlike(instanceId);
    StaysAlike(s, s, Calls(before), FreshPast());
    RunsStayAhead(Beginning(), lag, before, FreshPast());
    AffectedIsLate(Run(s, Calls(before)), Run(s, WithoutSweeps(Calls(before))), call.op, AfterAll(FreshPast(), Calls(before)));
    hide Run, Timed, NoneAffected, FreshRun, AfterAll;
    assert call.clock in t.clocks && t.last[call.clock] <= call.at;
  }

  lemma EmptyIsAlike(instanceId: string)
    ensures Sim(EmptyStore(instanceId), EmptyStore(instanceId), FreshPast()) && StoreInvariant.Valid(EmptyStore(instanceId))
  {
  }

  lemma {:induction false} UndisturbedIsAdmissible(t: Timeline, lag: nat, events: seq<Event>, past: Past)
    requires Ahead(t) && t.behind == {} && t.watermark == past.watermark
    requires Timed(t, lag, events).Some? && Undisturbed(t, events) && FreshRun(Calls(events), past)
    ensures AdmissibleRun(Calls(events), past)
    decreases |events|
  {
    if events != [] {
      var e := events[0];
      StepKeepsAhead(t, lag, e, past);
      AfterAllConcat(past, CallOf(e), Calls(events[1..]));
      UndisturbedIsAdmissible(Advance(t, e), lag, events[1..], AfterAll(past, CallOf(e)));
      hide After, FreshOp;
      if CallOf(e) != [] {
        assert Calls(events)[0] == CallOf(e)[0] && Calls(events)[1..] == Calls(events[1..]);
        assert CallOf(e)[1..] == [];
      } else {
        assert Calls(events) == Calls(events[1..]);
      }
    }
  }

  /** Sweeping at the earliest bound clock is invisible to every sharer whose clock was not behind the sweeps when
      it was bound, as long as no sweep overtakes a waiting call; clocks may be bound at any time and be far apart. */
  lemma NoSharerSeesSweeps(events: seq<Event>, lag: nat, instanceId: string)
    requires Timed(Beginning(), lag, events).Some? && Undisturbed(Beginning(), events) && FreshRun(Calls(events), FreshPast())
    ensures Answers(EmptyStore(instanceId), Calls(events)) == Answers(EmptyStore(instanceId), WithoutSweeps(Calls(events)))
  {
    UndisturbedIsAdmissible(Beginning(), lag, events, FreshPast());
    SweepingIsInvisible(instanceId, Calls(events));
  }
}
