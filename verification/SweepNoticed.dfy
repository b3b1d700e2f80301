/** Three runs in which a sharer notices that its store is swept, one for each way a call can be affected. */
module SweepNoticed {
  import opened Prelude
  import opened Clock
  import opened GrantStore
  import opened SweepInvisible
  import opened ExpiryLifecycle

  /** The sharers do nothing impossible, and the two runs answer as listed. */
  ghost predicate Tells(instanceId: string, events: seq<Event>, swept: seq<Answer>, unswept: seq<Answer>) {
    && Timed(Beginning(), 0, events).Some? && FreshRun(Calls(events), FreshPast())
    && AllAnswers(EmptyStore(instanceId), Calls(events)) == swept
    && AllAnswers(EmptyStore(instanceId), WithoutSweeps(Calls(events))) == unswept
  }

  // ------------------------------------------------------------- one event at a time

  lemma CallsOnward(e: Event, rest: seq<Event>)
    ensures Calls([e] + rest) == CallOf(e) + Calls(rest)
  {
    assert ([e] + rest)[1..] == rest;
  }

  lemma TimedOnward(t: Timeline, e: Event, rest: seq<Event>)
    requires Possible(t, 0, e)
    ensures Timed(t, 0, [e] + rest) == Timed(Advance(t, e), 0, rest)
  {
    assert ([e] + rest)[1..] == rest;
  }

  /** The one bound clock shows `at`. */
  function OneClock(at: int, watermark: Option<int>): Timeline {
    Timeline([0], map[0 := at], watermark, {})
  }

  lemma FirstBind(at: int)
    ensures Possible(Beginning(), 0, Bind(0, at)) && Advance(Beginning(), Bind(0, at)) == OneClock(at, None)
  {
  }

  lemma FirstSweep(last: int, now: int)
    requires last <= now && CanonicalTime(now)
    ensures var t, e := OneClock(last, None), SweepRun(map[0 := now], now);
      Possible(t, 0, e) && Advance(t, e) == OneClock(now, Some(now))
  {
    assert IsEarliest(now, [0], map[0 := now]) by { assert 0 in [0] && map[0 := now][0] == now; }
  }

  lemma AnswersOnward(s: Store, op: Op, rest: seq<Op>)
    ensures AllAnswers(s, [op] + rest) == (if op.Sweep? then [] else [Apply(s, op).answer]) + AllAnswers(Apply(s, op).store, rest)
    ensures WithoutSweeps([op] + rest) == (if op.Sweep? then [] else [op]) + WithoutSweeps(rest)
  {
    hide Apply;
    assert ([op] + rest)[1..] == rest;
  }

  /** The answers around a sweep between two calls. */
  lemma SweepBetween(s: Store, first: Op, sweep: Op, last: Op)
    requires !first.Sweep? && sweep.Sweep? && !last.Sweep?
    ensures var s1 := Apply(s, first).store; var s2 := Apply(s1, sweep).store;
      && AllAnswers(s, [first, sweep, last]) == [Apply(s, first).answer, Apply(s2, last).answer]
      && AllAnswers(s, WithoutSweeps([first, sweep, last])) == [Apply(s, first).answer, Apply(s1, last).answer]
  {
    hide Apply;
    var s1 := Apply(s, first).store;
    var s2 := Apply(s1, sweep).store;
    assert [first, sweep, last] == [first] + ([sweep] + ([last] + []));
    AnswersOnward(s, first, [sweep] + ([last] + []));
    AnswersOnward(s1, sweep, [last] + []);
    AnswersOnward(s2, last, []);
    AnswersOnward(s1, last, []);
    AnswersOnward(s, first, [last] + []);
    assert WithoutSweeps([first, sweep, last]) == [first] + ([last] + []);
  }

  /** The answers around a sweep before a call. */
  lemma SweepFirst(s: Store, sweep: Op, last: Op)
    requires sweep.Sweep? && !last.Sweep?
    ensures AllAnswers(s, [sweep, last]) == [Apply(Apply(s, sweep).store, last).answer]
    ensures AllAnswers(s, WithoutSweeps([sweep, last])) == [Apply(s, last).answer]
  {
    hide Apply;
    assert [sweep, last] == [sweep] + ([last] + []);
    AnswersOnward(s, sweep, [last] + []);
    AnswersOnward(Apply(s, sweep).store, last, []);
    AnswersOnward(s, last, []);
    assert WithoutSweeps([sweep, last]) == [last] + [];
  }

  // ------------------------------------------------- a query overtaken while it waits

  function Row(): Token {
    Token(Sha256("t"), "f", None, "c", "s", "r", ["x"], 6, Some(STORED_DCR_GENERATION))
  }

  function Write(): TokenWrite {
    TokenWrite(Row(), Some("r"), Omitted)
  }

  function Query(): GrantQuery {
    GrantQuery("s", "c", 5, None, None)
  }

  function WithRow(instanceId: string): Store {
    EmptyStore(instanceId).(tokens := map[Sha256("t") := StoredToken(Row(), None)], order := [Sha256("t")],
                            families := map["f" := Family(None, Some(STORED_DCR_GENERATION), "r")])
  }

  lemma Saves(instanceId: string)
    ensures DoSaveToken(EmptyStore(instanceId), Write()) == Outcome(WithRow(instanceId), Done)
  {
    assert ValidSubject("s") && ValidResource("r") by { assert !IsSpace("r"[0]); }
  }

  function Swept(instanceId: string): Store {
    EmptyStore(instanceId).(sweptThrough := Some(7))
  }

  lemma SweepsTheRow(instanceId: string)
    ensures DoSweep(WithRow(instanceId), 7) == Outcome(Swept(instanceId), Done)
  {
    var s := WithRow(instanceId);
    var live := LiveTokens(s.tokens, 7);
    assert live == map[] by {
      forall m | m in s.tokens ensures s.tokens[m].token.expiresAt == 6 { }
    }
    assert KeepKeys(s.order, live.Keys) == [] by {
      assert s.order[..0] == [];
      assert KeepKeys([], live.Keys) == [];
    }
    assert FamiliesOf(live) == {};
  }

  lemma Finds(instanceId: string)
    ensures DoFindGranted(WithRow(instanceId), Query()).answer == Scopes(["x"])
    ensures DoFindGranted(Swept(instanceId), Query()).answer == Scopes([])
  {
    assert ValidSubject("s");
    var s, h := WithRow(instanceId), Sha256("t");
    assert Contributes(s, h, Query());
    assert Collect(s, [], Query()) == [];
    assert s.order[..0] == [] && s.order[0] == h;
    assert ["x"][..0] == [] && AppendNew([], []) == [];
    assert AppendNew([], ["x"]) == ["x"];
  }

  /** An approval reads its clock at 5 and waits; the sweep at 7 takes away a grant that expired at 6. */
  lemma OvertakenQuery(instanceId: string)
    ensures var events := [Bind(0, 5), CallBy(0, 5, 5, SaveToken(Write())), SweepRun(map[0 := 7], 7), CallBy(0, 5, 7, FindGranted(Query()))];
      Tells(instanceId, events, [Done, Scopes([])], [Done, Scopes(["x"])])
  {
    hide Timed, AllAnswers, WithoutSweeps, Calls, EmptyStore, Write, Query, FreshRun;
    var save, sweep, find := SaveToken(Write()), Sweep(7), FindGranted(Query());
    var e0, e1, e2, e3 := Bind(0, 5), CallBy(0, 5, 5, save), SweepRun(map[0 := 7], 7), CallBy(0, 5, 7, find);
    QueryAnswers(instanceId);
    WaitingQueryIsTimed();
    QueryRunIsFresh();
    assert [e0, e1, e2, e3] == [e0] + ([e1] + ([e2] + ([e3] + [])));
    WaitingCalls(e0, e1, e2, e3);
    assert CallOf(e1) + CallOf(e2) + CallOf(e3) == [save, sweep, find];
  }

  lemma WaitingCalls(e0: Event, e1: Event, e2: Event, e3: Event)
    requires e0.Bind?
    ensures Calls([e0, e1, e2, e3]) == CallOf(e1) + CallOf(e2) + CallOf(e3)
  {
    assert [e0, e1, e2, e3] == [e0] + ([e1] + ([e2] + ([e3] + [])));
    CallsOnward(e0, [e1] + ([e2] + ([e3] + [])));
    CallsOnward(e1, [e2] + ([e3] + []));
    CallsOnward(e2, [e3] + []);
    CallsOnward(e3, []);
    assert Calls([]) == [];
  }

  lemma QueryAnswers(instanceId: string)
    ensures var s, ops := EmptyStore(instanceId), [SaveToken(Write()), Sweep(7), FindGranted(Query())];
      AllAnswers(s, ops) == [Done, Scopes([])] && AllAnswers(s, WithoutSweeps(ops)) == [Done, Scopes(["x"])]
  {
    hide DoSaveToken, DoSweep, DoFindGranted, WithRow, Swept, EmptyStore, Write, Query, AllAnswers, WithoutSweeps;
    Saves(instanceId);
    SweepsTheRow(instanceId);
    Finds(instanceId);
    SweepBetween(EmptyStore(instanceId), SaveToken(Write()), Sweep(7), FindGranted(Query()));
  }

  lemma WaitingQueryIsTimed()
    ensures Timed(Beginning(), 0, [Bind(0, 5)] + ([CallBy(0, 5, 5, SaveToken(Write()))]
      + ([SweepRun(map[0 := 7], 7)] + ([CallBy(0, 5, 7, FindGranted(Query()))] + [])))).Some?
  {
    hide Timed, Advance, Possible, Write, OneClock;
    var e0, e1 := Bind(0, 5), CallBy(0, 5, 5, SaveToken(Write()));
    var e2, e3 := SweepRun(map[0 := 7], 7), CallBy(0, 5, 7, FindGranted(Query()));
    FirstBind(5);
    FirstSweep(5, 7);
    QueryCalls();
    TimedOnward(Beginning(), e0, [e1] + ([e2] + ([e3] + [])));
    TimedOnward(OneClock(5, None), e1, [e2] + ([e3] + []));
    TimedOnward(OneClock(5, None), e2, [e3] + []);
    TimedOnward(OneClock(7, Some(7)), e3, []);
    NothingLeftToTime(Advance(OneClock(7, Some(7)), e3));
  }

  lemma NothingLeftToTime(t: Timeline)
    ensures Timed(t, 0, []) == Some(t)
  {
  }

  lemma QueryCalls()
    ensures var t, e := OneClock(5, None), CallBy(0, 5, 5, SaveToken(Write())); Possible(t, 0, e) && Advance(t, e) == t
    ensures Possible(OneClock(7, Some(7)), 0, CallBy(0, 5, 7, FindGranted(Query())))
  {
  }

  lemma QueryRunIsFresh()
    ensures FreshRun([SaveToken(Write()), Sweep(7), FindGranted(Query())], FreshPast())
  {
    var ops := [SaveToken(Write()), Sweep(7), FindGranted(Query())];
    assert ops[1..] == [Sweep(7), FindGranted(Query())] && ops[1..][1..] == [FindGranted(Query())] && ops[1..][1..][1..] == [];
  }

  // ------------------------------------------------- a flow JTI overtaken while it waits

  /** A callback checks its flow at 5 and waits; the sweep at 7 passes the flow's expiry, and its first use is refused. */
  lemma OvertakenFlow(instanceId: string)
    ensures var events := [Bind(0, 5), SweepRun(map[0 := 7], 7), CallBy(0, 5, 7, ConsumeJti("j", 6))];
      Tells(instanceId, events, [FirstUse(false)], [FirstUse(true)])
  {
    hide Timed, Advance, Possible, EmptyStore, AllAnswers, WithoutSweeps, FreshRun, CallOf;
    var e0, e1, e2 := Bind(0, 5), SweepRun(map[0 := 7], 7), CallBy(0, 5, 7, ConsumeJti("j", 6));
    FirstUseRefused(instanceId, 7);
    FirstBind(5);
    FirstSweep(5, 7);
    FlowCall(OneClock(7, Some(7)), 0, 5, 7);
    assert [e0, e1, e2] == [e0] + ([e1] + ([e2] + []));
    TimedOnward(Beginning(), e0, [e1] + ([e2] + []));
    TimedOnward(OneClock(5, None), e1, [e2] + []);
    TimedOnward(OneClock(7, Some(7)), e2, []);
    NothingLeftToTime(Advance(OneClock(7, Some(7)), e2));
    TwoCalls(e0, e1, e2);
  }

  lemma FlowCall(t: Timeline, k: ClockId, read: int, at: int)
    requires k in t.clocks && (k in t.last ==> t.last[k] <= at) && read <= at && read < 6
    ensures Possible(t, 0, CallBy(k, read, at, ConsumeJti("j", 6)))
  {
  }

  lemma TwoCalls(e0: Event, e1: Event, e2: Event)
    requires e0.Bind? && e1.SweepRun? && e2.CallBy?
    ensures Calls([e0, e1, e2]) == [Sweep(e1.time), e2.op]
  {
    assert [e0, e1, e2] == [e0] + ([e1] + ([e2] + []));
    CallsOnward(e0, [e1] + ([e2] + []));
    CallsOnward(e1, [e2] + []);
    CallsOnward(e2, []);
    assert Calls([]) == [];
  }

  lemma FirstUseRefused(instanceId: string, now: int)
    requires CanonicalTime(now) && 6 < now
    ensures var s, ops := EmptyStore(instanceId), [Sweep(now), ConsumeJti("j", 6)];
      AllAnswers(s, ops) == [FirstUse(false)] && AllAnswers(s, WithoutSweeps(ops)) == [FirstUse(true)] && FreshRun(ops, FreshPast())
  {
    var sweep, consume := Sweep(now), ConsumeJti("j", 6);
    SweepFirst(EmptyStore(instanceId), sweep, consume);
    assert [sweep, consume][1..] == [consume] && [consume][1..] == [];
    assert Fenced(SweptStore(EmptyStore(instanceId), now), 6);
  }

  // --------------------------------------------------------- a clock bound behind the sweeps

  /** A second sharer binds a clock that shows 5 after the store was swept at 9: the flow it accepts at once, with an
      expiry at 6, counts as used. */
  lemma LateClock(instanceId: string)
    ensures var events := [Bind(0, 9), SweepRun(map[0 := 9], 9), Bind(1, 5), CallBy(1, 5, 5, ConsumeJti("j", 6))];
      Tells(instanceId, events, [FirstUse(false)], [FirstUse(true)])
  {
    hide Timed, Advance, Possible, OneClock, EmptyStore, AllAnswers, WithoutSweeps, FreshRun, CallOf;
    var e0, e1, e2, e3 := Bind(0, 9), SweepRun(map[0 := 9], 9), Bind(1, 5), CallBy(1, 5, 5, ConsumeJti("j", 6));
    FirstUseRefused(instanceId, 9);
    FirstBind(9);
    FirstSweep(9, 9);
    var t := LateBind();
    FlowCall(t, 1, 5, 5);
    assert [e0, e1, e2, e3] == [e0] + ([e1] + ([e2] + ([e3] + [])));
    TimedOnward(Beginning(), e0, [e1] + ([e2] + ([e3] + [])));
    TimedOnward(OneClock(9, None), e1, [e2] + ([e3] + []));
    TimedOnward(OneClock(9, Some(9)), e2, [e3] + []);
    TimedOnward(t, e3, []);
    NothingLeftToTime(Advance(t, e3));
    LateCalls(e0, e1, e2, e3);
  }

  lemma LateBind() returns (t: Timeline)
    ensures Possible(OneClock(9, Some(9)), 0, Bind(1, 5)) && t == Advance(OneClock(9, Some(9)), Bind(1, 5))
    ensures 1 in t.clocks && (1 in t.last ==> t.last[1] <= 5)
  {
    t := Advance(OneClock(9, Some(9)), Bind(1, 5));
  }

  lemma LateCalls(e0: Event, e1: Event, e2: Event, e3: Event)
    requires e0.Bind? && e1.SweepRun? && e2.Bind? && e3.CallBy?
    ensures Calls([e0, e1, e2, e3]) == [Sweep(e1.time), e3.op]
  {
    assert [e0, e1, e2, e3] == [e0] + [e1, e2, e3];
    CallsOnward(e0, [e1, e2, e3]);
    assert [e1, e2, e3] == [e1] + ([e2] + [e3]);
    CallsOnward(e1, [e2] + [e3]);
    CallsOnward(e2, [e3]);
    assert [e3] == [e3] + [];
    CallsOnward(e3, []);
    assert Calls([]) == [];
  }
}
