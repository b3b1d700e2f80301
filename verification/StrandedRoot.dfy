/** A run that leaves a live refresh token with nobody. */
module StrandedRoot {
  import opened Prelude
  import opened Clock
  import opened GrantStore
  import opened RefreshText
  import opened GrantSystem
  import opened GrantAccounting
  import opened RefreshAtomicity

  const FAMILY := "aaaaaaaaaaaaaaaa"

  /** A configuration and a time at which a whole grant goes through. */
  predicate Usable(cfg: Config, instanceId: string, now: int) {
    && ValidInstanceId(instanceId) && ValidResource(cfg.resource) && cfg.resource != UNBOUND_RESOURCE
    && UsableClock(cfg, now) && CanonicalTime(now + 1) && CanonicalTime(now + cfg.codeTtlMs) && cfg.codeTtlMs > 0
  }

  function TheConsent(cfg: Config, instanceId: string, now: int): Consent {
    Consent("j", now + 1, "c", "s", "u", cfg.resource, [], None, "v", instanceId)
  }

  function TheCode(cfg: Config, now: int): AuthCode {
    AuthCode(Sha256("code"), "c", "s", "u", cfg.resource, [], "v", now + cfg.codeTtlMs, ExpectedGeneration(cfg))
  }

  function Signed(cfg: Config, instanceId: string, now: int): System {
    Initial(instanceId).(signed := {TheConsent(cfg, instanceId, now)})
  }

  lemma Prepares(cfg: Config, instanceId: string, now: int)
    ensures var e := Prepare("j", now + 1, "c", "s", "u", [], None, "v");
      Fresh(Initial(instanceId), e) && Step(cfg, Initial(instanceId), e) == Signed(cfg, instanceId, now)
  {
  }

  lemma Checks(cfg: Config, instanceId: string, now: int)
    requires Usable(cfg, instanceId, now)
    ensures var c := TheConsent(cfg, instanceId, now);
      Step(cfg, Signed(cfg, instanceId, now), ApproveCheck(0, c, now)) == Signed(cfg, instanceId, now).(pending := map[0 := Checked(c, now)])
  {
  }

  lemma Reads(cfg: Config, instanceId: string, now: int)
    requires Usable(cfg, instanceId, now)
    ensures var c, s := TheConsent(cfg, instanceId, now), Signed(cfg, instanceId, now);
      Step(cfg, s.(pending := map[0 := Checked(c, now)]), ApproveRead(0)) == s.(pending := map[0 := Approving(c, [], now)])
  {
    assert ValidSubject("s");
    assert Narrow(AppendNew([], [] + []), None) == [];
  }

  function Approved(cfg: Config, instanceId: string, now: int): System {
    var c := TheConsent(cfg, instanceId, now);
    Signed(cfg, instanceId, now).(
      store := EmptyStore(instanceId).(jtis := map["j" := now + 1], codes := map[Sha256("code") := TheCode(cfg, now)]),
      approvals := map[Sha256("code") := c], stage := map[Sha256("code") := InStore])
  }

  lemma Commits(cfg: Config, instanceId: string, now: int)
    requires Usable(cfg, instanceId, now)
    ensures var c, s := TheConsent(cfg, instanceId, now), Signed(cfg, instanceId, now);
      var e := ApproveCommit(0, now, "code");
      Fresh(s.(pending := map[0 := Approving(c, [], now)]), e)
      && Step(cfg, s.(pending := map[0 := Approving(c, [], now)]), e) == Approved(cfg, instanceId, now)
  {
    assert ValidSubject("s");
  }

  function Redeemed(cfg: Config, instanceId: string, now: int): System {
    var s := Approved(cfg, instanceId, now);
    s.(store := s.store.(codes := map[]), pending := map[0 := Redeeming(TheCode(cfg, now), now)],
       stage := map[Sha256("code") := HeldBy(0)])
  }

  lemma RedeemsIt(cfg: Config, instanceId: string, now: int)
    requires Usable(cfg, instanceId, now)
    ensures Step(cfg, Approved(cfg, instanceId, now), Redeem(0, "code", "c", "u", true, now)) == Redeemed(cfg, instanceId, now)
  {
    assert ValidSubject("s") && !ReservedSubject("s");
  }

  lemma Issues(cfg: Config, instanceId: string, now: int)
    requires Usable(cfg, instanceId, now)
    ensures var e, raw := IssueTokens(0, FAMILY, "r", ThrowsAfter), GenerateRefreshToken(FAMILY, "r");
      var end := Step(cfg, Redeemed(cfg, instanceId, now), e);
      && Fresh(Redeemed(cfg, instanceId, now), e)
      && end.pending == map[] && end.returned == {} && Sha256(raw) in LiveRows(end.store)
  {
    assert ValidSubject("s");
    hide GenerateRefreshToken;
    var raw := GenerateRefreshToken(FAMILY, "r");
    var w := RootWrite(cfg, Redeemed(cfg, instanceId, now).pending[0], raw, FAMILY);
    assert Acceptable(w);
    SavedRootIsLive(Redeemed(cfg, instanceId, now).store, w);
  }

  /** `[e] + rest` from a state is `rest` from the next. */
  lemma Onward(cfg: Config, sys: System, e: Event, rest: seq<Event>)
    requires Fresh(sys, e) && FreshRun(cfg, Step(cfg, sys, e), rest)
    ensures FreshRun(cfg, sys, [e] + rest) && RunOf(cfg, sys, [e] + rest) == RunOf(cfg, Step(cfg, sys, e), rest)
  {
    hide Step, Fresh;
    var events := [e] + rest;
    assert events[1..] == rest;
    forall i | 0 <= i < |events| ensures Fresh(RunOf(cfg, sys, events[..i]), events[i]) {
      if i > 0 { assert events[..i][0] == e && events[..i][1..] == rest[..i - 1]; }
    }
  }

  /** Every usable configuration has a fresh run of one grant that ends at rest with a live token that no
      client was given: the save of the root commits and then throws. */
  lemma LateFaultStrandsARoot(cfg: Config, instanceId: string, now: int) returns (events: seq<Event>)
    requires Usable(cfg, instanceId, now)
    ensures FreshRun(cfg, Initial(instanceId), events)
    ensures var end, h := RunOf(cfg, Initial(instanceId), events), Sha256(GenerateRefreshToken(FAMILY, "r"));
      Quiescent(end) && h in LiveRows(end.store) && h.raw !in end.returned
  {
    hide Step, Fresh, Usable, LiveRows, GenerateRefreshToken, Signed, Approved, Redeemed, TheConsent;
    var c, s := TheConsent(cfg, instanceId, now), Signed(cfg, instanceId, now);
    Prepares(cfg, instanceId, now);
    Checks(cfg, instanceId, now);
    Reads(cfg, instanceId, now);
    Commits(cfg, instanceId, now);
    RedeemsIt(cfg, instanceId, now);
    Issues(cfg, instanceId, now);
    AlwaysFresh(s, 0, c, now);
    AlwaysFresh(s.(pending := map[0 := Checked(c, now)]), 0, c, now);
    AlwaysFresh(Approved(cfg, instanceId, now), 0, c, now);
    var e0, e1, e2 := Prepare("j", now + 1, "c", "s", "u", [], None, "v"), ApproveCheck(0, c, now), ApproveRead(0);
    var e3, e4, e5 := ApproveCommit(0, now, "code"), Redeem(0, "code", "c", "u", true, now), IssueTokens(0, FAMILY, "r", ThrowsAfter);
    Onward(cfg, Redeemed(cfg, instanceId, now), e5, []);
    Onward(cfg, Approved(cfg, instanceId, now), e4, [e5] + []);
    Onward(cfg, s.(pending := map[0 := Approving(c, [], now)]), e3, [e4] + ([e5] + []));
    Onward(cfg, s.(pending := map[0 := Checked(c, now)]), e2, [e3] + ([e4] + ([e5] + [])));
    Onward(cfg, s, e1, [e2] + ([e3] + ([e4] + ([e5] + []))));
    events := [e0] + ([e1] + ([e2] + ([e3] + ([e4] + ([e5] + [])))));
    Onward(cfg, Initial(instanceId), e0, [e1] + ([e2] + ([e3] + ([e4] + ([e5] + [])))));
  }

  /** Requests without a random draw are fresh in any state. */
  lemma AlwaysFresh(sys: System, op: nat, c: Consent, now: int)
    ensures Fresh(sys, ApproveCheck(op, c, now)) && Fresh(sys, ApproveRead(op)) && Fresh(sys, Redeem(op, "code", "c", "u", true, now))
  {
  }
}
