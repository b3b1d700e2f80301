/** Who made the requests: in every interleaving, whatever a request in progress holds and whatever it hands out goes
    back to the event that began it and to what the store held then. */
module GrantRequests {
  import opened Prelude
  import opened Clock
  import opened GrantStore
  import opened StoreInvariant
  import opened RefreshText
  import opened GrantSystem
  import opened GrantSteps
  import opened GrantRules

  // ------------------------------------------------------------------------ runs

  lemma {:induction false} RunOfLast(cfg: Config, sys: System, events: seq<Event>, e: Event)
    ensures RunOf(cfg, sys, events + [e]) == Step(cfg, RunOf(cfg, sys, events), e)
    decreases |events|
  {
    hide Step;
    if events == [] {
      assert (events + [e])[1..] == [];
    } else {
      assert (events + [e])[1..] == events[1..] + [e];
      RunOfLast(cfg, Step(cfg, sys, events[0]), events[1..], e);
    }
  }

  /** The system before the `i`-th event of a run that starts with an empty store. */
  function Before(cfg: Config, instanceId: string, events: seq<Event>, i: nat): System
    requires i <= |events|
  {
    RunOf(cfg, Initial(instanceId), events[..i])
  }

  lemma BeforeNext(cfg: Config, instanceId: string, events: seq<Event>, i: nat)
    requires i < |events|
    ensures Before(cfg, instanceId, events, i + 1) == Step(cfg, Before(cfg, instanceId, events, i), events[i])
  {
    hide Step;
    assert events[..i + 1] == events[..i] + [events[i]];
    RunOfLast(cfg, Initial(instanceId), events[..i], events[i]);
  }

  lemma {:induction false} StoresStayValid(cfg: Config, instanceId: string, events: seq<Event>, i: nat)
    requires i <= |events|
    ensures Valid(Before(cfg, instanceId, events, i).store)
    decreases i
  {
    hide Step, CallOf, Valid, Apply;
    if i == 0 {
      assert events[..0] == [];
      InitialBase(instanceId);
      BaseIsValid(Initial(instanceId));
    } else {
      var sys := Before(cfg, instanceId, events, i - 1);
      StoresStayValid(cfg, instanceId, events, i - 1);
      BeforeNext(cfg, instanceId, events, i - 1);
      OneCallPerStep(cfg, sys, events[i - 1]);
      var call := CallOf(cfg, sys, events[i - 1]);
      if call.Some? { ApplyKeepsValid(sys.store, call.value); }
    }
  }

  lemma BaseIsValid(sys: System)
    requires Base(sys)
    ensures Valid(sys.store)
  {
  }

  // --------------------------------------------------------------------- beginnings

  /** The event presents a code that may be redeemed, with its verifier: by its client, at its redirect, in time. */
  predicate Redeems(cfg: Config, sys: System, e: Event, op: nat, c: AuthCode, at: int) {
    && e.Redeem? && e.op == op && e.now == at && e.verifierMatches && ClockFits(cfg, e.now)
    && Redeemable(cfg, sys.store, e.code, e.clientId, e.redirectUri, e.now) && sys.store.codes[Sha256(e.code)] == c
  }

  /** The event presents a token that can be rotated to the successor. */
  ghost predicate Rotates(cfg: Config, sys: System, e: Event, op: nat, t: Token, successor: string, clientId: string, at: int) {
    && e.RotateToken? && e.op == op && e.now == at && e.clientId == clientId && ClockFits(cfg, e.now)
    && IsTokenOf(e.raw, t.familyId) && successor == "rt." + t.familyId + "." + e.random
    && CanRotate(cfg, sys.store, e.raw, t.familyId, successor, e.now) && sys.store.tokens[Sha256(e.raw)].token == t
  }

  /** The event presents a signed consent for this bridge and store instance, before its expiry. */
  predicate Checks(cfg: Config, sys: System, e: Event, op: nat, c: Consent, at: int) {
    && e == ApproveCheck(op, c, at) && CanonicalTime(at) && at < c.expiresAt
    && c in sys.signed && c.resource == cfg.resource && c.instanceId == sys.store.instanceId
  }

  /** The event reads the grants before, and comes to the list. */
  ghost predicate Reads(cfg: Config, sys: System, e: Event, op: nat, c: Consent, list: seq<string>, at: int) {
    && e == ApproveRead(op) && ListsStand(cfg, sys.store, c, at)
    && NoDuplicates(list) && forall x :: x in list <==> ToCommit(cfg, sys.store, c, at, x)
  }

  ghost predicate RedeemsAt(cfg: Config, instanceId: string, events: seq<Event>, i: int, op: nat, c: AuthCode, at: int) {
    0 <= i < |events| && Redeems(cfg, Before(cfg, instanceId, events, i), events[i], op, c, at)
  }

  ghost predicate RotatesAt(cfg: Config, instanceId: string, events: seq<Event>, i: int, op: nat, t: Token, successor: string, clientId: string,
                            at: int)
  {
    0 <= i < |events| && Rotates(cfg, Before(cfg, instanceId, events, i), events[i], op, t, successor, clientId, at)
  }

  ghost predicate ChecksAt(cfg: Config, instanceId: string, events: seq<Event>, i: int, op: nat, c: Consent, at: int) {
    0 <= i < |events| && Checks(cfg, Before(cfg, instanceId, events, i), events[i], op, c, at)
  }

  ghost predicate ReadsAt(cfg: Config, instanceId: string, events: seq<Event>, i: int, op: nat, c: Consent, list: seq<string>, at: int) {
    0 <= i < |events| && Reads(cfg, Before(cfg, instanceId, events, i), events[i], op, c, list, at)
  }

  /** The request goes back to the events that brought it where it is. */
  ghost predicate Begun(cfg: Config, instanceId: string, events: seq<Event>, op: nat, p: Pending) {
    match p
    case Checked(c, at) => exists i :: ChecksAt(cfg, instanceId, events, i, op, c, at)
    case Approving(c, list, at) =>
      && (exists i :: ChecksAt(cfg, instanceId, events, i, op, c, at))
      && (exists i :: ReadsAt(cfg, instanceId, events, i, op, c, list, at))
    case Redeeming(c, at) => exists i :: RedeemsAt(cfg, instanceId, events, i, op, c, at)
    case Refreshing(t, successor, clientId, family, at) =>
      family == t.familyId && exists i :: RotatesAt(cfg, instanceId, events, i, op, t, successor, clientId, at)
    case _ => true
  }

  lemma SamePrefix(cfg: Config, instanceId: string, events: seq<Event>, e: Event, i: nat)
    requires i <= |events|
    ensures Before(cfg, instanceId, events + [e], i) == Before(cfg, instanceId, events, i)
  {
    assert (events + [e])[..i] == events[..i];
  }

  lemma BegunStays(cfg: Config, instanceId: string, events: seq<Event>, e: Event, op: nat, p: Pending)
    requires Begun(cfg, instanceId, events, op, p)
    ensures Begun(cfg, instanceId, events + [e], op, p)
  {
    hide Before, Checks, Reads, Redeems, Rotates;
    var more := events + [e];
    forall i | 0 <= i < |events| ensures Before(cfg, instanceId, more, i) == Before(cfg, instanceId, events, i) && more[i] == events[i] {
      SamePrefix(cfg, instanceId, events, e, i);
    }
    match p
    case Checked(c, at) => var i :| ChecksAt(cfg, instanceId, events, i, op, c, at); assert ChecksAt(cfg, instanceId, more, i, op, c, at);
    case Approving(c, list, at) =>
      var i :| ChecksAt(cfg, instanceId, events, i, op, c, at);
      assert ChecksAt(cfg, instanceId, more, i, op, c, at);
      var j :| ReadsAt(cfg, instanceId, events, j, op, c, list, at);
      assert ReadsAt(cfg, instanceId, more, j, op, c, list, at);
    case Redeeming(c, at) =>
      var i :| RedeemsAt(cfg, instanceId, events, i, op, c, at);
      assert RedeemsAt(cfg, instanceId, more, i, op, c, at);
    case Refreshing(t, successor, clientId, _, at) =>
      var i :| RotatesAt(cfg, instanceId, events, i, op, t, successor, clientId, at);
      assert RotatesAt(cfg, instanceId, more, i, op, t, successor, clientId, at);
    case _ =>
  }

  // ------------------------------------------------------------------------- steps

  lemma CheckBegins(cfg: Config, sys: System, e: Event)
    requires e.ApproveCheck? && e.op !in sys.pending && e.op in DoApproveCheck(cfg, sys, e).pending
    ensures var p := DoApproveCheck(cfg, sys, e).pending[e.op];
      p.Checked? && Checks(cfg, sys, e, e.op, p.consent, p.startedAt)
  {
  }

  lemma ReadGoesOn(cfg: Config, sys: System, e: Event)
    requires Valid(sys.store) && e.ApproveRead? && e.op in sys.pending && sys.pending[e.op].Checked?
    requires e.op in DoApproveRead(cfg, sys, e).pending
    ensures var c, p := sys.pending[e.op], DoApproveRead(cfg, sys, e).pending[e.op];
      && p.Approving? && p.consent == c.consent && p.startedAt == c.startedAt
      && Reads(cfg, sys, e, e.op, p.consent, p.scopes, p.startedAt)
  {
    hide PriorScopes, ApprovedScopes, ListsStand, ToCommit, Valid;
    var c := sys.pending[e.op];
    ApprovedListExactly(cfg, sys.store, c.consent, c.startedAt);
  }

  lemma RedeemBegins(cfg: Config, sys: System, e: Event)
    requires e.Redeem? && e.op !in sys.pending && e.op in DoRedeem(cfg, sys, e).pending
    ensures var p := DoRedeem(cfg, sys, e).pending[e.op];
      p.Redeeming? && Redeems(cfg, sys, e, e.op, p.code, p.at)
  {
    hide DoConsumeCode, RedeemChecks, UsableClock, ClockFits, Redeemable;
    UsableClockFits(cfg, e.now);
    if ClockFits(cfg, e.now) && e.code != "" { RedeemFollows(cfg, sys.store, e); }
  }

  lemma RotationBegins(cfg: Config, sys: System, e: Event)
    requires e.RotateToken? && e.op !in sys.pending && e.op in DoRotateToken(cfg, sys, e).pending
    requires DoRotateToken(cfg, sys, e).pending[e.op].Refreshing?
    ensures var p := DoRotateToken(cfg, sys, e).pending[e.op];
      && p.familyId == p.rotated.familyId && Rotates(cfg, sys, e, e.op, p.rotated, p.successor, p.clientId, p.at)
  {
    hide DoRotate, ParseRefreshFamilyId, GenerateRefreshToken, UsableClock, ClockFits, IsTokenOf;
    UsableClockFits(cfg, e.now);
    var family := ParseRefreshFamilyId(e.raw).value;
    ParsesExactly(e.raw, family);
    SuccessorText(family, e.random);
    RotationFollows(cfg, sys.store, e.raw, family, GenerateRefreshToken(family, e.random), e.clientId, e.now);
  }

  lemma StepBegins(cfg: Config, instanceId: string, events: seq<Event>, e: Event)
    requires var sys := Before(cfg, instanceId, events, |events|);
      Valid(sys.store) && Ready(e, sys.pending) && e.op in Step(cfg, sys, e).pending
    requires var sys := Before(cfg, instanceId, events, |events|);
      forall op :: op in sys.pending ==> Begun(cfg, instanceId, events, op, sys.pending[op])
    ensures var sys := Before(cfg, instanceId, events, |events|);
      Begun(cfg, instanceId, events + [e], e.op, Step(cfg, sys, e).pending[e.op])
  {
    hide DoPrepare, DoApproveCheck, DoApproveRead, DoApproveCommit, DoRedeem, DoIssueTokens, DoAbandon, DoRotateToken, DoFinishRefresh,
      DoCompensate, DoRevokeLookup, DoRevokeCommit, DoSweep, DoRebind, DoConsumeJti, Before, Checks, Reads, Redeems, Rotates, Valid;
    var more, n, sys := events + [e], |events|, Before(cfg, instanceId, events, |events|);
    SamePrefix(cfg, instanceId, events, e, n);
    RequestStands(cfg, sys, e, e.op);
    var p := Step(cfg, sys, e).pending[e.op];
    if e.ApproveCheck? {
      CheckBegins(cfg, sys, e);
      assert ChecksAt(cfg, instanceId, more, n, e.op, p.consent, p.startedAt);
    } else if e.ApproveRead? {
      ReadGoesOn(cfg, sys, e);
      BegunStays(cfg, instanceId, events, e, e.op, sys.pending[e.op]);
      assert ReadsAt(cfg, instanceId, more, n, e.op, p.consent, p.scopes, p.startedAt);
    } else if e.Redeem? {
      RedeemBegins(cfg, sys, e);
      assert RedeemsAt(cfg, instanceId, more, n, e.op, p.code, p.at);
    } else if e.RotateToken? && p.Refreshing? {
      RotationBegins(cfg, sys, e);
      assert RotatesAt(cfg, instanceId, more, n, e.op, p.rotated, p.successor, p.clientId, p.at);
    } else {
      OwnStepStands(cfg, sys, e);
      if e.op in sys.pending && p == sys.pending[e.op] { BegunStays(cfg, instanceId, events, e, e.op, p); }
    }
  }

  lemma OwnStepStands(cfg: Config, sys: System, e: Event)
    requires Ready(e, sys.pending) && e.op in Step(cfg, sys, e).pending
    requires !e.ApproveCheck? && !e.ApproveRead? && !e.Redeem? && !(e.RotateToken? && Step(cfg, sys, e).pending[e.op].Refreshing?)
    ensures var p := Step(cfg, sys, e).pending[e.op]; p.Compensating? || p.Revoking? || (e.op in sys.pending && p == sys.pending[e.op])
  {
    hide Step;
    RequestStands(cfg, sys, e, e.op);
  }

  /** In every interleaving, every request in progress goes back to the events that brought it where it is. */
  lemma {:induction false} EveryRequestWasBegun(cfg: Config, instanceId: string, events: seq<Event>, op: nat)
    requires op in RunOf(cfg, Initial(instanceId), events).pending
    ensures Begun(cfg, instanceId, events, op, RunOf(cfg, Initial(instanceId), events).pending[op])
    decreases |events|
  {
    hide Step, Begun, RunOf, Ready, Advanced, Valid;
    if events == [] {
      NothingBegun(cfg, instanceId);
    } else {
      var before, e := events[..|events| - 1], events[|events| - 1];
      assert events == before + [e];
      assert before[..|before|] == before;
      RunOfLast(cfg, Initial(instanceId), before, e);
      var sys := RunOf(cfg, Initial(instanceId), before);
      StoresStayValid(cfg, instanceId, before, |before|);
      forall k | k in sys.pending ensures Begun(cfg, instanceId, before, k, sys.pending[k]) {
        EveryRequestWasBegun(cfg, instanceId, before, k);
      }
      RequestStands(cfg, sys, e, op);
      if op in sys.pending && Step(cfg, sys, e).pending[op] == sys.pending[op] {
        BegunStays(cfg, instanceId, before, e, op, sys.pending[op]);
      } else {
        StepBegins(cfg, instanceId, before, e);
      }
    }
  }

  lemma NothingBegun(cfg: Config, instanceId: string)
    ensures RunOf(cfg, Initial(instanceId), []).pending == map[]
  {
  }

  // ------------------------------------------------------------------ what is handed out

  /** The finished refresh was begun by the client that the presented row names, with a token that could be rotated to this
      one, and a response could be made for it. */
  ghost predicate EarnedByRefresh(cfg: Config, instanceId: string, events: seq<Event>, e: Event, raw: string) {
    e.FinishRefresh? && e.signs && exists i, t, clientId, at ::
      RotatesAt(cfg, instanceId, events, i, e.op, t, raw, clientId, at) && MayHave(cfg, t, clientId)
  }

  /** The issued root belongs to a code that was redeemed by its client, at its redirect, with its verifier, and the store
      took it as the row of that code's grant. */
  ghost predicate EarnedByCode(cfg: Config, instanceId: string, events: seq<Event>, e: Event, raw: string) {
    e.IssueTokens? && raw == "rt." + e.family + "." + e.random && !e.fault.ThrowsBefore? && !e.fault.ThrowsAfter?
    && exists i, c, at :: RedeemsAt(cfg, instanceId, events, i, e.op, c, at)
         && RootTaken(cfg, Before(cfg, instanceId, events, |events|), e, c, at)
  }

  predicate RootTaken(cfg: Config, sys: System, e: Event, c: AuthCode, at: int)
    requires e.IssueTokens?
  {
    var raw := "rt." + e.family + "." + e.random;
    CanSave(cfg, sys.store, c, e.family, raw) && Rooted(cfg, sys.store, Step(cfg, sys, e).store, c, e.family, Sha256(raw), at)
  }

  ghost predicate EarnedAt(cfg: Config, instanceId: string, events: seq<Event>, j: int, raw: string) {
    && 0 <= j < |events|
    && (EarnedByRefresh(cfg, instanceId, events[..j], events[j], raw) || EarnedByCode(cfg, instanceId, events[..j], events[j], raw))
  }

  lemma FinishDelivers(cfg: Config, sys: System, e: Event, raw: string)
    requires e.FinishRefresh? && raw in DoFinishRefresh(cfg, sys, e).returned && raw !in sys.returned
    ensures e.op in sys.pending && sys.pending[e.op].Refreshing? && sys.pending[e.op].successor == raw && e.signs
    ensures RefreshChecks(cfg, sys.pending[e.op])
  {
    hide RefreshChecks;
  }

  lemma FinishIsEarned(cfg: Config, instanceId: string, events: seq<Event>, e: Event, raw: string)
    requires e.FinishRefresh?
    requires var sys := RunOf(cfg, Initial(instanceId), events); raw in Step(cfg, sys, e).returned && raw !in sys.returned
    ensures EarnedByRefresh(cfg, instanceId, events, e, raw)
  {
    hide DoFinishRefresh, Before, RunOf, ClockFits, IsTokenOf, RefreshChecks, MayHave, CanBind;
    var sys := RunOf(cfg, Initial(instanceId), events);
    FinishDelivers(cfg, sys, e, raw);
    EveryRequestWasBegun(cfg, instanceId, events, e.op);
    var p := sys.pending[e.op];
    var i :| RotatesAt(cfg, instanceId, events, i, e.op, p.rotated, p.successor, p.clientId, p.at);
    ChecksFollow(cfg, p.rotated, p.successor, p.clientId, p.familyId, p.at);
  }

  lemma IssueDelivers(cfg: Config, sys: System, e: Event, raw: string)
    requires e.IssueTokens? && raw in DoIssueTokens(cfg, sys, e).returned && raw !in sys.returned
    ensures e.op in sys.pending && sys.pending[e.op].Redeeming? && raw == GenerateRefreshToken(e.family, e.random)
    ensures !e.fault.ThrowsBefore? && !e.fault.ThrowsAfter?
    ensures var out := DoSaveToken(sys.store, RootOf(cfg, sys.pending[e.op].code, sys.pending[e.op].at, raw, e.family));
      !out.answer.Thrown? && DoIssueTokens(cfg, sys, e).store == out.store
  {
    hide DoSaveToken, GenerateRefreshToken, RootWrite;
  }

  lemma AcceptedWhileOpen(s: Store, w: TokenWrite)
    requires !DoSaveToken(s, w).answer.Thrown?
    ensures !s.closed
  {
  }

  lemma IssueIsEarned(cfg: Config, instanceId: string, events: seq<Event>, e: Event, raw: string)
    requires e.IssueTokens?
    requires var sys := RunOf(cfg, Initial(instanceId), events); raw in Step(cfg, sys, e).returned && raw !in sys.returned
    ensures EarnedByCode(cfg, instanceId, events, e, raw)
  {
    hide DoIssueTokens, DoSaveToken, RunOf, ClockFits, CanSave, Rooted, GenerateRefreshToken, ScopesStand, ValidSubject, RootOf;
    var sys := RunOf(cfg, Initial(instanceId), events);
    assert events[..|events|] == events;
    IssueDelivers(cfg, sys, e, raw);
    EveryRequestWasBegun(cfg, instanceId, events, e.op);
    var c, at := sys.pending[e.op].code, sys.pending[e.op].at;
    var i :| RedeemsAt(cfg, instanceId, events, i, e.op, c, at);
    SuccessorText(e.family, e.random);
    AcceptedWhileOpen(sys.store, RootOf(cfg, c, at, raw, e.family));
    RootFollows(cfg, sys.store, c, e.family, raw, at);
    assert RootTaken(cfg, sys, e, c, at);
  }

  /** In every interleaving, every refresh token a client was given was earned: by the client that its predecessor's row
      names, or by a code's client at its redirect with its verifier. */
  lemma {:induction false} EveryTokenWasEarned(cfg: Config, instanceId: string, events: seq<Event>, raw: string)
    requires raw in RunOf(cfg, Initial(instanceId), events).returned
    ensures exists j :: EarnedAt(cfg, instanceId, events, j, raw)
    decreases |events|
  {
    hide Step, RunOf, EarnedByRefresh, EarnedByCode;
    if events == [] {
      NothingReturned(cfg, instanceId);
    } else {
      var before, e := events[..|events| - 1], events[|events| - 1];
      var sys := RunOf(cfg, Initial(instanceId), before);
      assert events == before + [e];
      RunOfLast(cfg, Initial(instanceId), before, e);
      if raw in sys.returned {
        EveryTokenWasEarned(cfg, instanceId, before, raw);
        var j :| EarnedAt(cfg, instanceId, before, j, raw);
        assert before[..j] == events[..j];
        assert EarnedAt(cfg, instanceId, events, j, raw);
      } else {
        StepIsFramed(cfg, sys, e);
        if e.FinishRefresh? { FinishIsEarned(cfg, instanceId, before, e, raw); } else { IssueIsEarned(cfg, instanceId, before, e, raw); }
        assert EarnedAt(cfg, instanceId, events, |before|, raw);
      }
    }
  }

  lemma NothingReturned(cfg: Config, instanceId: string)
    ensures RunOf(cfg, Initial(instanceId), []).returned == {} && RunOf(cfg, Initial(instanceId), []).approvals == map[]
  {
  }

  /** The commit of a consent that was checked and read for in this request: before its expiry, on a clock that did not go
      back, for the store's instance, and the code's row carries what was read. */
  ghost predicate ApprovedBy(cfg: Config, instanceId: string, events: seq<Event>, e: Event, h: Digest) {
    e.ApproveCommit? && h == Sha256(e.code) && exists i, j, c, list, at ::
      && ChecksAt(cfg, instanceId, events, i, e.op, c, at) && ReadsAt(cfg, instanceId, events, j, e.op, c, list, at)
      && CommitTaken(cfg, Before(cfg, instanceId, events, |events|), e, c, list, at)
  }

  predicate CommitTaken(cfg: Config, sys: System, e: Event, c: Consent, list: seq<string>, at: int)
    requires e.ApproveCommit?
  {
    var after, h := Step(cfg, sys, e), Sha256(e.code);
    && at <= e.now < c.expiresAt && CanonicalTime(e.now) && CanonicalTime(e.now + cfg.codeTtlMs)
    && c.instanceId == sys.store.instanceId && c.jti !in sys.store.jtis
    && after.store.jtis == sys.store.jtis[c.jti := c.expiresAt]
    && after.approvals == sys.approvals[h := c]
    && after.store.codes == sys.store.codes[h := AuthCode(h, c.clientId, c.subject, c.redirectUri, c.resource, list, c.codeChallenge,
                                                          e.now + cfg.codeTtlMs, if cfg.storedDcr then Some(1) else None)]
  }

  lemma CommitApproves(cfg: Config, sys: System, e: Event)
    requires e.ApproveCommit? && DoApproveCommit(cfg, sys, e).approvals != sys.approvals
    ensures e.op in sys.pending && sys.pending[e.op].Approving?
    ensures var p := sys.pending[e.op]; CommitTaken(cfg, sys, e, p.consent, p.scopes, p.startedAt)
  {
    hide DoCommitApproval;
    var p := sys.pending[e.op];
    BoundForThisInstance(sys.store, p.consent.instanceId, p.consent.jti, p.consent.expiresAt, CodeOf(cfg, p, e.code, e.now));
    CommitFollows(cfg, sys.store, p.consent, p.scopes, p.startedAt, e.now, e.code);
  }

  lemma BoundForThisInstance(s: Store, i: string, jti: string, e: int, code: CodeWrite)
    ensures DoCommitApproval(s, i, jti, e, code).answer == Commit(Stored) ==> i == s.instanceId
  {
  }

  /** In every interleaving, every approval was checked, read for and committed by one request, and its code carries the
      consent's grant: the scopes of the consent and of the grants before it that its ceiling allows. */
  lemma {:induction false} EveryApprovalWasConsented(cfg: Config, instanceId: string, events: seq<Event>, h: Digest)
    requires h in RunOf(cfg, Initial(instanceId), events).approvals
    ensures exists j :: 0 <= j < |events| && ApprovedBy(cfg, instanceId, events[..j], events[j], h)
    decreases |events|
  {
    hide Step, RunOf, ApprovedBy;
    if events == [] {
      NothingReturned(cfg, instanceId);
    } else {
      var before, e := events[..|events| - 1], events[|events| - 1];
      var sys := RunOf(cfg, Initial(instanceId), before);
      assert events == before + [e];
      RunOfLast(cfg, Initial(instanceId), before, e);
      StepIsFramed(cfg, sys, e);
      if h in sys.approvals {
        EveryApprovalWasConsented(cfg, instanceId, before, h);
        var j :| 0 <= j < |before| && ApprovedBy(cfg, instanceId, before[..j], before[j], h);
        assert before[..j] == events[..j] && before[j] == events[j];
      } else {
        CommitIsConsented(cfg, instanceId, before, e, h);
        assert events[..|before|] == before;
      }
    }
  }

  lemma CommitIsConsented(cfg: Config, instanceId: string, events: seq<Event>, e: Event, h: Digest)
    requires e.ApproveCommit?
    requires var sys := RunOf(cfg, Initial(instanceId), events); h in Step(cfg, sys, e).approvals && h !in sys.approvals
    ensures ApprovedBy(cfg, instanceId, events, e, h)
  {
    hide RunOf, DoApproveCommit, CommitTaken, Checks, Reads;
    var sys := RunOf(cfg, Initial(instanceId), events);
    assert events[..|events|] == events;
    CommitApproves(cfg, sys, e);
    CommittedKey(cfg, sys, e, h);
    EveryRequestWasBegun(cfg, instanceId, events, e.op);
    var p := sys.pending[e.op];
    var i :| ChecksAt(cfg, instanceId, events, i, e.op, p.consent, p.startedAt);
    var j :| ReadsAt(cfg, instanceId, events, j, e.op, p.consent, p.scopes, p.startedAt);
  }

  lemma CommittedKey(cfg: Config, sys: System, e: Event, h: Digest)
    requires e.ApproveCommit? && h in DoApproveCommit(cfg, sys, e).approvals && h !in sys.approvals
    ensures h == Sha256(e.code)
  {
    hide DoCommitApproval, CommitReached;
  }
}
