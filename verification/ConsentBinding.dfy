/** A consent is good for the store instance it was signed for and for no other. */
module ConsentBinding {
  import opened Prelude
  import opened GrantStore
  import opened GrantSystem
  import opened RefreshText
  import opened GrantSteps
  import opened GrantAccounting

  predicate NeverRebound(events: seq<Event>, instanceId: string) {
    forall i :: 0 <= i < |events| && events[i].Rebind? ==> events[i].instanceId != instanceId
  }

  lemma CallKeepsInstance(s: Store, op: Op)
    ensures Apply(s, op).store.instanceId == s.instanceId || (op.RebindInstance? && Apply(s, op).store.instanceId == op.instanceId)
  {
  }

  lemma OnlyRebindRebinds(cfg: Config, sys: System, e: Event)
    ensures var call := CallOf(cfg, sys, e);
      call.Some? && call.value.RebindInstance? ==> e.Rebind? && call.value.instanceId == e.instanceId
  {
    hide GenerateRefreshToken, ParseRefreshFamilyId, UsableClock, CommitReached;
  }

  lemma CommitIsForThisInstance(cfg: Config, sys: System, e: Event, h: Digest)
    requires e.ApproveCommit? && h in DoApproveCommit(cfg, sys, e).approvals
    ensures var after := DoApproveCommit(cfg, sys, e).approvals;
      (h in sys.approvals && after[h] == sys.approvals[h]) || after[h].instanceId == sys.store.instanceId
  {
  }

  lemma StepKeepsRebound(cfg: Config, sys: System, e: Event, c: Consent)
    requires sys.store.instanceId != c.instanceId && (e.Rebind? ==> e.instanceId != c.instanceId)
    ensures Step(cfg, sys, e).store.instanceId != c.instanceId
  {
    hide Step, CallOf, Apply;
    OneCallPerStep(cfg, sys, e);
    OnlyRebindRebinds(cfg, sys, e);
    if CallOf(cfg, sys, e).Some? { CallKeepsInstance(sys.store, CallOf(cfg, sys, e).value); }
  }

  /** Only a commit for the current instance approves. */
  lemma StepApprovesForThisInstance(cfg: Config, sys: System, e: Event, h: Digest)
    requires h in Step(cfg, sys, e).approvals
    ensures var sys' := Step(cfg, sys, e);
      ((h in sys.approvals && sys'.approvals[h] == sys.approvals[h]) || sys'.approvals[h].instanceId == sys.store.instanceId)
  {
    hide DoApproveCheck, DoApproveRead, DoRedeem, DoApproveCommit, DoIssueTokens, DoRotateToken, DoPrepare, DoFinishRefresh, DoCompensate,
      DoRevokeLookup, DoRevokeCommit, DoAbandon, DoSweep, DoRebind, DoConsumeJti, CallOf, Apply;
    if e.ApproveCommit? { CommitIsForThisInstance(cfg, sys, e, h); } else { ApprovalHistory(cfg, sys, e); }
  }

  /** Once the store has been rebound, a consent signed for another instance is never approved, in any run that
      does not bring its instance back. */
  lemma {:induction false} RebindingEndsConsents(cfg: Config, sys: System, events: seq<Event>, c: Consent, h: Digest)
    requires sys.store.instanceId != c.instanceId && NeverRebound(events, c.instanceId)
    requires h in RunOf(cfg, sys, events).approvals && RunOf(cfg, sys, events).approvals[h] == c
    ensures h in sys.approvals && sys.approvals[h] == c
    decreases |events|
  {
    if events != [] {
      hide Step;
      StepKeepsRebound(cfg, sys, events[0], c);
      RebindingEndsConsents(cfg, Step(cfg, sys, events[0]), events[1..], c, h);
      StepApprovesForThisInstance(cfg, sys, events[0], h);
    }
  }
}
