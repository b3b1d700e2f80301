/** How many grants there can be: one code for an approved consent, one family
    for a code, one live token for a family. */
module GrantAccounting {
  import opened Prelude
  import opened GrantStore
  import opened StoreInvariant
  import opened FamilyChains
  import opened ConsentJti
  import opened RefreshText
  import opened GrantSystem
  import opened GrantSteps

  type Approvals = map<Digest, Consent>
  type Stages = map<Digest, Stage>

  predicate IsAt(stage: Stages, h: Digest, at: Stage) {
    h in stage && stage[h] == at
  }

  /** Every code is in exactly one place: stored, held by one request, or behind one family. */
  predicate CodesPlaced(codes: map<Digest, AuthCode>, stage: Stages) {
    forall h :: h in codes ==> IsAt(stage, h, InStore)
  }

  predicate HeldPlaced(pending: map<nat, Pending>, stage: Stages) {
    forall op :: op in pending && pending[op].Redeeming? ==> IsAt(stage, pending[op].code.codeHash, HeldBy(op))
  }

  predicate FamiliesPlaced(origin: map<string, Digest>, stage: Stages) {
    forall f :: f in origin ==> IsAt(stage, origin[f], IssuedTo(f))
  }

  predicate Placed(sys: System) {
    && CodesPlaced(sys.store.codes, sys.stage)
    && HeldPlaced(sys.pending, sys.stage)
    && FamiliesPlaced(sys.origin, sys.stage)
    && sys.stage.Keys <= sys.approvals.Keys
  }

  predicate SignedOnce(signed: set<Consent>) {
    forall c, d :: c in signed && d in signed && c.jti == d.jti ==> c == d
  }

  predicate ApprovingSigned(pending: map<nat, Pending>, signed: set<Consent>) {
    forall op :: op in pending && (pending[op].Checked? || pending[op].Approving?) ==> pending[op].consent in signed
  }

  /** Each approved consent was signed, is spent, and was approved once. */
  predicate ApprovedOnce(ap: Approvals, signed: set<Consent>, s: Store) {
    && (forall h :: h in ap ==> ap[h] in signed && Spent(s, ap[h].jti, ap[h].expiresAt))
    && (forall h, k :: h in ap && k in ap && ap[h].jti == ap[k].jti ==> h == k)
  }

  predicate Accounted(sys: System) {
    && Placed(sys)
    && SignedOnce(sys.signed) && ApprovingSigned(sys.pending, sys.signed)
    && ApprovedOnce(sys.approvals, sys.signed, sys.store)
  }

  // ----------------------------------------------------------------------- steps

  /** Spent is forever, whatever is called. */
  lemma SpentStays(s: Store, op: Op, jti: string, e: int)
    requires Spent(s, jti, e)
    ensures Spent(Apply(s, op).store, jti, e)
  {
    if op.SaveToken? || op.Rotate? || op.Revoke? { TokenOpsKeepJtis(s, op); }
  }

  lemma SpentStaysForAll(ap: Approvals, signed: set<Consent>, s: Store, op: Op)
    requires ApprovedOnce(ap, signed, s)
    ensures ApprovedOnce(ap, signed, Apply(s, op).store)
  {
    hide Apply, Spent;
    forall h | h in ap ensures Spent(Apply(s, op).store, ap[h].jti, ap[h].expiresAt) {
      SpentStays(s, op, ap[h].jti, ap[h].expiresAt);
    }
  }

  /** A consent the store accepts was not approved before. */
  lemma AcceptedWasUnapproved(ap: Approvals, signed: set<Consent>, s: Store, c: Consent, code: CodeWrite, h: Digest)
    requires ApprovedOnce(ap, signed, s) && SignedOnce(signed) && c in signed && h !in ap
    requires DoCommitApproval(s, c.instanceId, c.jti, c.expiresAt, code).answer == Commit(Stored)
    ensures ApprovedOnce(ap[h := c], signed, DoCommitApproval(s, c.instanceId, c.jti, c.expiresAt, code).store)
  {
    var op := CommitApproval(c.instanceId, c.jti, c.expiresAt, code);
    SpentStaysForAll(ap, signed, s, op);
    forall k | k in ap ensures ap[k].jti != c.jti {
      assert Spent(s, ap[k].jti, ap[k].expiresAt);
    }
  }

  lemma ApprovalHistory(cfg: Config, sys: System, e: Event)
    requires !e.ApproveCommit?
    ensures Step(cfg, sys, e).approvals == sys.approvals
    ensures e.Prepare? || Step(cfg, sys, e).signed == sys.signed
  {
    hide Step;
    StepIsFramed(cfg, sys, e);
  }

  lemma PrepareSignsOnce(cfg: Config, sys: System, e: Event)
    requires SignedOnce(sys.signed) && e.Prepare? && Fresh(sys, e)
    ensures SignedOnce(DoPrepare(cfg, sys, e).signed) && sys.signed <= DoPrepare(cfg, sys, e).signed
    ensures DoPrepare(cfg, sys, e).pending == sys.pending
  {
  }

  lemma CommitApprovesOnce(cfg: Config, sys: System, e: Event)
    requires Accounted(sys) && e.ApproveCommit? && Fresh(sys, e)
    ensures var sys' := DoApproveCommit(cfg, sys, e);
      ApprovedOnce(sys'.approvals, sys'.signed, sys'.store) && sys'.signed == sys.signed
  {
    hide DoCommitApproval, Spent;
    if e.op in sys.pending && sys.pending[e.op].Approving? && CommitReached(cfg, sys.pending[e.op], e.now) {
      var p := sys.pending[e.op];
      var code := CodeOf(cfg, p, e.code, e.now);
      var c := p.consent;
      SpentStaysForAll(sys.approvals, sys.signed, sys.store, CommitApproval(c.instanceId, c.jti, c.expiresAt, code));
      if DoCommitApproval(sys.store, c.instanceId, c.jti, c.expiresAt, code).answer == Commit(Stored) {
        AcceptedWasUnapproved(sys.approvals, sys.signed, sys.store, c, code, Sha256(e.code));
      }
    }
  }

  lemma ApprovingStaysSigned(cfg: Config, sys: System, e: Event)
    requires ApprovingSigned(sys.pending, sys.signed)
    ensures ApprovingSigned(Step(cfg, sys, e).pending, sys.signed)
  {
    hide DoPrepare, DoApproveCheck, DoApproveRead, DoApproveCommit, DoRedeem, DoIssueTokens, DoAbandon, DoRotateToken, DoFinishRefresh,
      DoCompensate, DoRevokeLookup, DoRevokeCommit, DoSweep, DoRebind, DoConsumeJti;
    StepIsFramed(cfg, sys, e);
    if e.ApproveCheck? || e.ApproveRead? {
      ApprovalStaysSigned(cfg, sys, e);
    } else {
      var after := Step(cfg, sys, e).pending;
      forall op | op in after && (after[op].Checked? || after[op].Approving?) ensures after[op].consent in sys.signed {
        RequestStands(cfg, sys, e, op);
      }
    }
  }

  lemma ApprovalStaysSigned(cfg: Config, sys: System, e: Event)
    requires ApprovingSigned(sys.pending, sys.signed) && (e.ApproveCheck? || e.ApproveRead?)
    ensures ApprovingSigned((if e.ApproveCheck? then DoApproveCheck(cfg, sys, e) else DoApproveRead(cfg, sys, e)).pending, sys.signed)
  {
    hide PriorScopes, ApprovedScopes;
  }

  lemma ApprovedOnceGrows(ap: Approvals, signed: set<Consent>, signed': set<Consent>, s: Store)
    requires ApprovedOnce(ap, signed, s) && signed <= signed'
    ensures ApprovedOnce(ap, signed', s)
  {
  }

  lemma StepApprovesOnce(cfg: Config, sys: System, e: Event)
    requires Accounted(sys) && Fresh(sys, e)
    ensures var sys' := Step(cfg, sys, e);
      SignedOnce(sys'.signed) && ApprovingSigned(sys'.pending, sys'.signed) && ApprovedOnce(sys'.approvals, sys'.signed, sys'.store)
  {
    hide DoApproveCheck, DoApproveRead, DoRedeem, DoApproveCommit, DoIssueTokens, DoRotateToken, DoPrepare, DoFinishRefresh, DoCompensate,
      DoRevokeLookup, DoRevokeCommit, DoAbandon, DoSweep, DoRebind, DoConsumeJti, ApprovedOnce, SignedOnce, CallOf, Apply, Placed;
    ApprovingStaysSigned(cfg, sys, e);
    if e.ApproveCommit? {
      CommitApprovesOnce(cfg, sys, e);
    } else {
      ApprovalHistory(cfg, sys, e);
      OneCallPerStep(cfg, sys, e);
      if e.Prepare? { PrepareSignsOnce(cfg, sys, e); }
      var call := CallOf(cfg, sys, e);
      if call.Some? { SpentStaysForAll(sys.approvals, sys.signed, sys.store, call.value); }
      ApprovedOnceGrows(sys.approvals, sys.signed, Step(cfg, sys, e).signed, Step(cfg, sys, e).store);
    }
  }

  /** A token call leaves the codes as they are, a sweep only removes some. */
  lemma CodesAfterCall(s: Store, op: Op)
    requires !op.CommitApproval? && !op.SaveCode?
    ensures Apply(s, op).store.codes.Keys <= s.codes.Keys
  {
    if op.Rotate? { RotateKeepsCodes(s, op.hash, op.next, op.now, op.generation, op.resource); }
  }

  lemma CommitKeepsPlaced(cfg: Config, sys: System, e: Event)
    requires Placed(sys) && e.ApproveCommit? && Fresh(sys, e)
    ensures Placed(DoApproveCommit(cfg, sys, e))
  {
    hide DoCommitApproval, CommitReached, Placed;
    if e.op in sys.pending && sys.pending[e.op].Approving? && CommitReached(cfg, sys.pending[e.op], e.now) {
      var p := sys.pending[e.op];
      var c, code := p.consent, CodeOf(cfg, p, e.code, e.now);
      CommittedCodes(sys.store, c.instanceId, c.jti, c.expiresAt, code);
      NewCodeIsPlaced(sys, e.op, Sha256(e.code), c, code, DoCommitApproval(sys.store, c.instanceId, c.jti, c.expiresAt, code).store);
    }
    DroppedIsPlaced(sys, e.op);
  }

  lemma CommittedCodes(s: Store, i: string, jti: string, e: int, code: CodeWrite)
    ensures var out := DoCommitApproval(s, i, jti, e, code);
      if out.answer == Commit(Stored) then out.store.codes == s.codes[code.row.codeHash := StoredCode(code)] else out.store.codes == s.codes
  {
  }

  lemma DroppedIsPlaced(sys: System, op: nat)
    requires Placed(sys)
    ensures Placed(sys.(pending := Drop(sys.pending, op)))
  {
  }

  lemma NewCodeIsPlaced(sys: System, op: nat, h: Digest, c: Consent, code: CodeWrite, after: Store)
    requires Placed(sys) && h !in sys.approvals && code.row.codeHash == h
    ensures after.codes == sys.store.codes ==> Placed(sys.(store := after, pending := Drop(sys.pending, op)))
    ensures after.codes == sys.store.codes[h := StoredCode(code)] ==>
      Placed(sys.(store := after, pending := Drop(sys.pending, op), approvals := sys.approvals[h := c], stage := sys.stage[h := InStore]))
  {
  }

  lemma RedeemKeepsPlaced(cfg: Config, sys: System, e: Event)
    requires Placed(sys) && CodesOk(sys.store.codes) && e.Redeem?
    ensures Placed(DoRedeem(cfg, sys, e))
  {
    hide RedeemChecks, UsableClock, DoConsumeCode, ValidSubject;
    var h := Sha256(e.code);
    ConsumeFacts(sys.store, h, e.now, ExpectedGeneration(cfg), Some(cfg.resource));
    assert h in sys.store.codes ==> IsAt(sys.stage, h, InStore) && sys.store.codes[h].codeHash == h;
    hide CodesOk;
  }

  lemma ConsumeFacts(s: Store, h: Digest, now: int, g: Option<int>, r: Option<string>)
    ensures var out := DoConsumeCode(s, h, now, g, r);
      && (out.store.codes == s.codes || (h in s.codes && out.store.codes == s.codes - {h}))
      && (out.answer.CodeRow? && out.answer.code.Some? ==>
            h in s.codes && out.store.codes == s.codes - {h} && out.answer.code.value == s.codes[h])
  {
  }

  lemma SaveKeepsCodes(s: Store, w: TokenWrite)
    ensures DoSaveToken(s, w).store.codes == s.codes
  {
  }

  lemma IssueKeepsPlaced(cfg: Config, sys: System, e: Event)
    requires Placed(sys) && e.IssueTokens? && Fresh(sys, e)
    ensures Placed(DoIssueTokens(cfg, sys, e))
  {
    hide DoSaveToken, RootWrite, GenerateRefreshToken, IsFamilyId, IsBase64UrlText;
    if e.op in sys.pending && sys.pending[e.op].Redeeming? {
      var p := sys.pending[e.op];
      assert IsAt(sys.stage, p.code.codeHash, HeldBy(e.op));
      SaveKeepsCodes(sys.store, RootWrite(cfg, p, GenerateRefreshToken(e.family, e.random), e.family));
    }
  }

  lemma AbandonKeepsPlaced(sys: System, e: Event)
    requires Placed(sys) && e.Abandon?
    ensures Placed(DoAbandon(sys, e))
  {
    if e.op in sys.pending && sys.pending[e.op].Redeeming? {
      assert IsAt(sys.stage, sys.pending[e.op].code.codeHash, HeldBy(e.op));
    }
  }

  /** The other steps leave the history of codes and families alone, */
  lemma OthersKeepHistory(cfg: Config, sys: System, e: Event)
    requires !e.ApproveCommit? && !e.Redeem? && !e.IssueTokens? && !e.Abandon?
    ensures var sys' := Step(cfg, sys, e);
      sys'.stage == sys.stage && sys'.origin == sys.origin && sys'.approvals == sys.approvals
  {
    hide Step;
    StepIsFramed(cfg, sys, e);
  }

  /** and leave every held code with its request. */
  lemma OthersMoveNoCode(cfg: Config, sys: System, e: Event)
    requires HeldPlaced(sys.pending, sys.stage) && !e.ApproveCommit? && !e.Redeem? && !e.IssueTokens? && !e.Abandon?
    ensures HeldPlaced(Step(cfg, sys, e).pending, sys.stage)
  {
    hide Step;
    StepIsFramed(cfg, sys, e);
    var after := Step(cfg, sys, e).pending;
    forall op | op in after && after[op].Redeeming? ensures op in sys.pending && after[op] == sys.pending[op] {
      RequestStands(cfg, sys, e, op);
    }
  }

  lemma StepKeepsPlaced(cfg: Config, sys: System, e: Event)
    requires Placed(sys) && Base(sys) && Fresh(sys, e)
    ensures Placed(Step(cfg, sys, e))
  {
    hide DoApproveCheck, DoApproveRead, DoRedeem, DoApproveCommit, DoIssueTokens, DoRotateToken, DoPrepare, DoFinishRefresh, DoCompensate,
      DoRevokeLookup, DoRevokeCommit, DoAbandon, DoSweep, DoRebind, DoConsumeJti, CallOf, Apply, Chained;
    match e
    case ApproveCommit(_, _, _) => CommitKeepsPlaced(cfg, sys, e);
    case Redeem(_, _, _, _, _, _) => RedeemKeepsPlaced(cfg, sys, e);
    case IssueTokens(_, _, _, _) => IssueKeepsPlaced(cfg, sys, e);
    case Abandon(_) => AbandonKeepsPlaced(sys, e);
    case _ =>
      OthersKeepHistory(cfg, sys, e);
      OthersMoveNoCode(cfg, sys, e);
      OneCallPerStep(cfg, sys, e);
      var call := CallOf(cfg, sys, e);
      if call.Some? {
        CallShapes(cfg, sys, e);
        NoCommitElsewhere(cfg, sys, e);
        CodesAfterCall(sys.store, call.value);
      }
  }

  lemma NoCommitElsewhere(cfg: Config, sys: System, e: Event)
    requires !e.ApproveCommit? && CallOf(cfg, sys, e).Some?
    ensures !CallOf(cfg, sys, e).value.CommitApproval?
  {
    hide DoCommitApproval, DoConsumeCode, DoSaveToken, DoRotate, DoRevoke, DoSweep, DoFindGranted, DoFindToken, Step;
  }

  lemma {:induction false} RunKeepsAccounts(cfg: Config, sys: System, events: seq<Event>)
    requires Base(sys) && Accounted(sys) && FreshRun(cfg, sys, events)
    ensures Base(RunOf(cfg, sys, events)) && Accounted(RunOf(cfg, sys, events))
    decreases |events|
  {
    hide Step, Base, Placed, Fresh, FreshRun, SignedOnce, ApprovingSigned, ApprovedOnce;
    if events != [] {
      FreshHeadAndTail(cfg, sys, events);
      StepKeepsBase(cfg, sys, events[0]);
      StepKeepsPlaced(cfg, sys, events[0]);
      StepApprovesOnce(cfg, sys, events[0]);
      RunKeepsAccounts(cfg, Step(cfg, sys, events[0]), events[1..]);
    }
  }

  // ------------------------------------------------------------------- redemption

  /** The step redeems the code: its request takes the record out of the store. */
  predicate Redeems(cfg: Config, sys: System, e: Event, h: Digest) {
    && e.Redeem? && h == Sha256(e.code) && e.op !in sys.pending && UsableClock(cfg, e.now) && e.code != ""
    && var answer := DoConsumeCode(sys.store, h, e.now, ExpectedGeneration(cfg), Some(cfg.resource)).answer;
      answer.CodeRow? && answer.code.Some?
  }

  /** How often a run redeems the code. */
  function Redemptions(cfg: Config, sys: System, events: seq<Event>, h: Digest): nat
    decreases |events|
  {
    if events == [] then 0
    else (if Redeems(cfg, sys, events[0], h) then 1 else 0) + Redemptions(cfg, Step(cfg, sys, events[0]), events[1..], h)
  }

  /** The code was handed out and is gone from the store. */
  predicate Used(sys: System, h: Digest) {
    h in sys.approvals && h !in sys.store.codes
  }

  lemma CommitKeepsApprovals(cfg: Config, sys: System, e: Event)
    requires e.ApproveCommit?
    ensures DoApproveCommit(cfg, sys, e).approvals.Keys >= sys.approvals.Keys
    ensures CallOf(cfg, sys, e).Some? ==>
      CallOf(cfg, sys, e).value.CommitApproval? && CallOf(cfg, sys, e).value.code.row.codeHash == Sha256(e.code)
  {
    hide DoCommitApproval, CommitReached;
  }

  lemma UsedStaysUsed(cfg: Config, sys: System, e: Event, h: Digest)
    requires Fresh(sys, e) && Used(sys, h)
    ensures Used(Step(cfg, sys, e), h)
  {
    hide DoApproveCheck, DoApproveRead, DoRedeem, DoApproveCommit, DoIssueTokens, DoRotateToken, DoPrepare, DoFinishRefresh, DoCompensate,
      DoRevokeLookup, DoRevokeCommit, DoAbandon, DoSweep, DoRebind, DoConsumeJti, CallOf, Apply;
    OneCallPerStep(cfg, sys, e);
    var call := CallOf(cfg, sys, e);
    if e.ApproveCommit? {
      CommitKeepsApprovals(cfg, sys, e);
    } else {
      ApprovalHistory(cfg, sys, e);
      if call.Some? { NoCommitElsewhere(cfg, sys, e); }
    }
    if call.Some? { CallKeepsCodeGone(cfg, sys, e, h); }
  }

  lemma CallKeepsCodeGone(cfg: Config, sys: System, e: Event, h: Digest)
    requires CallOf(cfg, sys, e).Some? && h !in sys.store.codes
    ensures var op := CallOf(cfg, sys, e).value;
      !(op.CommitApproval? && h == op.code.row.codeHash) ==> h !in Apply(sys.store, op).store.codes
  {
    hide Apply, UsableClock, CommitReached, GenerateRefreshToken, ParseRefreshFamilyId;
    var op := CallOf(cfg, sys, e).value;
    assert !op.SaveCode?;
    if h in Apply(sys.store, op).store.codes { CodesComeFrom(sys.store, op, h); }
  }

  lemma RedeemedIsUsed(cfg: Config, sys: System, e: Event, h: Digest)
    requires Placed(sys) && Redeems(cfg, sys, e, h)
    ensures h in sys.store.codes && Used(DoRedeem(cfg, sys, e), h)
  {
    ConsumeFacts(sys.store, h, e.now, ExpectedGeneration(cfg), Some(cfg.resource));
    assert h in sys.store.codes ==> IsAt(sys.stage, h, InStore);
    hide DoConsumeCode, RedeemChecks, UsableClock;
  }

  /** No code is redeemed twice, however requests interleave, are abandoned, or present it again. */
  lemma {:induction false} RedeemedAtMostOnce(cfg: Config, sys: System, events: seq<Event>, h: Digest)
    requires Base(sys) && Accounted(sys) && FreshRun(cfg, sys, events)
    ensures Redemptions(cfg, sys, events, h) <= 1
    ensures Used(sys, h) ==> Redemptions(cfg, sys, events, h) == 0
    decreases |events|
  {
    hide Base, Placed, Fresh, FreshRun, SignedOnce, ApprovingSigned, ApprovedOnce, Redeems, Used;
    if events != [] {
      var e := events[0];
      FreshHeadAndTail(cfg, sys, events);
      StepKeepsBase(cfg, sys, e);
      StepKeepsPlaced(cfg, sys, e);
      StepApprovesOnce(cfg, sys, e);
      if Redeems(cfg, sys, e, h) { RedeemedOnStep(cfg, sys, e, h); }
      if Used(sys, h) { UsedStaysUsed(cfg, sys, e, h); }
      hide Step;
      RedeemedAtMostOnce(cfg, Step(cfg, sys, e), events[1..], h);
    }
  }

  lemma RedeemedOnStep(cfg: Config, sys: System, e: Event, h: Digest)
    requires Placed(sys) && Redeems(cfg, sys, e, h)
    ensures !Used(sys, h) && Used(Step(cfg, sys, e), h)
  {
    hide DoRedeem, Placed;
    RedeemedIsUsed(cfg, sys, e, h);
  }

  // --------------------------------------------------------------------- counting

  predicate Injective<K(==), V(==)>(m: map<K, V>) {
    forall k, l :: k in m && l in m && m[k] == m[l] ==> k == l
  }

  /** An injective map is no larger than what it maps into. */
  lemma {:induction false} InjectiveFits<K, V>(m: map<K, V>, target: set<V>)
    requires Injective(m) && forall k :: k in m ==> m[k] in target
    ensures |m| <= |target|
    decreases |m|
  {
    if m != map[] {
      var k :| k in m;
      var rest := m - {k};
      assert m.Keys == rest.Keys + {k};
      assert |m.Keys| == |rest.Keys| + 1;
      InjectiveFits(rest, target - {m[k]});
    }
  }

  /** Unconsumed rows of unrevoked families. */
  function LiveRows(s: Store): set<Digest> {
    set h | h in s.tokens && s.tokens[h].consumedAt.None?
            && s.tokens[h].token.familyId in s.families && s.families[s.tokens[h].token.familyId].revokedAt.None? :: h
  }

  function ApprovedJtis(ap: Approvals): set<string> {
    set h | h in ap :: ap[h].jti
  }

  lemma LiveRowsFitFamilies(sys: System)
    requires Base(sys)
    ensures |LiveRows(sys.store)| <= |sys.origin|
  {
    hide Valid, Chained;
    var m := map h | h in LiveRows(sys.store) :: sys.store.tokens[h].token.familyId;
    forall h, k | h in m && k in m && m[h] == m[k] ensures h == k { OneLiveMember(sys.store, h, k); }
    InjectiveFits(m, sys.origin.Keys);
    assert m.Keys == LiveRows(sys.store);
  }

  lemma FamiliesFitApprovals(sys: System)
    requires Placed(sys)
    ensures Injective(sys.origin) && |sys.origin| <= |sys.approvals|
  {
    forall f, g | f in sys.origin && g in sys.origin && sys.origin[f] == sys.origin[g] ensures f == g {
      assert IsAt(sys.stage, sys.origin[f], IssuedTo(f)) && IsAt(sys.stage, sys.origin[g], IssuedTo(g));
    }
    forall f | f in sys.origin ensures sys.origin[f] in sys.approvals.Keys {
      assert IsAt(sys.stage, sys.origin[f], IssuedTo(f));
    }
    InjectiveFits(sys.origin, sys.approvals.Keys);
  }

  lemma ApprovalsFitConsents(sys: System)
    requires Accounted(sys)
    ensures |sys.approvals| <= |ApprovedJtis(sys.approvals)|
  {
    var m := map h | h in sys.approvals :: sys.approvals[h].jti;
    InjectiveFits(m, ApprovedJtis(sys.approvals));
    assert m.Keys == sys.approvals.Keys;
  }

  /** In every run: no code is redeemed twice or serves two families, no consent yields two codes,
      and the live refresh tokens never outnumber the consents approved. */
  lemma LiveTokensNeverOutnumberApprovals(cfg: Config, instanceId: string, events: seq<Event>)
    requires FreshRun(cfg, Initial(instanceId), events)
    ensures forall h :: Redemptions(cfg, Initial(instanceId), events, h) <= 1
    ensures var end := RunOf(cfg, Initial(instanceId), events);
      && Injective(end.origin)
      && (forall h, k :: h in end.approvals && k in end.approvals && end.approvals[h].jti == end.approvals[k].jti ==> h == k)
      && |LiveRows(end.store)| <= |end.origin| <= |end.approvals| <= |ApprovedJtis(end.approvals)|
  {
    hide Step;
    RunKeepsAccounts(cfg, Initial(instanceId), events);
    forall h ensures Redemptions(cfg, Initial(instanceId), events, h) <= 1 {
      RedeemedAtMostOnce(cfg, Initial(instanceId), events, h);
    }
    var end := RunOf(cfg, Initial(instanceId), events);
    LiveRowsFitFamilies(end);
    FamiliesFitApprovals(end);
    ApprovalsFitConsents(end);
  }
}
