/** How the steps of the grant lifecycle act on the store, and what every
    reachable system satisfies about its rows. */
module GrantSteps {
  import opened Prelude
  import opened Clock
  import opened GrantStore
  import opened StoreInvariant
  import opened FamilyChains
  import opened RefreshText
  import opened GrantSystem

  /** The one store call a step makes, if any. */
  function CallOf(cfg: Config, sys: System, e: Event): Option<Op> {
    match e
    case ApproveCommit(op, now, code) =>
      if op in sys.pending && sys.pending[op].Approving? && CommitReached(cfg, sys.pending[op], now) then
        var c := sys.pending[op].consent;
        Some(CommitApproval(c.instanceId, c.jti, c.expiresAt, CodeOf(cfg, sys.pending[op], code, now)))
      else None
    case Redeem(op, code, _, _, _, now) =>
      if op in sys.pending || !UsableClock(cfg, now) || code == "" then None
      else Some(ConsumeCode(Sha256(code), now, ExpectedGeneration(cfg), Some(cfg.resource)))
    case IssueTokens(op, family, random, fault) =>
      if op !in sys.pending || !sys.pending[op].Redeeming? || fault.ThrowsBefore? then None
      else Some(SaveToken(RootWrite(cfg, sys.pending[op], GenerateRefreshToken(family, random), family)))
    case RotateToken(op, raw, _, random, now, fault) =>
      var parsed := ParseRefreshFamilyId(raw);
      if op in sys.pending || !UsableClock(cfg, now) || parsed.None? || fault.ThrowsBefore? then None
      else Some(Rotate(Sha256(raw), NextWrite(cfg, e, parsed.value, GenerateRefreshToken(parsed.value, random)), now,
                       ExpectedGeneration(cfg), Some(cfg.resource)))
    case Compensate(op) =>
      if op !in sys.pending || !sys.pending[op].Compensating? then None
      else Some(Revoke(sys.pending[op].familyId, sys.pending[op].at, None))
    case RevokeCommit(op) =>
      if op !in sys.pending || !sys.pending[op].Revoking? then None
      else Some(Revoke(sys.pending[op].familyId, sys.pending[op].at, Some(cfg.resource)))
    case SweepRun(now) => Some(Sweep(now))
    case Rebind(id) => Some(RebindInstance(id))
    case FlowCallback(jti, exp) => Some(ConsumeJti(jti, exp))
    case _ => None
  }

  function AfterCall(s: Store, call: Option<Op>): Store {
    if call.None? then s else Apply(s, call.value).store
  }

  lemma RefusedSaveChangesNothing(s: Store, w: TokenWrite)
    ensures DoSaveToken(s, w).answer.Thrown? ==> DoSaveToken(s, w).store == s
  {
  }

  /** Every step is at most one atomic call on the store. */
  lemma OneCallPerStep(cfg: Config, sys: System, e: Event)
    ensures Step(cfg, sys, e).store == AfterCall(sys.store, CallOf(cfg, sys, e))
  {
    hide DoCommitApproval, DoConsumeCode, DoSaveToken, DoRotate, DoRevoke, DoSweep, DoFindGranted, DoFindToken;
    if e.IssueTokens? && e.op in sys.pending && sys.pending[e.op].Redeeming? {
      RefusedSaveChangesNothing(sys.store, RootWrite(cfg, sys.pending[e.op], GenerateRefreshToken(e.family, e.random), e.family));
    }
  }

  // ------------------------------------------------------- what a step leaves alone

  /** The requests other than `op` stand as they did. */
  predicate OnlyAt(pending: map<nat, Pending>, after: map<nat, Pending>, op: nat) {
    after - {op} == pending - {op}
  }

  /** The request is where this step finds it, or has not started yet. */
  predicate Ready(e: Event, pending: map<nat, Pending>) {
    match e
    case ApproveCheck(op, _, _) => op !in pending
    case Redeem(op, _, _, _, _, _) => op !in pending
    case RotateToken(op, _, _, _, _, _) => op !in pending
    case RevokeLookup(op, _, _) => op !in pending
    case ApproveRead(op) => op in pending && pending[op].Checked?
    case ApproveCommit(op, _, _) => op in pending && pending[op].Approving?
    case IssueTokens(op, _, _, _) => op in pending && pending[op].Redeeming?
    case FinishRefresh(op, _) => op in pending && pending[op].Refreshing?
    case Compensate(op) => op in pending && pending[op].Compensating?
    case RevokeCommit(op) => op in pending && pending[op].Revoking?
    case Abandon(op) => op in pending && !pending[op].Refreshing? && !pending[op].Compensating?
    case _ => false
  }

  /** A request that the step found ready is over, or is where the step leaves it. */
  predicate Advanced(e: Event, p: Pending) {
    || (e.ApproveCheck? && p.Checked?) || (e.ApproveRead? && p.Approving?)
    || (e.Redeem? && p.Redeeming?) || (e.RotateToken? && (p.Refreshing? || p.Compensating?))
    || (e.FinishRefresh? && p.Compensating?) || (e.RevokeLookup? && p.Revoking?)
  }

  predicate PendingFramed(e: Event, pending: map<nat, Pending>, after: map<nat, Pending>) {
    if !Ready(e, pending) then after == pending
    else OnlyAt(pending, after, e.op) && (e.op in after ==> Advanced(e, after[e.op]))
  }

  /** What a step of this kind may change beside the store. */
  predicate Framed(e: Event, sys: System, after: System) {
    && sys.drawn <= after.drawn && sys.returned <= after.returned && sys.stranded <= after.stranded
    && (e.Prepare? || after.signed == sys.signed)
    && (e.ApproveCommit? || after.approvals == sys.approvals)
    && (e.ApproveCommit? || e.Redeem? || e.IssueTokens? || e.Abandon? || after.stage == sys.stage)
    && (e.IssueTokens? || (after.origin == sys.origin && after.stranded == sys.stranded))
    && (e.IssueTokens? || e.RotateToken? || after.drawn == sys.drawn)
    && (e.IssueTokens? || e.FinishRefresh? || after.returned == sys.returned)
    && PendingFramed(e, sys.pending, after.pending)
  }

  lemma ConsentsAreFramed(cfg: Config, sys: System, e: Event)
    ensures e.Prepare? ==> Framed(e, sys, DoPrepare(cfg, sys, e))
    ensures e.ApproveCheck? ==> Framed(e, sys, DoApproveCheck(cfg, sys, e))
  {
    hide Narrow, CeilingOk, CanonicalTime, ReservedSubject;
  }

  lemma ApprovalsAreFramed(cfg: Config, sys: System, e: Event)
    ensures e.ApproveRead? ==> Framed(e, sys, DoApproveRead(cfg, sys, e))
    ensures e.ApproveCommit? ==> Framed(e, sys, DoApproveCommit(cfg, sys, e))
  {
    hide DoCommitApproval, PriorScopes, ApprovedScopes, CommitReached, CodeOf;
  }

  lemma RedemptionsAreFramed(cfg: Config, sys: System, e: Event)
    ensures e.Redeem? ==> Framed(e, sys, DoRedeem(cfg, sys, e))
  {
    hide DoConsumeCode, RedeemChecks, UsableClock;
  }

  lemma ExchangesAreFramed(cfg: Config, sys: System, e: Event)
    ensures e.IssueTokens? ==> Framed(e, sys, DoIssueTokens(cfg, sys, e))
    ensures e.Abandon? ==> Framed(e, sys, DoAbandon(sys, e))
  {
    hide DoSaveToken, RootWrite, GenerateRefreshToken;
  }

  lemma RotationsKeepOthers(cfg: Config, sys: System, e: Event)
    ensures e.RotateToken? ==> PendingFramed(e, sys.pending, DoRotateToken(cfg, sys, e).pending)
  {
    hide DoRotate, NextWrite, UsableClock, GenerateRefreshToken, ParseRefreshFamilyId, ExpectedGeneration;
  }

  lemma RotationsAreFramed(cfg: Config, sys: System, e: Event)
    ensures e.RotateToken? ==> Framed(e, sys, DoRotateToken(cfg, sys, e))
  {
    hide DoRotate, NextWrite, UsableClock, GenerateRefreshToken, ParseRefreshFamilyId, ExpectedGeneration, PendingFramed;
    RotationsKeepOthers(cfg, sys, e);
  }

  lemma RefreshesAreFramed(cfg: Config, sys: System, e: Event)
    ensures e.FinishRefresh? ==> Framed(e, sys, DoFinishRefresh(cfg, sys, e))
    ensures e.Compensate? ==> Framed(e, sys, DoCompensate(sys, e))
  {
    hide DoRevoke, RefreshChecks;
  }

  lemma RevocationsAreFramed(cfg: Config, sys: System, e: Event)
    ensures e.RevokeLookup? ==> Framed(e, sys, DoRevokeLookup(cfg, sys, e))
    ensures e.RevokeCommit? ==> Framed(e, sys, DoRevokeCommit(cfg, sys, e))
  {
    hide DoFindToken, DoRevoke, CanonicalTime;
  }

  /** Beside the store a step changes its own request and its own part of the history, and it only adds to what
      was drawn, returned and stranded. */
  lemma StepIsFramed(cfg: Config, sys: System, e: Event)
    ensures Framed(e, sys, Step(cfg, sys, e))
  {
    hide DoPrepare, DoApproveCheck, DoApproveRead, DoApproveCommit, DoRedeem, DoIssueTokens, DoAbandon, DoRotateToken, DoFinishRefresh,
      DoCompensate, DoRevokeLookup, DoRevokeCommit, DoSweep, DoRebind, DoConsumeJti;
    ConsentsAreFramed(cfg, sys, e);
    ApprovalsAreFramed(cfg, sys, e);
    RedemptionsAreFramed(cfg, sys, e);
    ExchangesAreFramed(cfg, sys, e);
    RotationsAreFramed(cfg, sys, e);
    RefreshesAreFramed(cfg, sys, e);
    RevocationsAreFramed(cfg, sys, e);
  }

  /** After a step a request stands as it did, or the step is its own and left it there. */
  lemma RequestStands(cfg: Config, sys: System, e: Event, op: nat)
    requires op in Step(cfg, sys, e).pending
    ensures var after := Step(cfg, sys, e).pending;
      (op in sys.pending && after[op] == sys.pending[op]) || (Ready(e, sys.pending) && op == e.op && Advanced(e, after[op]))
  {
    hide Step;
    StepIsFramed(cfg, sys, e);
    var after := Step(cfg, sys, e).pending;
    if Ready(e, sys.pending) && op != e.op {
      assert op in after - {e.op};
      assert (after - {e.op})[op] == (sys.pending - {e.op})[op];
    }
  }

  /** A step takes away no request but its own, and that only where it finds it ready. */
  lemma RequestRemains(cfg: Config, sys: System, e: Event, op: nat)
    requires op in sys.pending && !(Ready(e, sys.pending) && op == e.op)
    ensures op in Step(cfg, sys, e).pending && Step(cfg, sys, e).pending[op] == sys.pending[op]
  {
    hide Step;
    StepIsFramed(cfg, sys, e);
    var after := Step(cfg, sys, e).pending;
    if Ready(e, sys.pending) {
      assert op in sys.pending - {e.op};
      assert (after - {e.op})[op] == (sys.pending - {e.op})[op];
    }
  }

  // ------------------------------------------------------------ rows after a call

  /** A row of the later store was there before, or is a saved root, or is a
      successor that took its identity from the presented row. */
  predicate RowCameFrom(s: Store, op: Op, t: Token, h: Digest) {
    if h in s.tokens then t == s.tokens[h].token
    else
      || (op.SaveToken? && !DoSaveToken(s, op.write).answer.Thrown? && h == op.write.row.tokenHash && t == StoredRow(op.write))
      || (op.Rotate? && op.hash in s.tokens && h == op.next.row.tokenHash
          && op.next.row.familyId == s.tokens[op.hash].token.familyId
          && t == StoredRow(Successor(op.next, s.tokens[op.hash].token)))
  }

  lemma RotatedRowsCameFrom(s: Store, hash: Digest, next: TokenWrite, now: int, g: Option<int>, r: Option<string>, h: Digest)
    requires Valid(s) && h in DoRotate(s, hash, next, now, g, r).store.tokens
    ensures RowCameFrom(s, Rotate(hash, next, now, g, r), DoRotate(s, hash, next, now, g, r).store.tokens[h].token, h)
  {
    if !s.closed && RotationInput(hash, next, now) { RotationCannotHalfFail(s, hash, next, now, g, r); }
  }

  lemma RowsComeFrom(s: Store, op: Op, h: Digest)
    requires Valid(s) && h in Apply(s, op).store.tokens
    ensures RowCameFrom(s, op, Apply(s, op).store.tokens[h].token, h)
  {
    if op.Rotate? { RotatedRowsCameFrom(s, op.hash, op.next, op.now, op.generation, op.resource, h); }
  }

  /** A code of the later store was there before or was committed by this call. */
  lemma CodesComeFrom(s: Store, op: Op, h: Digest)
    requires h in Apply(s, op).store.codes && !op.SaveCode?
    ensures (h in s.codes && Apply(s, op).store.codes[h] == s.codes[h])
         || (op.CommitApproval? && h == op.code.row.codeHash && Apply(s, op).store.codes[h] == StoredCode(op.code)
             && Apply(s, op).answer == Commit(Stored))
  {
    if op.Rotate? { RotateKeepsCodes(s, op.hash, op.next, op.now, op.generation, op.resource); }
  }

  lemma RotateKeepsCodes(s: Store, hash: Digest, next: TokenWrite, now: int, g: Option<int>, r: Option<string>)
    ensures var s' := DoRotate(s, hash, next, now, g, r).store;
      s'.codes == s.codes && s'.closed == s.closed && s'.jtis == s.jtis && s'.sweptThrough == s.sweptThrough
  {
  }

  // ------------------------------------------------------------- the base invariant

  /** Every row carries, in the text behind its hash, the id of its family, and
      that text was drawn in this run. */
  predicate RowsNameFamily(tokens: map<Digest, StoredToken>, drawn: set<string>) {
    forall h :: h in tokens ==> h.Sha256? && h.raw in drawn && ParseRefreshFamilyId(h.raw) == Some(tokens[h].token.familyId)
  }

  ghost predicate Base(sys: System) {
    && Valid(sys.store) && Chained(sys.store) && !sys.store.closed
    && sys.store.families.Keys <= sys.origin.Keys
    && RowsNameFamily(sys.store.tokens, sys.drawn)
  }

  /** The only rotations present a token together with a successor of the family its text names. */
  predicate NamedRotation(e: Event, op: Op)
    requires op.Rotate?
  {
    && e.RotateToken? && ParseRefreshFamilyId(e.raw) == Some(op.next.row.familyId)
    && op.next.row.tokenHash == Sha256(GenerateRefreshToken(op.next.row.familyId, e.random))
  }

  /** The only saves are roots of freshly drawn families. */
  predicate IsRootWrite(e: Event, w: TokenWrite) {
    && e.IssueTokens? && w.row.familyId == e.family && w.row.previous.None?
    && w.row.tokenHash == Sha256(GenerateRefreshToken(e.family, e.random))
  }

  lemma CallShapes(cfg: Config, sys: System, e: Event)
    requires CallOf(cfg, sys, e).Some?
    ensures var call := CallOf(cfg, sys, e).value;
      && (call.SaveToken? ==> IsRootWrite(e, call.write))
      && (call.SaveToken? && !DoSaveToken(sys.store, call.write).answer.Thrown? ==> e.family in Step(cfg, sys, e).origin)
      && (call.Rotate? ==> NamedRotation(e, call))
      && !call.Close? && !call.SaveCode?
  {
    hide DoCommitApproval, DoConsumeCode, DoSaveToken, DoRotate, DoRevoke, DoSweep, DoFindGranted, DoFindToken;
  }

  lemma OriginsGrow(cfg: Config, sys: System, e: Event)
    requires e.IssueTokens?
    ensures sys.origin.Keys <= DoIssueTokens(cfg, sys, e).origin.Keys
  {
    hide DoSaveToken, RootWrite, GenerateRefreshToken;
  }

  /** The text behind a row that a call writes was drawn by the step that makes the call. */
  lemma WrittenIsDrawn(cfg: Config, sys: System, e: Event)
    ensures e.IssueTokens? && CallOf(cfg, sys, e).Some? ==> GenerateRefreshToken(e.family, e.random) in DoIssueTokens(cfg, sys, e).drawn
    ensures e.RotateToken? && CallOf(cfg, sys, e).Some? ==>
      ParseRefreshFamilyId(e.raw).Some? && GenerateRefreshToken(ParseRefreshFamilyId(e.raw).value, e.random) in DoRotateToken(cfg, sys, e).drawn
  {
    hide DoSaveToken, RootWrite, DoRotate, NextWrite, UsableClock, GenerateRefreshToken, ParseRefreshFamilyId;
  }

  lemma HistoryGrows(cfg: Config, sys: System, e: Event)
    ensures sys.origin.Keys <= Step(cfg, sys, e).origin.Keys
    ensures sys.drawn <= Step(cfg, sys, e).drawn
    ensures CallOf(cfg, sys, e).Some? && CallOf(cfg, sys, e).value.SaveToken? ==>
              e.IssueTokens? && GenerateRefreshToken(e.family, e.random) in Step(cfg, sys, e).drawn
    ensures CallOf(cfg, sys, e).Some? && CallOf(cfg, sys, e).value.Rotate? ==>
              e.RotateToken? && ParseRefreshFamilyId(e.raw).Some?
              && GenerateRefreshToken(ParseRefreshFamilyId(e.raw).value, e.random) in Step(cfg, sys, e).drawn
  {
    hide CallOf, GenerateRefreshToken, ParseRefreshFamilyId, DoPrepare, DoApproveCheck, DoApproveRead, DoApproveCommit, DoRedeem, DoIssueTokens,
      DoAbandon, DoRotateToken, DoFinishRefresh, DoCompensate, DoRevokeLookup, DoRevokeCommit, DoSweep, DoRebind, DoConsumeJti;
    StepIsFramed(cfg, sys, e);
    if e.IssueTokens? { OriginsGrow(cfg, sys, e); }
    if CallOf(cfg, sys, e).Some? {
      CallShapes(cfg, sys, e);
      WrittenIsDrawn(cfg, sys, e);
    }
  }

  lemma NewRowsNameFamily(cfg: Config, sys: System, e: Event, op: Op, h: Digest)
    requires Base(sys) && Fresh(sys, e) && CallOf(cfg, sys, e) == Some(op) && h in Apply(sys.store, op).store.tokens
    ensures h.Sha256? && h.raw in Step(cfg, sys, e).drawn
    ensures ParseRefreshFamilyId(h.raw) == Some(Apply(sys.store, op).store.tokens[h].token.familyId)
  {
    hide Apply, Step, CallOf, Valid, Chained, ParseRefreshFamilyId, GenerateRefreshToken, Successor;
    RowsComeFrom(sys.store, op, h);
    CallShapes(cfg, sys, e);
    HistoryGrows(cfg, sys, e);
    if op.SaveToken? && h == op.write.row.tokenHash {
      ParseGenerated(e.family, e.random);
    }
    if op.Rotate? && h == op.next.row.tokenHash {
      ParsedShape(e.raw);
      assert IsFamilyId(op.next.row.familyId);
      ParseGenerated(op.next.row.familyId, e.random);
      SuccessorPlacement(op.next, sys.store, op.hash);
    }
  }

  lemma SuccessorPlacement(next: TokenWrite, s: Store, hash: Digest)
    ensures hash in s.tokens ==>
      var t := StoredRow(Successor(next, s.tokens[hash].token));
      t.familyId == next.row.familyId && t.tokenHash == next.row.tokenHash && t.previous == next.row.previous
      && t.subject == s.tokens[hash].token.subject && t.clientId == s.tokens[hash].token.clientId
      && t.scopes == s.tokens[hash].token.scopes
  {
  }

  lemma CloseIsExplicit(s: Store, op: Op)
    requires !s.closed && !op.Close?
    ensures !Apply(s, op).store.closed
  {
    if op.Rotate? { RotateKeepsCodes(s, op.hash, op.next, op.now, op.generation, op.resource); }
  }

  /** Every step keeps the base invariant: valid rows, one chain for each family,
      each family with its origin, each row naming its family. */
  lemma StepKeepsBase(cfg: Config, sys: System, e: Event)
    requires Base(sys) && Fresh(sys, e)
    ensures Base(Step(cfg, sys, e))
  {
    hide Step, CallOf, Valid, Chained;
    OneCallPerStep(cfg, sys, e);
    HistoryGrows(cfg, sys, e);
    var call, sys' := CallOf(cfg, sys, e), Step(cfg, sys, e);
    if call.Some? {
      CallKeepsBase(cfg, sys, e, call.value);
    }
  }

  lemma CallKeepsBase(cfg: Config, sys: System, e: Event, op: Op)
    requires Base(sys) && Fresh(sys, e) && CallOf(cfg, sys, e) == Some(op)
    ensures var s' := Apply(sys.store, op).store;
      && Valid(s') && Chained(s') && !s'.closed
      && s'.families.Keys <= Step(cfg, sys, e).origin.Keys
      && RowsNameFamily(s'.tokens, Step(cfg, sys, e).drawn)
  {
    hide Apply, Step, CallOf, Valid, Chained, ParseRefreshFamilyId, GenerateRefreshToken;
    CallShapes(cfg, sys, e);
    HistoryGrows(cfg, sys, e);
    CloseIsExplicit(sys.store, op);
    ApplyKeepsValid(sys.store, op);
    ApplyKeepsChains(sys.store, op);
    FamiliesOnlyFromSaves(sys.store, op);
    if op.SaveToken? { RefusedSaveKeepsFamilies(sys.store, op); }
    forall h | h in Apply(sys.store, op).store.tokens
      ensures h.Sha256? && h.raw in Step(cfg, sys, e).drawn
        && ParseRefreshFamilyId(h.raw) == Some(Apply(sys.store, op).store.tokens[h].token.familyId) {
      NewRowsNameFamily(cfg, sys, e, op, h);
    }
  }

  lemma RefusedSaveKeepsFamilies(s: Store, op: Op)
    requires op.SaveToken?
    ensures DoSaveToken(s, op.write).answer.Thrown? ==> Apply(s, op).store == s
  {
  }

  lemma InitialBase(instanceId: string)
    ensures Base(Initial(instanceId))
  {
  }
}
