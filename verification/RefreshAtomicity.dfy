/** Refresh is all or nothing: once no request is in progress, no live refresh
    token is one whose response never reached a client. */
module RefreshAtomicity {
  import opened Prelude
  import opened Clock
  import opened GrantStore
  import opened StoreInvariant
  import opened RefreshText
  import opened GrantSystem
  import opened GrantSteps
  import opened FamilyChains
  import opened GrantAccounting

  type Requests = map<nat, Pending>

  /** The request will still deliver this token, or will revoke its family. */
  predicate Owes(p: Pending, raw: string, f: string) {
    (p.Refreshing? && p.successor == raw) || (p.Compensating? && p.familyId == f)
  }

  predicate Owed(pending: Requests, raw: string, f: string) {
    exists op :: op in pending && Owes(pending[op], raw, f)
  }

  predicate Backed(sys: System, h: Digest)
    requires h in sys.store.tokens && h.Sha256?
  {
    h.raw in sys.returned || h.raw in sys.stranded || Owed(sys.pending, h.raw, sys.store.tokens[h].token.familyId)
  }

  predicate LiveAreBacked(sys: System) {
    forall h :: h in LiveRows(sys.store) ==> h.Sha256? && Backed(sys, h)
  }

  /** A request that still owes something knows the family its successor names. */
  predicate DebtorOk(p: Pending, drawn: set<string>, stranded: set<string>) {
    && (p.Refreshing? ==> ParseRefreshFamilyId(p.successor) == Some(p.familyId) && p.successor in drawn && p.successor !in stranded)
    && (p.Refreshing? || p.Compensating? ==> CanonicalTime(p.at))
  }

  predicate DebtorsOk(pending: Requests, drawn: set<string>, stranded: set<string>) {
    forall op :: op in pending ==> DebtorOk(pending[op], drawn, stranded)
  }

  predicate Separate(sys: System) {
    sys.returned !! sys.stranded && sys.returned <= sys.drawn && sys.stranded <= sys.drawn
  }

  /** What was stranded are roots. */
  predicate StrandedAreRoots(tokens: map<Digest, StoredToken>, stranded: set<string>) {
    forall h :: h in tokens && h.Sha256? && h.raw in stranded ==> tokens[h].token.previous.None?
  }

  predicate Solvent(sys: System) {
    && DebtorsOk(sys.pending, sys.drawn, sys.stranded)
    && Separate(sys)
    && StrandedAreRoots(sys.store.tokens, sys.stranded)
    && LiveAreBacked(sys)
  }

  // -------------------------------------------------------------- live rows

  /** A revocation is never undone, so a live row was live before or is new. */
  lemma LiveComeFrom(s: Store, op: Op, h: Digest)
    requires Valid(s) && h in LiveRows(Apply(s, op).store)
    ensures h in LiveRows(s)
         || (h !in s.tokens && op.SaveToken? && h == op.write.row.tokenHash && !Apply(s, op).answer.Thrown?)
         || (h !in s.tokens && op.Rotate? && h == op.next.row.tokenHash && Apply(s, op).answer.TokenRow? && Apply(s, op).answer.token.Some?)
  {
    hide Valid, DoRotate, ValidCodeWrite, ValidTokenWrite, ValidSubject, CanonicalTime, ValidInstanceId;
    if h in s.tokens { RowFacts(s, h); }
    if op.Rotate? { LiveAfterRotate(s, op.hash, op.next, op.now, op.generation, op.resource, h); }
  }

  lemma LiveAfterRotate(s: Store, hash: Digest, next: TokenWrite, now: int, g: Option<int>, r: Option<string>, h: Digest)
    requires Valid(s) && h in LiveRows(DoRotate(s, hash, next, now, g, r).store)
    ensures h in LiveRows(s)
         || (h !in s.tokens && h == next.row.tokenHash
             && DoRotate(s, hash, next, now, g, r).answer.TokenRow? && DoRotate(s, hash, next, now, g, r).answer.token.Some?)
  {
    hide DoRotate, RotationInput, Valid, Addressable;
    NoEffectRotations(s, hash, next, now, g, r);
    if h in s.tokens { RowFacts(s, h); }
    if !s.closed && RotationInput(hash, next, now) && hash in s.tokens { RotationByCase(s, hash, next, now, g, r); }
  }

  lemma NoEffectRotations(s: Store, hash: Digest, next: TokenWrite, now: int, g: Option<int>, r: Option<string>)
    ensures s.closed || !RotationInput(hash, next, now) || hash !in s.tokens ==> DoRotate(s, hash, next, now, g, r).store == s
  {
  }

  lemma RevokedAreNotLive(s: Store, f: string, at: int, h: Digest)
    requires !s.closed && CanonicalTime(at) && h in LiveRows(DoRevoke(s, f, at, None).store)
    ensures s.tokens[h].token.familyId != f
  {
  }

  // -------------------------------------------------------------------- steps

  /** Everyone but the two finishing steps leaves the debtors alone. */
  lemma DebtorsRemain(cfg: Config, sys: System, e: Event, op: nat)
    requires !e.FinishRefresh? && !e.Compensate?
    requires op in sys.pending && (sys.pending[op].Refreshing? || sys.pending[op].Compensating?)
    ensures var sys' := Step(cfg, sys, e); op in sys'.pending && sys'.pending[op] == sys.pending[op]
  {
    hide Step;
    RequestRemains(cfg, sys, e, op);
  }

  lemma DeliveriesGrow(cfg: Config, sys: System, e: Event)
    ensures sys.returned <= Step(cfg, sys, e).returned && sys.stranded <= Step(cfg, sys, e).stranded
  {
    hide Step;
    StepIsFramed(cfg, sys, e);
  }

  lemma OwedRemains(cfg: Config, sys: System, e: Event, raw: string, f: string)
    requires !e.FinishRefresh? && !e.Compensate? && Owed(sys.pending, raw, f)
    ensures Owed(Step(cfg, sys, e).pending, raw, f)
  {
    hide Step;
    var op :| op in sys.pending && Owes(sys.pending[op], raw, f);
    DebtorsRemain(cfg, sys, e, op);
    assert op in Step(cfg, sys, e).pending && Owes(Step(cfg, sys, e).pending[op], raw, f);
  }

  /** A new root is delivered or stranded at once; a new successor is owed by the request that made it. */
  lemma NewTokenIsBacked(cfg: Config, sys: System, e: Event, op: Op)
    requires CallOf(cfg, sys, e) == Some(op)
    ensures op.SaveToken? && !Apply(sys.store, op).answer.Thrown? ==>
      op.write.row.tokenHash.Sha256? && op.write.row.tokenHash.raw in Step(cfg, sys, e).returned + Step(cfg, sys, e).stranded
    ensures op.Rotate? && Apply(sys.store, op).answer.TokenRow? && Apply(sys.store, op).answer.token.Some? ==>
      op.next.row.tokenHash.Sha256? && Owed(Step(cfg, sys, e).pending, op.next.row.tokenHash.raw, op.next.row.familyId)
  {
    hide DoCommitApproval, DoConsumeCode, DoSaveToken, DoRotate, DoRevoke, DoSweep, PriorScopes, ApprovedScopes, DoFindToken,
      UsableClock, ParseRefreshFamilyId, RedeemChecks, CommitReached;
    if op.Rotate? && Apply(sys.store, op).answer.TokenRow? && Apply(sys.store, op).answer.token.Some? {
      var sys' := Step(cfg, sys, e);
      assert e.op in sys'.pending && Owes(sys'.pending[e.op], op.next.row.tokenHash.raw, op.next.row.familyId);
    }
  }

  /** Row identity never changes. */
  lemma SameRow(s: Store, op: Op, h: Digest)
    requires Valid(s) && h in s.tokens && h in Apply(s, op).store.tokens
    ensures Apply(s, op).store.tokens[h].token == s.tokens[h].token
  {
    hide Apply, Valid;
    RowsComeFrom(s, op, h);
  }

  lemma LiveStayBacked(cfg: Config, sys: System, e: Event, h: Digest)
    requires Base(sys) && Fresh(sys, e) && Solvent(sys) && !e.FinishRefresh? && !e.Compensate?
    requires h in LiveRows(Step(cfg, sys, e).store)
    ensures h.Sha256? && Backed(Step(cfg, sys, e), h)
  {
    hide Step, CallOf, Apply, Valid, Chained, Owed, DebtorsOk, StrandedAreRoots, ParseRefreshFamilyId, Fresh;
    var sys' := Step(cfg, sys, e);
    OneCallPerStep(cfg, sys, e);
    DeliveriesGrow(cfg, sys, e);
    var call := CallOf(cfg, sys, e);
    if call.None? {
      if Owed(sys.pending, h.raw, sys.store.tokens[h].token.familyId) { OwedRemains(cfg, sys, e, h.raw, sys.store.tokens[h].token.familyId); }
    } else {
      LiveComeFrom(sys.store, call.value, h);
      if h in LiveRows(sys.store) {
        SameRow(sys.store, call.value, h);
        if Owed(sys.pending, h.raw, sys.store.tokens[h].token.familyId) { OwedRemains(cfg, sys, e, h.raw, sys.store.tokens[h].token.familyId); }
      } else {
        NewTokenIsBacked(cfg, sys, e, call.value);
        RowsComeFrom(sys.store, call.value, h);
        if call.value.Rotate? { SuccessorPlacement(call.value.next, sys.store, call.value.hash); }
      }
    }
  }

  /** Finishing a refresh delivers the successor or turns the debt into a
      revocation of exactly the family the successor belongs to. */
  lemma FinishKeepsBacked(cfg: Config, sys: System, e: Event, h: Digest)
    requires Base(sys) && Solvent(sys) && e.FinishRefresh? && h in LiveRows(sys.store)
    ensures h.Sha256? && Backed(DoFinishRefresh(cfg, sys, e), h)
  {
    hide RefreshChecks, Valid, Chained, ParseRefreshFamilyId, StrandedAreRoots;
    var sys', f := DoFinishRefresh(cfg, sys, e), sys.store.tokens[h].token.familyId;
    assert Backed(sys, h);
    if Owed(sys.pending, h.raw, f) {
      var op :| op in sys.pending && Owes(sys.pending[op], h.raw, f);
      assert DebtorOk(sys.pending[op], sys.drawn, sys.stranded);
      if h.raw !in sys'.returned { assert op in sys'.pending && Owes(sys'.pending[op], h.raw, f); }
    }
  }

  lemma CompensateKeepsBacked(sys: System, e: Event, h: Digest)
    requires Base(sys) && Solvent(sys) && e.Compensate? && h in LiveRows(DoCompensate(sys, e).store)
    ensures h.Sha256? && Backed(DoCompensate(sys, e), h)
  {
    hide Valid, Chained, StrandedAreRoots, ParseRefreshFamilyId;
    var sys' := DoCompensate(sys, e);
    if sys' != sys {
      var p := sys.pending[e.op];
      assert DebtorOk(p, sys.drawn, sys.stranded);
      RevokedAreNotLive(sys.store, p.familyId, p.at, h);
      LiveBeforeRevoke(sys.store, p.familyId, p.at, h);
      var f := sys.store.tokens[h].token.familyId;
      if Owed(sys.pending, h.raw, f) {
        var op :| op in sys.pending && Owes(sys.pending[op], h.raw, f);
        assert op in sys'.pending && Owes(sys'.pending[op], h.raw, f);
      }
    }
  }

  lemma LiveBeforeRevoke(s: Store, f: string, at: int, h: Digest)
    requires h in LiveRows(DoRevoke(s, f, at, None).store)
    ensures h in LiveRows(s)
  {
  }

  lemma StepKeepsDebtors(cfg: Config, sys: System, e: Event)
    requires Solvent(sys) && Fresh(sys, e)
    ensures DebtorsOk(Step(cfg, sys, e).pending, Step(cfg, sys, e).drawn, Step(cfg, sys, e).stranded)
  {
    hide DoPrepare, DoApproveCheck, DoApproveRead, DoApproveCommit, DoRedeem, DoIssueTokens, DoAbandon, DoRotateToken, DoFinishRefresh,
      DoCompensate, DoRevokeLookup, DoRevokeCommit, DoSweep, DoRebind, DoConsumeJti,
      ParseRefreshFamilyId, GenerateRefreshToken, IsFamilyId, IsBase64UrlText, LiveAreBacked, StrandedAreRoots;
    if e.RotateToken? {
      RotateKeepsDebtors(cfg, sys, e);
    } else {
      StepIsFramed(cfg, sys, e);
      StrandedGrowsByRoots(cfg, sys, e);
      var sys' := Step(cfg, sys, e);
      forall op | op in sys'.pending ensures DebtorOk(sys'.pending[op], sys'.drawn, sys'.stranded) {
        RequestStands(cfg, sys, e, op);
        if e.FinishRefresh? { FinishKeepsTime(cfg, sys, e, op); }
      }
    }
  }

  lemma FinishKeepsTime(cfg: Config, sys: System, e: Event, op: nat)
    requires e.FinishRefresh? && op in DoFinishRefresh(cfg, sys, e).pending && DebtorsOk(sys.pending, sys.drawn, sys.stranded)
    ensures var p := DoFinishRefresh(cfg, sys, e).pending[op]; p.Compensating? ==> CanonicalTime(p.at)
  {
    hide RefreshChecks, ParseRefreshFamilyId;
  }

  lemma RotateKeepsDebtors(cfg: Config, sys: System, e: Event)
    requires DebtorsOk(sys.pending, sys.drawn, sys.stranded) && Separate(sys) && e.RotateToken? && Fresh(sys, e)
    ensures var sys' := DoRotateToken(cfg, sys, e); DebtorsOk(sys'.pending, sys'.drawn, sys'.stranded)
  {
    hide DoRotate, GenerateRefreshToken, ParseRefreshFamilyId;
    if ParseRefreshFamilyId(e.raw).Some? {
      ParsedShape(e.raw);
      ParseGenerated(ParseRefreshFamilyId(e.raw).value, e.random);
    }
  }

  lemma StepKeepsSeparate(cfg: Config, sys: System, e: Event)
    requires Solvent(sys) && Fresh(sys, e)
    ensures Separate(Step(cfg, sys, e))
  {
    hide DoPrepare, DoApproveCheck, DoApproveRead, DoApproveCommit, DoRedeem, DoAbandon, DoRotateToken, DoCompensate, DoRevokeLookup,
      DoRevokeCommit, DoSweep, DoRebind, DoConsumeJti, DoSaveToken, RootWrite, RefreshChecks,
      ParseRefreshFamilyId, GenerateRefreshToken, IsFamilyId, IsBase64UrlText, LiveAreBacked, StrandedAreRoots;
    if e.FinishRefresh? && e.op in sys.pending { assert DebtorOk(sys.pending[e.op], sys.drawn, sys.stranded); }
    StepIsFramed(cfg, sys, e);
  }

  /** Only the save of a root strands a token, and what it strands is that root. */
  lemma StrandedGrowsByRoots(cfg: Config, sys: System, e: Event)
    ensures Step(cfg, sys, e).stranded <= sys.stranded + (if e.IssueTokens? then {GenerateRefreshToken(e.family, e.random)} else {})
  {
    hide DoPrepare, DoApproveCheck, DoApproveRead, DoApproveCommit, DoRedeem, DoAbandon, DoRotateToken, DoFinishRefresh, DoCompensate,
      DoRevokeLookup, DoRevokeCommit, DoSweep, DoRebind, DoConsumeJti, DoSaveToken, RootWrite, GenerateRefreshToken;
    StepIsFramed(cfg, sys, e);
  }

  lemma StrandedStayRoots(cfg: Config, sys: System, e: Event, h: Digest)
    requires Base(sys) && Fresh(sys, e) && Separate(sys) && StrandedAreRoots(sys.store.tokens, sys.stranded)
    requires h in Step(cfg, sys, e).store.tokens && h.Sha256? && h.raw in Step(cfg, sys, e).stranded
    ensures Step(cfg, sys, e).store.tokens[h].token.previous.None?
  {
    hide Step, CallOf, Apply, Valid, Chained, ParseRefreshFamilyId, GenerateRefreshToken, DoSaveToken;
    OneCallPerStep(cfg, sys, e);
    StrandedGrowsByRoots(cfg, sys, e);
    var call := CallOf(cfg, sys, e);
    if call.Some? {
      CallShapes(cfg, sys, e);
      RowsComeFrom(sys.store, call.value, h);
      if call.value.Rotate? { SuccessorPlacement(call.value.next, sys.store, call.value.hash); }
    }
  }

  lemma StepKeepsSolvent(cfg: Config, sys: System, e: Event)
    requires Base(sys) && Fresh(sys, e) && Solvent(sys)
    ensures Solvent(Step(cfg, sys, e))
  {
    hide DoApproveCheck, DoApproveRead, DoRedeem, DoApproveCommit, DoIssueTokens, DoRotateToken, DoPrepare, DoFinishRefresh, DoCompensate,
      DoRevokeLookup, DoRevokeCommit, DoAbandon, DoSweep, DoRebind, DoConsumeJti, DebtorsOk, Separate, Backed, Base, Fresh, LiveRows;
    StepKeepsDebtors(cfg, sys, e);
    StepKeepsSeparate(cfg, sys, e);
    var sys' := Step(cfg, sys, e);
    forall h | h in sys'.store.tokens && h.Sha256? && h.raw in sys'.stranded ensures sys'.store.tokens[h].token.previous.None? {
      StrandedStayRoots(cfg, sys, e, h);
    }
    forall h | h in LiveRows(sys'.store) ensures h.Sha256? && h in sys'.store.tokens && Backed(sys', h) {
      LiveAreRows(sys'.store, h);
      if e.FinishRefresh? { FinishKeepsStore(cfg, sys, e); FinishKeepsBacked(cfg, sys, e, h); }
      else if e.Compensate? { CompensateKeepsBacked(sys, e, h); }
      else { LiveStayBacked(cfg, sys, e, h); }
    }
  }

  lemma LiveAreRows(s: Store, h: Digest)
    requires h in LiveRows(s)
    ensures h in s.tokens
  {
  }

  lemma FinishKeepsStore(cfg: Config, sys: System, e: Event)
    requires e.FinishRefresh?
    ensures DoFinishRefresh(cfg, sys, e).store == sys.store
  {
  }

  lemma {:induction false} RunStaysSolvent(cfg: Config, sys: System, events: seq<Event>)
    requires Base(sys) && Solvent(sys) && FreshRun(cfg, sys, events)
    ensures Base(RunOf(cfg, sys, events)) && Solvent(RunOf(cfg, sys, events))
    decreases |events|
  {
    hide Step, Base, Solvent, Fresh, FreshRun;
    if events != [] {
      FreshHeadAndTail(cfg, sys, events);
      StepKeepsBase(cfg, sys, events[0]);
      StepKeepsSolvent(cfg, sys, events[0]);
      RunStaysSolvent(cfg, Step(cfg, sys, events[0]), events[1..]);
    }
  }

  lemma InitialSolvent(instanceId: string)
    ensures Base(Initial(instanceId)) && Solvent(Initial(instanceId))
  {
    InitialBase(instanceId);
  }

  // -------------------------------------------------------------------- results

  /** No refresh is between its rotation and its response or its revocation. */
  predicate Quiescent(sys: System) {
    forall op :: op in sys.pending ==> !sys.pending[op].Refreshing? && !sys.pending[op].Compensating?
  }

  /** Whatever threw and however the requests interleaved: when no refresh is in
      progress, every live token that some refresh produced was delivered, and
      the live tokens not delivered are exactly the roots whose save committed
      and then threw. */
  lemma RefreshIsAllOrNothing(cfg: Config, instanceId: string, events: seq<Event>, h: Digest)
    requires FreshRun(cfg, Initial(instanceId), events)
    requires Quiescent(RunOf(cfg, Initial(instanceId), events))
    requires h in LiveRows(RunOf(cfg, Initial(instanceId), events).store)
    ensures var end := RunOf(cfg, Initial(instanceId), events);
      && h.Sha256?
      && (h.raw !in end.returned <==> h.raw in end.stranded)
      && (end.store.tokens[h].token.previous.Some? ==> h.raw in end.returned)
  {
    hide Step, LiveRows, Base;
    InitialSolvent(instanceId);
    RunStaysSolvent(cfg, Initial(instanceId), events);
    LiveAreRows(RunOf(cfg, Initial(instanceId), events).store, h);
  }

  // ------------------------------------------------------------- code exchange

  /** The store takes the write, as far as the write itself decides. */
  predicate Acceptable(w: TokenWrite) {
    ValidTokenWrite(w) && ValidSubject(w.row.subject)
  }

  /** The step saves `raw` as the root of a redeemed code, and the save throws after it committed. */
  predicate Strands(cfg: Config, sys: System, e: Event, raw: string) {
    && e.IssueTokens? && raw == GenerateRefreshToken(e.family, e.random)
    && e.op in sys.pending && sys.pending[e.op].Redeeming?
    && Acceptable(RootWrite(cfg, sys.pending[e.op], raw, e.family))
    && e.fault.ThrowsAfter?
  }

  /** A fresh root is refused only for what is written in it. */
  lemma FreshRootIsRefusedForItself(cfg: Config, sys: System, e: Event)
    requires Base(sys) && Fresh(sys, e) && e.IssueTokens? && e.op in sys.pending && sys.pending[e.op].Redeeming?
    ensures var raw := GenerateRefreshToken(e.family, e.random);
      var w := RootWrite(cfg, sys.pending[e.op], raw, e.family);
      && w.row.tokenHash == Sha256(raw) && w.row.tokenHash !in sys.store.tokens && w.row.familyId !in sys.store.families
      && (DoSaveToken(sys.store, w).answer.Thrown? <==> !Acceptable(w))
  {
    hide GenerateRefreshToken, ParseRefreshFamilyId, IsFamilyId, IsBase64UrlText, Valid, Chained, ValidTokenWrite, ValidSubject;
  }

  /** Code exchange does not have the property: its save has no compensation. Its root is left live and
      undelivered exactly when the save is accepted and throws after it committed. */
  lemma ExchangeStrandsExactlyOnLateFault(cfg: Config, sys: System, e: Event)
    requires Base(sys) && Solvent(sys) && Fresh(sys, e)
    requires e.IssueTokens? && e.op in sys.pending && sys.pending[e.op].Redeeming?
    ensures var raw, sys' := GenerateRefreshToken(e.family, e.random), Step(cfg, sys, e);
      Sha256(raw) in LiveRows(sys'.store) && raw !in sys'.returned <==> Strands(cfg, sys, e, raw)
  {
    hide GenerateRefreshToken, IsFamilyId, IsBase64UrlText, Chained, Valid, LiveAreBacked, DebtorsOk, Acceptable, DoSaveToken, RootWrite, Base;
    FreshRootIsRefusedForItself(cfg, sys, e);
    var w := RootWrite(cfg, sys.pending[e.op], GenerateRefreshToken(e.family, e.random), e.family);
    RefusedSaveChangesNothing(sys.store, w);
    if Acceptable(w) { SavedRootIsLive(sys.store, w); }
  }

  lemma OthersStrandNothing(cfg: Config, sys: System, e: Event)
    requires !e.IssueTokens?
    ensures Step(cfg, sys, e).stranded == sys.stranded
  {
    hide Step;
    StepIsFramed(cfg, sys, e);
  }

  lemma StepStrandsExactly(cfg: Config, sys: System, e: Event, raw: string)
    requires Base(sys) && Fresh(sys, e)
    ensures raw in Step(cfg, sys, e).stranded <==> raw in sys.stranded || Strands(cfg, sys, e, raw)
  {
    hide GenerateRefreshToken, IsFamilyId, IsBase64UrlText, Base, Acceptable, DoSaveToken, RootWrite;
    if !e.IssueTokens? {
      OthersStrandNothing(cfg, sys, e);
    } else if e.op in sys.pending && sys.pending[e.op].Redeeming? {
      FreshRootIsRefusedForItself(cfg, sys, e);
    }
  }

  predicate StrandsAt(cfg: Config, sys: System, events: seq<Event>, i: int, raw: string) {
    0 <= i < |events| && Strands(cfg, RunOf(cfg, sys, events[..i]), events[i], raw)
  }

  lemma StrandsLater(cfg: Config, sys: System, events: seq<Event>, i: nat, raw: string)
    requires events != []
    ensures StrandsAt(cfg, sys, events, i + 1, raw) <==> StrandsAt(cfg, Step(cfg, sys, events[0]), events[1..], i, raw)
    ensures StrandsAt(cfg, sys, events, 0, raw) <==> Strands(cfg, sys, events[0], raw)
  {
    hide Step, Strands;
    assert events[..0] == [];
    if i + 1 < |events| {
      assert events[..i + 1][0] == events[0] && events[..i + 1][1..] == events[1..][..i] && events[1..][i] == events[i + 1];
    }
  }

  /** The stranded tokens of a run are those of its late faults. */
  lemma {:induction false} StrandedByLateFaults(cfg: Config, sys: System, events: seq<Event>, raw: string)
    requires Base(sys) && FreshRun(cfg, sys, events)
    ensures raw in RunOf(cfg, sys, events).stranded <==> raw in sys.stranded || exists i :: StrandsAt(cfg, sys, events, i, raw)
    decreases |events|
  {
    hide Step, Base, Fresh, FreshRun, Strands, StrandsAt;
    if events != [] {
      var next, rest := Step(cfg, sys, events[0]), events[1..];
      FreshHeadAndTail(cfg, sys, events);
      StepKeepsBase(cfg, sys, events[0]);
      StepStrandsExactly(cfg, sys, events[0], raw);
      StrandedByLateFaults(cfg, next, rest, raw);
      StrandsLater(cfg, sys, events, 0, raw);
      if i :| StrandsAt(cfg, sys, events, i, raw) {
        StrandsOnlyInside(cfg, sys, events, i, raw);
        if i > 0 { StrandsLater(cfg, sys, events, i - 1, raw); }
      }
      if i :| StrandsAt(cfg, next, rest, i, raw) {
        StrandsOnlyInside(cfg, next, rest, i, raw);
        StrandsLater(cfg, sys, events, i, raw);
      }
    } else if i :| StrandsAt(cfg, sys, events, i, raw) {
      StrandsOnlyInside(cfg, sys, events, i, raw);
    }
  }

  lemma StrandsOnlyInside(cfg: Config, sys: System, events: seq<Event>, i: int, raw: string)
    requires StrandsAt(cfg, sys, events, i, raw)
    ensures 0 <= i < |events|
  {
  }

  /** In every run, when no refresh is in progress: some live token was never delivered if and only if the save of
      some redeemed code's root was accepted and threw afterwards, and that root is still live. */
  lemma UndeliveredExactlyAfterLateFault(cfg: Config, instanceId: string, events: seq<Event>)
    requires FreshRun(cfg, Initial(instanceId), events) && Quiescent(RunOf(cfg, Initial(instanceId), events))
    ensures var end := RunOf(cfg, Initial(instanceId), events);
      (exists h :: h in LiveRows(end.store) && h.Sha256? && h.raw !in end.returned) <==>
      (exists i, raw :: StrandsAt(cfg, Initial(instanceId), events, i, raw) && Sha256(raw) in LiveRows(end.store))
  {
    hide Step, LiveRows, Base, StrandsAt, FreshRun, Quiescent, RunOf;
    var start := Initial(instanceId);
    var end := RunOf(cfg, start, events);
    InitialSolvent(instanceId);
    if h :| h in LiveRows(end.store) && h.Sha256? && h.raw !in end.returned {
      RefreshIsAllOrNothing(cfg, instanceId, events, h);
      StrandedByLateFaults(cfg, start, events, h.raw);
      var i :| StrandsAt(cfg, start, events, i, h.raw);
      assert Sha256(h.raw) == h;
    }
    if i, raw :| StrandsAt(cfg, start, events, i, raw) && Sha256(raw) in LiveRows(end.store) {
      StrandedByLateFaults(cfg, start, events, raw);
      RefreshIsAllOrNothing(cfg, instanceId, events, Sha256(raw));
    }
  }

  lemma SavedRootIsLive(s: Store, w: TokenWrite)
    requires !DoSaveToken(s, w).answer.Thrown? && w.row.familyId !in s.families
    ensures w.row.tokenHash in LiveRows(DoSaveToken(s, w).store)
  {
    var s' := DoSaveToken(s, w).store;
    assert s'.tokens[w.row.tokenHash] == StoredToken(StoredRow(w), None);
    assert s'.families[w.row.familyId].revokedAt.None?;
  }
}
