/** Where scopes come from: every scope a code or refresh token holds was
    consented to by that subject for that client, and no row leaves the ceiling
    of the consent it descends from, however the requests interleave. */
module GrantProvenance {
  import opened Prelude
  import opened GrantStore
  import opened StoreInvariant
  import opened GrantSystem
  import opened GrantSteps
  import GrantRules
  import ScopeClaim

  type Approvals = map<Digest, Consent>

  /** An approved consent of this subject for this client contains the scope. */
  predicate Consented(ap: Approvals, subject: string, clientId: string, scope: string) {
    exists h :: h in ap && ap[h].subject == subject && ap[h].clientId == clientId && scope in ap[h].scopes
  }

  predicate AllConsented(ap: Approvals, subject: string, clientId: string, scopes: seq<string>) {
    forall x :: x in scopes ==> Consented(ap, subject, clientId, x)
  }

  predicate Within(c: Consent, scopes: seq<string>) {
    c.ceiling.Some? ==> forall x :: x in scopes ==> x in c.ceiling.value
  }

  /** Scopes granted to a subject and client on the strength of the approval `h`. */
  predicate Rooted(ap: Approvals, h: Digest, subject: string, clientId: string, scopes: seq<string>) {
    && h in ap && ap[h].subject == subject && ap[h].clientId == clientId
    && Within(ap[h], scopes) && AllConsented(ap, subject, clientId, scopes)
  }

  predicate CodesRooted(codes: map<Digest, AuthCode>, ap: Approvals) {
    forall h :: h in codes ==> Rooted(ap, h, codes[h].subject, codes[h].clientId, codes[h].scopes)
  }

  predicate TokenRooted(t: Token, origin: map<string, Digest>, ap: Approvals) {
    t.familyId in origin && Rooted(ap, origin[t.familyId], t.subject, t.clientId, t.scopes)
  }

  predicate RowsRooted(tokens: map<Digest, StoredToken>, origin: map<string, Digest>, ap: Approvals) {
    forall h :: h in tokens ==> TokenRooted(tokens[h].token, origin, ap)
  }

  /** What an approval in progress may go on to commit. */
  predicate Committable(c: Consent, scopes: seq<string>, ap: Approvals) {
    && Within(c, scopes)
    && forall x :: x in scopes ==> x in c.scopes || Consented(ap, c.subject, c.clientId, x)
  }

  predicate PendingRooted(p: Pending, signed: set<Consent>, ap: Approvals) {
    match p
    case Checked(c, _) => c in signed
    case Approving(c, scopes, _) => c in signed && Committable(c, scopes, ap)
    case Redeeming(code, _) => Rooted(ap, code.codeHash, code.subject, code.clientId, code.scopes)
    case _ => true
  }

  predicate AllPendingRooted(pending: map<nat, Pending>, signed: set<Consent>, ap: Approvals) {
    forall op :: op in pending ==> PendingRooted(pending[op], signed, ap)
  }

  predicate Provenance(sys: System) {
    && CodesRooted(sys.store.codes, sys.approvals)
    && RowsRooted(sys.store.tokens, sys.origin, sys.approvals)
    && AllPendingRooted(sys.pending, sys.signed, sys.approvals)
  }

  // ------------------------------------------------------------------ monotonicity

  /** The later approvals and origins extend the earlier ones. */
  predicate Extends<K(==), V(==)>(m: map<K, V>, m': map<K, V>) {
    forall k :: k in m ==> k in m' && m'[k] == m[k]
  }

  lemma ConsentedGrows(ap: Approvals, ap': Approvals, subject: string, clientId: string, x: string)
    requires Extends(ap, ap') && Consented(ap, subject, clientId, x)
    ensures Consented(ap', subject, clientId, x)
  {
    var h :| h in ap && ap[h].subject == subject && ap[h].clientId == clientId && x in ap[h].scopes;
    assert h in ap' && ap'[h] == ap[h];
  }

  lemma RootedGrows(ap: Approvals, ap': Approvals, h: Digest, subject: string, clientId: string, scopes: seq<string>)
    requires Extends(ap, ap') && Rooted(ap, h, subject, clientId, scopes)
    ensures Rooted(ap', h, subject, clientId, scopes)
  {
    forall x | x in scopes ensures Consented(ap', subject, clientId, x) {
      ConsentedGrows(ap, ap', subject, clientId, x);
    }
  }

  lemma PendingGrows(p: Pending, signed: set<Consent>, signed': set<Consent>, ap: Approvals, ap': Approvals)
    requires Extends(ap, ap') && signed <= signed' && PendingRooted(p, signed, ap)
    ensures PendingRooted(p, signed', ap')
  {
    match p
    case Approving(c, scopes, _) =>
      forall x | x in scopes ensures x in c.scopes || Consented(ap', c.subject, c.clientId, x) {
        if x !in c.scopes { ConsentedGrows(ap, ap', c.subject, c.clientId, x); }
      }
    case Redeeming(code, _) => RootedGrows(ap, ap', code.codeHash, code.subject, code.clientId, code.scopes);
    case _ =>
  }

  lemma ApprovalsExtend(cfg: Config, sys: System, e: Event)
    requires Fresh(sys, e)
    ensures Extends(sys.approvals, Step(cfg, sys, e).approvals) && sys.signed <= Step(cfg, sys, e).signed
  {
    hide DoApproveCheck, DoApproveRead, DoRedeem, DoIssueTokens, DoAbandon, DoRotateToken, DoFinishRefresh, DoCompensate, DoRevokeLookup,
      DoRevokeCommit, DoSweep, DoRebind, DoConsumeJti, DoCommitApproval, CommitReached, CodeOf, Narrow, CeilingOk;
    StepIsFramed(cfg, sys, e);
  }

  lemma OriginsExtend(cfg: Config, sys: System, e: Event)
    requires Fresh(sys, e)
    ensures Extends(sys.origin, Step(cfg, sys, e).origin)
  {
    hide DoPrepare, DoApproveCheck, DoApproveRead, DoApproveCommit, DoRedeem, DoAbandon, DoRotateToken, DoFinishRefresh, DoCompensate,
      DoRevokeLookup, DoRevokeCommit, DoSweep, DoRebind, DoConsumeJti, DoSaveToken, RootWrite;
    StepIsFramed(cfg, sys, e);
  }

  /** History is only ever extended, and by fresh keys. */
  lemma HistoryExtends(cfg: Config, sys: System, e: Event)
    requires Fresh(sys, e)
    ensures Extends(sys.approvals, Step(cfg, sys, e).approvals)
    ensures Extends(sys.origin, Step(cfg, sys, e).origin)
    ensures sys.signed <= Step(cfg, sys, e).signed
  {
    hide Step, Extends, Fresh;
    ApprovalsExtend(cfg, sys, e);
    OriginsExtend(cfg, sys, e);
  }

  // ------------------------------------------------------------------- narrowing

  /** An approval commits the consent's own scopes and the prior grants, no
      others, and of these exactly the ones inside the ceiling. */
  lemma ApprovedExactly(cfg: Config, c: Consent, prior: seq<string>, x: string)
    requires ApprovedScopes(cfg, c, prior).Some?
    ensures x in ApprovedScopes(cfg, c, prior).value <==>
              (x in c.scopes || x in prior) && (c.ceiling.Some? ==> x in c.ceiling.value)
  {
    AppendNewMembers([], c.scopes + prior);
    if c.ceiling.Some? { GrantRules.FilterExactly(AppendNew([], c.scopes + prior), c.ceiling.value); }
  }

  /** Prior grants are scopes the same subject consented to for the same client. */
  lemma PriorWasConsented(cfg: Config, sys: System, c: Consent, now: int, x: string)
    requires Provenance(sys)
    requires PriorScopes(cfg, sys.store, c, now).Some? && x in PriorScopes(cfg, sys.store, c, now).value
    ensures Consented(sys.approvals, c.subject, c.clientId, x)
  {
    var q := PriorQuery(cfg, c, now);
    CollectMembers(sys.store, sys.store.order, q);
    var h :| h in sys.store.order && Contributes(sys.store, h, q) && x in sys.store.tokens[h].token.scopes;
    assert TokenRooted(sys.store.tokens[h].token, sys.origin, sys.approvals);
  }

  // ----------------------------------------------------------------------- steps

  lemma NewCodeIsRooted(cfg: Config, sys: System, e: Event, h: Digest)
    requires Provenance(sys) && Fresh(sys, e) && CallOf(cfg, sys, e).Some?
    requires h in Apply(sys.store, CallOf(cfg, sys, e).value).store.codes
    ensures var code := Apply(sys.store, CallOf(cfg, sys, e).value).store.codes[h];
      Rooted(Step(cfg, sys, e).approvals, h, code.subject, code.clientId, code.scopes)
  {
    hide Apply, Step, CallOf, Valid, Rooted;
    var op := CallOf(cfg, sys, e).value;
    CallShapes(cfg, sys, e);
    HistoryExtends(cfg, sys, e);
    CodesComeFrom(sys.store, op, h);
    if h in sys.store.codes && Apply(sys.store, op).store.codes[h] == sys.store.codes[h] {
      var code := sys.store.codes[h];
      RootedGrows(sys.approvals, Step(cfg, sys, e).approvals, h, code.subject, code.clientId, code.scopes);
    } else {
      CommittedCodeIsRooted(cfg, sys, e, op);
    }
  }

  lemma CommittedCodeIsRooted(cfg: Config, sys: System, e: Event, op: Op)
    requires Provenance(sys) && Fresh(sys, e) && CallOf(cfg, sys, e) == Some(op) && op.CommitApproval?
    requires Apply(sys.store, op).answer == Commit(Stored)
    ensures var code := StoredCode(op.code);
      Rooted(Step(cfg, sys, e).approvals, op.code.row.codeHash, code.subject, code.clientId, code.scopes)
  {
    hide DoConsumeCode, DoSaveToken, DoRotate, DoRevoke, DoSweep, DoFindGranted, DoFindToken, Consented, Within;
    var p := sys.pending[e.op];
    assert PendingRooted(p, sys.signed, sys.approvals);
    ApprovalRoots(sys.approvals, Sha256(e.code), p.consent, p.scopes);
  }

  lemma ApprovalRoots(ap: Approvals, h: Digest, c: Consent, scopes: seq<string>)
    requires h !in ap && Committable(c, scopes, ap)
    ensures Rooted(ap[h := c], h, c.subject, c.clientId, scopes)
  {
    var ap' := ap[h := c];
    forall x | x in scopes ensures Consented(ap', c.subject, c.clientId, x) {
      if x in c.scopes {
        assert h in ap' && ap'[h].subject == c.subject && ap'[h].clientId == c.clientId && x in ap'[h].scopes;
      } else {
        ConsentedGrows(ap, ap', c.subject, c.clientId, x);
      }
    }
  }

  lemma SavedRootIsRooted(cfg: Config, sys: System, e: Event, w: TokenWrite)
    requires Provenance(sys) && Fresh(sys, e) && CallOf(cfg, sys, e) == Some(SaveToken(w))
    requires !DoSaveToken(sys.store, w).answer.Thrown?
    ensures TokenRooted(StoredRow(w), Step(cfg, sys, e).origin, Step(cfg, sys, e).approvals)
  {
    hide DoCommitApproval, DoConsumeCode, DoSaveToken, DoRotate, DoRevoke, DoSweep, DoFindGranted, DoFindToken, Rooted;
    assert PendingRooted(sys.pending[e.op], sys.signed, sys.approvals);
  }

  lemma TokenRootedGrows(t: Token, origin: map<string, Digest>, origin': map<string, Digest>, ap: Approvals, ap': Approvals)
    requires Extends(origin, origin') && Extends(ap, ap') && TokenRooted(t, origin, ap)
    ensures TokenRooted(t, origin', ap')
  {
    RootedGrows(ap, ap', origin[t.familyId], t.subject, t.clientId, t.scopes);
  }

  lemma NewRowIsRooted(cfg: Config, sys: System, e: Event, op: Op, h: Digest)
    requires Base(sys) && Provenance(sys) && Fresh(sys, e) && CallOf(cfg, sys, e) == Some(op)
    requires h in Apply(sys.store, op).store.tokens
    ensures TokenRooted(Apply(sys.store, op).store.tokens[h].token, Step(cfg, sys, e).origin, Step(cfg, sys, e).approvals)
  {
    hide Apply, Step, CallOf, Valid, Rooted, DoSaveToken;
    var sys' := Step(cfg, sys, e);
    HistoryExtends(cfg, sys, e);
    RowsComeFrom(sys.store, op, h);
    if h in sys.store.tokens {
      TokenRootedGrows(sys.store.tokens[h].token, sys.origin, sys'.origin, sys.approvals, sys'.approvals);
    } else if op.SaveToken? {
      SavedRootIsRooted(cfg, sys, e, op.write);
    } else {
      var t := sys.store.tokens[op.hash].token;
      SuccessorPlacement(op.next, sys.store, op.hash);
      TokenRootedGrows(t, sys.origin, sys'.origin, sys.approvals, sys'.approvals);
    }
  }

  lemma ConsumedCodeIsRooted(cfg: Config, sys: System, e: Event)
    requires Base(sys) && Provenance(sys) && e.Redeem?
    ensures AllPendingRooted(DoRedeem(cfg, sys, e).pending, sys.signed, sys.approvals)
  {
    var h := Sha256(e.code);
    if h in sys.store.codes { assert sys.store.codes[h].codeHash == h; }
  }

  lemma ReadScopesAreCommittable(cfg: Config, sys: System, e: Event)
    requires Provenance(sys) && e.ApproveRead?
    ensures AllPendingRooted(DoApproveRead(cfg, sys, e).pending, sys.signed, sys.approvals)
  {
    hide PriorScopes, ApprovedScopes, Consented;
    if e.op in sys.pending && sys.pending[e.op].Checked? {
      var c, at := sys.pending[e.op].consent, sys.pending[e.op].startedAt;
      var prior := PriorScopes(cfg, sys.store, c, at);
      if prior.Some? && ApprovedScopes(cfg, c, prior.value).Some? {
        var scopes := ApprovedScopes(cfg, c, prior.value).value;
        forall x | x in scopes
          ensures x in c.scopes || Consented(sys.approvals, c.subject, c.clientId, x)
          ensures c.ceiling.Some? ==> x in c.ceiling.value {
          ApprovedExactly(cfg, c, prior.value, x);
          if x in prior.value { PriorWasConsented(cfg, sys, c, at, x); }
        }
        assert Committable(c, scopes, sys.approvals);
      }
    }
  }

  /** Requests other than these two bring in nothing that has to be accounted for. */
  lemma OtherPendingIsRooted(cfg: Config, sys: System, e: Event)
    requires AllPendingRooted(sys.pending, sys.signed, sys.approvals) && !e.ApproveRead? && !e.Redeem?
    ensures AllPendingRooted(Step(cfg, sys, e).pending, sys.signed, sys.approvals)
  {
    hide DoPrepare, DoApproveRead, DoApproveCommit, DoRedeem, DoIssueTokens, DoAbandon, DoRotateToken, DoFinishRefresh, DoCompensate,
      DoRevokeLookup, DoRevokeCommit, DoSweep, DoRebind, DoConsumeJti, Rooted, Committable;
    var after := Step(cfg, sys, e).pending;
    forall op | op in after ensures PendingRooted(after[op], sys.signed, sys.approvals) {
      RequestStands(cfg, sys, e, op);
    }
  }

  lemma StepKeepsPendingRooted(cfg: Config, sys: System, e: Event)
    requires Base(sys) && Provenance(sys) && Fresh(sys, e)
    ensures var sys' := Step(cfg, sys, e); AllPendingRooted(sys'.pending, sys'.signed, sys'.approvals)
  {
    hide DoApproveCheck, DoApproveRead, DoRedeem, DoApproveCommit, DoIssueTokens, DoRotateToken, DoPrepare, DoFinishRefresh, DoCompensate,
      DoRevokeLookup, DoRevokeCommit, DoAbandon, DoSweep, DoRebind, DoConsumeJti, PendingRooted, Valid;
    var sys' := Step(cfg, sys, e);
    HistoryExtends(cfg, sys, e);
    if e.ApproveRead? { ReadScopesAreCommittable(cfg, sys, e); }
    else if e.Redeem? { ConsumedCodeIsRooted(cfg, sys, e); }
    else { OtherPendingIsRooted(cfg, sys, e); }
    forall op | op in sys'.pending ensures PendingRooted(sys'.pending[op], sys'.signed, sys'.approvals) {
      PendingGrows(sys'.pending[op], sys.signed, sys'.signed, sys.approvals, sys'.approvals);
    }
  }

  lemma StepKeepsProvenance(cfg: Config, sys: System, e: Event)
    requires Base(sys) && Provenance(sys) && Fresh(sys, e)
    ensures Provenance(Step(cfg, sys, e))
  {
    hide Step, CallOf, Apply, Base, Rooted, TokenRooted;
    var sys' := Step(cfg, sys, e);
    OneCallPerStep(cfg, sys, e);
    HistoryExtends(cfg, sys, e);
    StepKeepsPendingRooted(cfg, sys, e);
    var call := CallOf(cfg, sys, e);
    forall h | h in sys'.store.codes
      ensures Rooted(sys'.approvals, h, sys'.store.codes[h].subject, sys'.store.codes[h].clientId, sys'.store.codes[h].scopes) {
      if call.Some? { NewCodeIsRooted(cfg, sys, e, h); }
      else {
        var code := sys.store.codes[h];
        RootedGrows(sys.approvals, sys'.approvals, h, code.subject, code.clientId, code.scopes);
      }
    }
    forall h | h in sys'.store.tokens ensures TokenRooted(sys'.store.tokens[h].token, sys'.origin, sys'.approvals) {
      if call.Some? { NewRowIsRooted(cfg, sys, e, call.value, h); }
      else { TokenRootedGrows(sys.store.tokens[h].token, sys.origin, sys'.origin, sys.approvals, sys'.approvals); }
    }
  }

  // ------------------------------------------------------------------ whole runs

  lemma {:induction false} RunKeepsProvenance(cfg: Config, sys: System, events: seq<Event>)
    requires Base(sys) && Provenance(sys) && FreshRun(cfg, sys, events)
    ensures Base(RunOf(cfg, sys, events)) && Provenance(RunOf(cfg, sys, events))
    decreases |events|
  {
    hide Step, Base, Provenance, Fresh, FreshRun;
    if events != [] {
      FreshHeadAndTail(cfg, sys, events);
      StepKeepsBase(cfg, sys, events[0]);
      StepKeepsProvenance(cfg, sys, events[0]);
      RunKeepsProvenance(cfg, Step(cfg, sys, events[0]), events[1..]);
    }
  }

  /** In every run, every scope of every stored code and of every stored refresh
      token was in a consent approved for that same subject and client. */
  lemma EveryScopeWasConsented(cfg: Config, instanceId: string, events: seq<Event>, h: Digest, x: string)
    requires FreshRun(cfg, Initial(instanceId), events)
    ensures var end := RunOf(cfg, Initial(instanceId), events);
      && (h in end.store.codes && x in end.store.codes[h].scopes ==>
            Consented(end.approvals, end.store.codes[h].subject, end.store.codes[h].clientId, x))
      && (h in end.store.tokens && x in end.store.tokens[h].token.scopes ==>
            Consented(end.approvals, end.store.tokens[h].token.subject, end.store.tokens[h].token.clientId, x))
  {
    hide Step;
    RunKeepsProvenance(cfg, Initial(instanceId), events);
  }

  /** In every run, a stored code stays inside the ceiling of the consent it was
      committed for, and so does every token of the family it was exchanged for. */
  lemma NothingLeavesTheCeiling(cfg: Config, instanceId: string, events: seq<Event>, h: Digest)
    requires FreshRun(cfg, Initial(instanceId), events)
    ensures var end := RunOf(cfg, Initial(instanceId), events);
      && (h in end.store.codes ==> h in end.approvals && Within(end.approvals[h], end.store.codes[h].scopes))
      && (h in end.store.tokens ==>
            var t := end.store.tokens[h].token;
            t.familyId in end.origin && end.origin[t.familyId] in end.approvals
            && end.approvals[end.origin[t.familyId]].subject == t.subject
            && Within(end.approvals[end.origin[t.familyId]], t.scopes))
  {
    hide Step;
    RunKeepsProvenance(cfg, Initial(instanceId), events);
    var end := RunOf(cfg, Initial(instanceId), events);
    if h in end.store.tokens { assert TokenRooted(end.store.tokens[h].token, end.origin, end.approvals); }
  }
}
