/** The grant lifecycle as a transition system: many requests of the authorize
    and token use-cases interleave over one store, one store call at a time. */
module GrantSystem {
  import opened Prelude
  import opened Clock
  import opened GrantStore
  import opened StoreInvariant
  import opened RefreshText
  import ScopeClaim

  /** The part of the bridge configuration the grant lifecycle reads. */
  datatype Config = Config(resource: string, storedDcr: bool, catalog: set<string>, codeTtlMs: nat,
                           accessTtlMs: nat, refreshTtlMs: nat)

  function ExpectedGeneration(cfg: Config): Option<int> {
    if cfg.storedDcr then Some(STORED_DCR_GENERATION) else None
  }

  predicate IsLetter(c: char) {
    'a' <= c <= 'z' || 'A' <= c <= 'Z'
  }

  /** The rest of a scheme up to and including "://". */
  predicate IsSchemeTail(s: string) {
    "://" <= s || (s != "" && (IsLetter(s[0]) || '0' <= s[0] <= '9' || s[0] in "+.-") && IsSchemeTail(s[1..]))
  }

  predicate IsSchemeShaped(id: string) {
    id != "" && IsLetter(id[0]) && IsSchemeTail(id[1..])
  }

  predicate AccumulationAllowed(cfg: Config, clientId: string) {
    cfg.storedDcr && !IsSchemeShaped(clientId)
  }

  predicate ReservedSubject(s: string) {
    "mcc_" <= s
  }

  /** The claims of a signed consent token. */
  datatype Consent = Consent(
    jti: string, expiresAt: int, clientId: string, subject: string, redirectUri: string, resource: string,
    scopes: seq<string>, ceiling: Option<seq<string>>, codeChallenge: string, instanceId: string)

  /** A request between two of its store calls. */
  datatype Pending =
    | Checked(consent: Consent, startedAt: int)
    | Approving(consent: Consent, scopes: seq<string>, startedAt: int)
    | Redeeming(code: AuthCode, at: int)
    | Refreshing(rotated: Token, successor: string, clientId: string, familyId: string, at: int)
    | Compensating(familyId: string, at: int)
    | Revoking(familyId: string, at: int)

  /** Where the code of an approval is. */
  datatype Stage = InStore | HeldBy(op: nat) | IssuedTo(familyId: string) | Lost

  /** The store, the requests in progress, and the history of the run: the
      consents ever signed (unforgeable), the approvals by code hash, where each
      code went, the code behind each family, and the refresh tokens that were
      drawn, delivered to a client, or stranded by a save that failed after it
      had committed. */
  datatype System = System(
    store: Store, pending: map<nat, Pending>,
    signed: set<Consent>, approvals: map<Digest, Consent>, stage: map<Digest, Stage>,
    origin: map<string, Digest>, drawn: set<string>, returned: set<string>, stranded: set<string>)

  /** How a store call made through a port goes wrong, if it does. */
  datatype Fault = NoFault | ThrowsBefore | ThrowsAfter | MalformedAfter

  datatype Event =
    | Prepare(jti: string, expiresAt: int, clientId: string, subject: string, redirectUri: string,
              requested: seq<string>, ceiling: Option<seq<string>>, codeChallenge: string)
    | ApproveCheck(op: nat, consent: Consent, now: int)
    | ApproveRead(op: nat)
    | ApproveCommit(op: nat, now: int, code: string)
    | Redeem(op: nat, code: string, clientId: string, redirectUri: string, verifierMatches: bool, now: int)
    | IssueTokens(op: nat, family: string, random: string, fault: Fault)
    | RotateToken(op: nat, raw: string, clientId: string, random: string, now: int, fault: Fault)
    | FinishRefresh(op: nat, signs: bool)
    | Compensate(op: nat)
    | RevokeLookup(op: nat, raw: string, now: int)
    | RevokeCommit(op: nat)
    | Abandon(op: nat)
    | SweepRun(now: int)
    | Rebind(instanceId: string)
    | FlowCallback(jti: string, expiresAt: int)

  // ------------------------------------------------------------- scope narrowing

  function Filter(xs: seq<string>, allowed: seq<string>): seq<string> {
    if xs == [] then []
    else (if xs[0] in allowed then [xs[0]] else []) + Filter(xs[1..], allowed)
  }

  function Narrow(xs: seq<string>, ceiling: Option<seq<string>>): seq<string> {
    if ceiling.Some? then Filter(xs, ceiling.value) else xs
  }

  predicate CeilingOk(ceiling: Option<seq<string>>) {
    ceiling.Some? ==> ScopeClaim.WithinEntryLimits(ceiling.value)
  }

  /** The scopes an approval commits: the consent's and the prior grants, each
      once, re-intersected with the ceiling of the signed consent. */
  function ApprovedScopes(cfg: Config, consent: Consent, prior: seq<string>): Option<seq<string>> {
    var own := ScopeClaim.StoredScopes(consent.scopes, cfg.catalog);
    var granted := ScopeClaim.StoredScopes(prior, cfg.catalog);
    if own.None? || granted.None? || !CeilingOk(consent.ceiling) then None
    else Some(Narrow(AppendNew([], own.value + granted.value), consent.ceiling))
  }

  // ----------------------------------------------------------------------- steps

  function DoPrepare(cfg: Config, sys: System, e: Event): System
    requires e.Prepare?
  {
    var scopes := Narrow(e.requested, e.ceiling);
    if sys.store.closed || e.subject == "" || ReservedSubject(e.subject) || !CeilingOk(e.ceiling)
       || (exists s :: s in e.requested && s !in cfg.catalog) || (e.ceiling.Some? && scopes == [])
    then sys
    else
      sys.(signed := sys.signed + {Consent(e.jti, e.expiresAt, e.clientId, e.subject, e.redirectUri, cfg.resource,
                                           scopes, e.ceiling, e.codeChallenge, sys.store.instanceId)})
  }

  function PriorQuery(cfg: Config, consent: Consent, now: int): GrantQuery {
    GrantQuery(consent.subject, consent.clientId, now, ExpectedGeneration(cfg), Some(cfg.resource))
  }

  function PriorScopes(cfg: Config, s: Store, consent: Consent, now: int): Option<seq<string>> {
    if !AccumulationAllowed(cfg, consent.clientId) then Some([])
    else
      var answer := DoFindGranted(s, PriorQuery(cfg, consent, now)).answer;
      if answer.Scopes? then Some(answer.scopes) else None
  }

  /** Approval up to the read of the instance id: the clock is read, the token verified. */
  function DoApproveCheck(cfg: Config, sys: System, e: Event): System
    requires e.ApproveCheck?
  {
    var c := e.consent;
    if e.op in sys.pending || c !in sys.signed || !CanonicalTime(e.now) || c.expiresAt <= e.now
       || c.resource != cfg.resource || c.instanceId != sys.store.instanceId
    then sys
    else sys.(pending := sys.pending[e.op := Checked(c, e.now)])
  }

  /** Approval's read of the prior grants, at the first clock reading, and the narrowing. */
  function DoApproveRead(cfg: Config, sys: System, e: Event): System
    requires e.ApproveRead?
  {
    if e.op !in sys.pending || !sys.pending[e.op].Checked? then sys
    else
      var p := sys.pending[e.op];
      var prior := PriorScopes(cfg, sys.store, p.consent, p.startedAt);
      var scopes := if prior.None? then None else ApprovedScopes(cfg, p.consent, prior.value);
      if scopes.None? then sys.(pending := Drop(sys.pending, e.op))
      else sys.(pending := sys.pending[e.op := Approving(p.consent, scopes.value, p.startedAt)])
  }

  function Drop(pending: map<nat, Pending>, op: nat): map<nat, Pending> {
    pending - {op}
  }

  function CodeOf(cfg: Config, p: Pending, code: string, now: int): CodeWrite
    requires p.Approving?
  {
    var c := p.consent;
    CodeWrite(AuthCode(Sha256(code), c.clientId, c.subject, c.redirectUri, c.resource, p.scopes, c.codeChallenge,
                       now + cfg.codeTtlMs, None),
              "S256", Explicit(ExpectedGeneration(cfg)))
  }

  /** The fresh clock reading allows the commit: usable, not behind the first one, before the consent's expiry. */
  predicate CommitReached(cfg: Config, p: Pending, now: int)
    requires p.Approving?
  {
    CanonicalTime(now) && CanonicalTime(now + cfg.codeTtlMs) && p.startedAt <= now < p.consent.expiresAt
  }

  /** Approval from its commit on: fresh clock reading, expiry rechecked, one atomic store call. */
  function DoApproveCommit(cfg: Config, sys: System, e: Event): System
    requires e.ApproveCommit?
  {
    if e.op !in sys.pending || !sys.pending[e.op].Approving? then sys
    else
      var p := sys.pending[e.op];
      var rest := sys.(pending := Drop(sys.pending, e.op));
      if !CommitReached(cfg, p, e.now) then rest
      else
        var out := DoCommitApproval(sys.store, p.consent.instanceId, p.consent.jti, p.consent.expiresAt, CodeOf(cfg, p, e.code, e.now));
        if out.answer != Commit(Stored) then rest.(store := out.store)
        else rest.(store := out.store,
                   approvals := sys.approvals[Sha256(e.code) := p.consent],
                   stage := sys.stage[Sha256(e.code) := InStore])
  }

  /** The operation's clock is usable: now and the later token expiry are canonical. */
  predicate UsableClock(cfg: Config, now: int) {
    CanonicalTime(now) && CanonicalTime(now + Max(cfg.accessTtlMs, cfg.refreshTtlMs))
  }

  predicate RedeemChecks(cfg: Config, e: Event, code: AuthCode)
    requires e.Redeem?
  {
    && (cfg.storedDcr ==> code.generation == ExpectedGeneration(cfg)) && code.resource == cfg.resource
    && e.clientId == code.clientId && e.redirectUri == code.redirectUri && e.verifierMatches
    && !ReservedSubject(code.subject) && ScopeClaim.StoredScopes(code.scopes, cfg.catalog).Some?
  }

  /** Code exchange up to the store's consumption of the code. */
  function DoRedeem(cfg: Config, sys: System, e: Event): System
    requires e.Redeem?
  {
    if e.op in sys.pending || !UsableClock(cfg, e.now) || e.code == "" then sys
    else
      var h := Sha256(e.code);
      var out := DoConsumeCode(sys.store, h, e.now, ExpectedGeneration(cfg), Some(cfg.resource));
      var gone := h in sys.stage && h in sys.store.codes && h !in out.store.codes;
      if out.answer.CodeRow? && out.answer.code.Some? && RedeemChecks(cfg, e, out.answer.code.value) then
        sys.(store := out.store, pending := sys.pending[e.op := Redeeming(out.answer.code.value, e.now)],
             stage := sys.stage[h := HeldBy(e.op)])
      else sys.(store := out.store, stage := if gone then sys.stage[h := Lost] else sys.stage)
  }

  function RootWrite(cfg: Config, p: Pending, raw: string, family: string): TokenWrite
    requires p.Redeeming?
  {
    var c := p.code;
    TokenWrite(Token(Sha256(raw), family, None, c.clientId, c.subject, c.resource, c.scopes, p.at + cfg.refreshTtlMs, c.generation),
               Some(c.resource), Explicit(c.generation))
  }

  /** Code exchange from the save of the family's root on. There is no
      compensation here: a save that throws after committing strands the root. */
  function DoIssueTokens(cfg: Config, sys: System, e: Event): System
    requires e.IssueTokens?
  {
    if e.op !in sys.pending || !sys.pending[e.op].Redeeming? then sys
    else
      var p := sys.pending[e.op];
      var raw := GenerateRefreshToken(e.family, e.random);
      var rest := sys.(pending := Drop(sys.pending, e.op), drawn := sys.drawn + {raw},
                       stage := sys.stage[p.code.codeHash := Lost]);
      if e.fault.ThrowsBefore? then rest
      else
        var out := DoSaveToken(sys.store, RootWrite(cfg, p, raw, e.family));
        if out.answer.Thrown? then rest
        else
          var saved := rest.(store := out.store, stage := sys.stage[p.code.codeHash := IssuedTo(e.family)],
                             origin := sys.origin[e.family := p.code.codeHash]);
          if e.fault.ThrowsAfter? then saved.(stranded := sys.stranded + {raw})
          else saved.(returned := sys.returned + {raw})
  }

  function NextWrite(cfg: Config, e: Event, family: string, successor: string): TokenWrite
    requires e.RotateToken?
  {
    TokenWrite(Token(Sha256(successor), family, Some(Sha256(e.raw)), e.clientId, "", "", [], e.now + cfg.refreshTtlMs, None),
               Some(cfg.resource), Omitted)
  }

  /** Refresh up to the answer of the rotation. Any throw, before or after the
      store committed, and any unreadable answer, leads to the compensating revoke. */
  function DoRotateToken(cfg: Config, sys: System, e: Event): System
    requires e.RotateToken?
  {
    var parsed := ParseRefreshFamilyId(e.raw);
    if e.op in sys.pending || !UsableClock(cfg, e.now) || parsed.None? then sys
    else
      var family := parsed.value;
      var successor := GenerateRefreshToken(family, e.random);
      var drawn := sys.(drawn := sys.drawn + {successor});
      var compensate := drawn.(pending := sys.pending[e.op := Compensating(family, e.now)]);
      if e.fault.ThrowsBefore? then compensate
      else
        var out := DoRotate(sys.store, Sha256(e.raw), NextWrite(cfg, e, family, successor), e.now,
                            ExpectedGeneration(cfg), Some(cfg.resource));
        if !e.fault.NoFault? || !out.answer.TokenRow? then compensate.(store := out.store)
        else if out.answer.token.None? then drawn.(store := out.store)
        else drawn.(store := out.store,
                    pending := sys.pending[e.op := Refreshing(out.answer.token.value, successor, e.clientId, family, e.now)])
  }

  predicate RefreshChecks(cfg: Config, p: Pending)
    requires p.Refreshing?
  {
    && (cfg.storedDcr ==> p.rotated.generation == ExpectedGeneration(cfg)) && p.rotated.resource == cfg.resource
    && p.clientId != "" && p.clientId == p.rotated.clientId
    && !ReservedSubject(p.rotated.subject) && ScopeClaim.StoredScopes(p.rotated.scopes, cfg.catalog).Some?
  }

  /** Refresh after the rotation: the answer is delivered, or the successor is revoked. */
  function DoFinishRefresh(cfg: Config, sys: System, e: Event): System
    requires e.FinishRefresh?
  {
    if e.op !in sys.pending || !sys.pending[e.op].Refreshing? then sys
    else
      var p := sys.pending[e.op];
      if RefreshChecks(cfg, p) && e.signs then
        sys.(pending := Drop(sys.pending, e.op), returned := sys.returned + {p.successor})
      else sys.(pending := sys.pending[e.op := Compensating(p.familyId, p.at)])
  }

  function DoCompensate(sys: System, e: Event): System
    requires e.Compensate?
  {
    if e.op !in sys.pending || !sys.pending[e.op].Compensating? then sys
    else
      var p := sys.pending[e.op];
      sys.(store := DoRevoke(sys.store, p.familyId, p.at, None).store, pending := Drop(sys.pending, e.op))
  }

  function DoRevokeLookup(cfg: Config, sys: System, e: Event): System
    requires e.RevokeLookup?
  {
    if e.op in sys.pending || !CanonicalTime(e.now) || e.raw == "" then sys
    else
      var answer := DoFindToken(sys.store, Sha256(e.raw)).answer;
      if answer.TokenRow? && answer.token.Some? && answer.token.value.resource == cfg.resource
      then sys.(pending := sys.pending[e.op := Revoking(answer.token.value.familyId, e.now)])
      else sys
  }

  function DoRevokeCommit(cfg: Config, sys: System, e: Event): System
    requires e.RevokeCommit?
  {
    if e.op !in sys.pending || !sys.pending[e.op].Revoking? then sys
    else
      var p := sys.pending[e.op];
      sys.(store := DoRevoke(sys.store, p.familyId, p.at, Some(cfg.resource)).store, pending := Drop(sys.pending, e.op))
  }

  /** A request that fails between two store calls and owes no compensation. */
  function DoAbandon(sys: System, e: Event): System
    requires e.Abandon?
  {
    if e.op !in sys.pending then sys
    else
      var p := sys.pending[e.op];
      if p.Checked? || p.Approving? || p.Revoking? then sys.(pending := Drop(sys.pending, e.op))
      else if p.Redeeming? then
        sys.(pending := Drop(sys.pending, e.op), stage := sys.stage[p.code.codeHash := Lost])
      else sys
  }

  function Step(cfg: Config, sys: System, e: Event): System {
    match e
    case Prepare(_, _, _, _, _, _, _, _) => DoPrepare(cfg, sys, e)
    case ApproveCheck(_, _, _) => DoApproveCheck(cfg, sys, e)
    case ApproveRead(_) => DoApproveRead(cfg, sys, e)
    case ApproveCommit(_, _, _) => DoApproveCommit(cfg, sys, e)
    case Redeem(_, _, _, _, _, _) => DoRedeem(cfg, sys, e)
    case IssueTokens(_, _, _, _) => DoIssueTokens(cfg, sys, e)
    case RotateToken(_, _, _, _, _, _) => DoRotateToken(cfg, sys, e)
    case FinishRefresh(_, _) => DoFinishRefresh(cfg, sys, e)
    case Compensate(_) => DoCompensate(sys, e)
    case RevokeLookup(_, _, _) => DoRevokeLookup(cfg, sys, e)
    case RevokeCommit(_) => DoRevokeCommit(cfg, sys, e)
    case Abandon(_) => DoAbandon(sys, e)
    case SweepRun(now) => sys.(store := DoSweep(sys.store, now).store)
    case Rebind(id) => sys.(store := DoRebind(sys.store, id).store)
    case FlowCallback(jti, exp) => sys.(store := DoConsumeJti(sys.store, jti, exp).store)
  }

  /** Random draws do not repeat: consent JTIs, codes, family ids and token texts. */
  predicate Fresh(sys: System, e: Event) {
    match e
    case Prepare(jti, _, _, _, _, _, _, _) => forall c :: c in sys.signed ==> c.jti != jti
    case ApproveCommit(_, _, code) => Sha256(code) !in sys.approvals
    case IssueTokens(_, family, random, _) =>
      && IsFamilyId(family) && IsBase64UrlText(random) && family !in sys.origin
      && GenerateRefreshToken(family, random) !in sys.drawn
    case RotateToken(_, raw, _, random, _, _) =>
      && IsBase64UrlText(random)
      && (ParseRefreshFamilyId(raw).Some? ==> GenerateRefreshToken(ParseRefreshFamilyId(raw).value, random) !in sys.drawn)
    case _ => true
  }

  function RunOf(cfg: Config, sys: System, events: seq<Event>): System
    decreases |events|
  {
    if events == [] then sys else RunOf(cfg, Step(cfg, sys, events[0]), events[1..])
  }

  /** Every random draw of the run is fresh when it is made. */
  ghost predicate FreshRun(cfg: Config, sys: System, events: seq<Event>) {
    forall i :: 0 <= i < |events| ==> Fresh(RunOf(cfg, sys, events[..i]), events[i])
  }

  /** A fresh run starts with a fresh step and goes on as a fresh run. */
  lemma FreshHeadAndTail(cfg: Config, sys: System, events: seq<Event>)
    requires FreshRun(cfg, sys, events) && events != []
    ensures Fresh(sys, events[0]) && FreshRun(cfg, Step(cfg, sys, events[0]), events[1..])
  {
    hide Step, Fresh;
    assert events[..0] == [];
    assert RunOf(cfg, sys, events[..0]) == sys;
    var rest := events[1..];
    forall i | 0 <= i < |rest| ensures Fresh(RunOf(cfg, Step(cfg, sys, events[0]), rest[..i]), rest[i]) {
      assert events[..i + 1][0] == events[0] && events[..i + 1][1..] == rest[..i];
      assert Fresh(RunOf(cfg, sys, events[..i + 1]), events[i + 1]);
    }
  }

  function Initial(instanceId: string): System {
    System(EmptyStore(instanceId), map[], {}, map[], map[], map[], {}, {}, {})
  }
}
