/** What collecting expired rows can change: exactly when a swept store answers a
    call differently from one that never is swept, and when it never does. */
module SweepInvisible {
  import opened Prelude
  import opened Clock
  import opened GrantStore
  import opened StoreInvariant

  // ------------------------------------------------------------ admissible runs

  /** What a run has seen so far: its latest sweep time, the expiry each JTI was
      presented with, and the hashes and families it has brought into the store. */
  datatype Past = Past(watermark: Option<int>, expiries: map<string, int>, hashes: set<Digest>, families: set<string>)

  predicate AtOrAfter(w: Option<int>, t: int) {
    w.Some? ==> t >= w.value
  }

  predicate SignedAlike(past: Past, jti: string, e: int) {
    jti in past.expiries ==> past.expiries[jti] == e
  }

  /** New token hashes and families are fresh, and a JTI always comes with the expiry it was signed with. */
  predicate FreshOp(op: Op, past: Past) {
    match op
    case CommitApproval(_, jti, e, _) => SignedAlike(past, jti, e)
    case ConsumeJti(jti, e) => SignedAlike(past, jti, e)
    case SaveToken(w) => w.row.tokenHash !in past.hashes && w.row.familyId !in past.families
    case Rotate(_, next, _, _, _) => next.row.tokenHash !in past.hashes
    case _ => true
  }

  /** The time a call goes by is not behind the sweeps: its own reading, or the expiry of its consent. */
  predicate OnTime(op: Op, w: Option<int>) {
    match op
    case CommitApproval(_, _, e, _) => AtOrAfter(w, e)
    case ConsumeJti(_, e) => AtOrAfter(w, e)
    case ConsumeCode(_, now, _, _) => AtOrAfter(w, now)
    case Rotate(_, _, now, _, _) => AtOrAfter(w, now)
    case FindGranted(q) => AtOrAfter(w, q.now)
    case _ => true
  }

  predicate Admissible(op: Op, past: Past) {
    FreshOp(op, past) && OnTime(op, past.watermark)
  }

  function LaterOf(w: Option<int>, t: int): Option<int> {
    if w.None? || w.value < t then Some(t) else w
  }

  function After(past: Past, op: Op): Past {
    match op
    case CommitApproval(_, jti, e, _) => past.(expiries := past.expiries[jti := e])
    case ConsumeJti(jti, e) => past.(expiries := past.expiries[jti := e])
    case SaveToken(w) => past.(hashes := past.hashes + {w.row.tokenHash}, families := past.families + {w.row.familyId})
    case Rotate(_, next, _, _, _) => past.(hashes := past.hashes + {next.row.tokenHash})
    case Sweep(now) => past.(watermark := LaterOf(past.watermark, now))
    case _ => past
  }

  predicate FreshRun(ops: seq<Op>, past: Past)
    decreases |ops|
  {
    ops != [] ==> FreshOp(ops[0], past) && FreshRun(ops[1..], After(past, ops[0]))
  }

  predicate AdmissibleRun(ops: seq<Op>, past: Past)
    decreases |ops|
  {
    ops != [] ==> Admissible(ops[0], past) && AdmissibleRun(ops[1..], After(past, ops[0]))
  }

  // -------------------------------------------------------------- what is seen

  /** Everything but a sweep itself and the bare existence lookup. */
  predicate Visible(op: Op) {
    !op.Sweep? && !op.FindToken?
  }

  /** The answers to all calls of a run but the sweeps. */
  function AllAnswers(s: Store, ops: seq<Op>): seq<Answer>
    decreases |ops|
  {
    if ops == [] then []
    else
      var out := Apply(s, ops[0]);
      (if ops[0].Sweep? then [] else [out.answer]) + AllAnswers(out.store, ops[1..])
  }

  /** Equal answers, scope lists as sets: their order never reaches a token (see ScopeClaim.ClaimIgnoresOrder). */
  ghost predicate Alike(x: Answer, y: Answer) {
    if x.Scopes? && y.Scopes? then (forall scope :: scope in x.scopes <==> scope in y.scopes) else x == y
  }

  ghost predicate AllAlike(xs: seq<Answer>, ys: seq<Answer>) {
    |xs| == |ys| && forall i :: 0 <= i < |xs| ==> Alike(xs[i], ys[i])
  }

  // ------------------------------------------------------------ when a call differs

  /** Whether presenting the stored code uses it up. */
  predicate UsesUp(code: AuthCode, h: Digest, now: int, r: Option<string>) {
    h.Sha256? && CanonicalTime(now) && (r.Some? ==> code.resource == r.value) && ValidSubject(code.subject)
  }

  /** The row counts for the query and has been swept. */
  predicate LateRow(a: Store, b: Store, q: GrantQuery, h: Digest) {
    Contributes(b, h, q) && h !in a.tokens
  }

  ghost predicate Granted(s: Store, q: GrantQuery, scope: string) {
    exists h :: Contributes(s, h, q) && scope in s.tokens[h].token.scopes
  }

  /** The call finds something swept that it could still have used. `a` is the swept store, `b` what the store
      would be had it never been swept. A JTI is refused for the watermark alone; a code, a token or a grant is
      missed although it is unexpired at the time the call goes by. */
  ghost predicate Affected(a: Store, b: Store, op: Op) {
    !a.closed &&
    match op
    case CommitApproval(i, jti, e, code) =>
      && ValidInstanceId(i) && CanonicalTime(e) && ValidCodeWrite(code) && i == a.instanceId
      && jti !in b.jtis && Fenced(a, e)
    case ConsumeJti(jti, e) => CanonicalTime(e) && jti !in b.jtis && Fenced(a, e)
    case ConsumeCode(h, now, g, r) =>
      && h in b.codes && h !in a.codes && UsesUp(b.codes[h], h, now, r)
      && now < b.codes[h].expiresAt && (g.Some? ==> b.codes[h].generation == g)
    case Rotate(h, next, now, g, r) =>
      && RotationInput(h, next, now) && h in b.tokens && h !in a.tokens && b.tokens[h].token.familyId in b.families
      && CaseOf(b.tokens[h], b.families[b.tokens[h].token.familyId], next.row.tokenHash in b.tokens, next, now, g, r) == Rotates
    case FindToken(h) => h in b.tokens && h !in a.tokens
    case FindGranted(q) =>
      && ValidSubject(q.subject) && CanonicalTime(q.now)
      && exists h, scope :: LateRow(a, b, q, h) && scope in b.tokens[h].token.scopes && !Granted(a, q, scope)
    case _ => false
  }

  /** No call of the run is affected by the sweeps before it. */
  ghost predicate NoneAffected(a: Store, b: Store, ops: seq<Op>)
    decreases |ops|
  {
    ops == [] ||
      (if ops[0].Sweep? then NoneAffected(Apply(a, ops[0]).store, b, ops[1..])
       else !Affected(a, b, ops[0]) && NoneAffected(Apply(a, ops[0]).store, Apply(b, ops[0]).store, ops[1..]))
  }

  /** The answers to the visible calls of a run. */
  function Answers(s: Store, ops: seq<Op>): seq<Answer>
    decreases |ops|
  {
    if ops == [] then []
    else
      var out := Apply(s, ops[0]);
      (if Visible(ops[0]) then [out.answer] else []) + Answers(out.store, ops[1..])
  }

  function WithoutSweeps(ops: seq<Op>): seq<Op>
    decreases |ops|
  {
    if ops == [] then []
    else if ops[0].Sweep? then WithoutSweeps(ops[1..])
    else [ops[0]] + WithoutSweeps(ops[1..])
  }

  // ----------------------------------------------------------------- simulation

  type Rows = map<Digest, StoredToken>
  type Families = map<string, Family>

  predicate SimCodes(a: map<Digest, AuthCode>, b: map<Digest, AuthCode>, w: Option<int>) {
    && (forall h :: h in a ==> h in b && a[h] == b[h])
    && (forall h :: h in b && h !in a ==> w.Some? && b[h].expiresAt < w.value)
  }

  predicate SimJtis(a: map<string, int>, b: map<string, int>, expiries: map<string, int>, w: Option<int>) {
    && (forall j :: j in a ==> j in b && a[j] == b[j])
    && (forall j :: j in b ==> j in expiries && expiries[j] == b[j])
    && (forall j :: j in b && j !in a ==> w.Some? && b[j] < w.value)
  }

  /** The swept store holds a part of the other's rows, whole families at a time,
      and every row it lacks had expired by the watermark. */
  predicate SimRows(ta: Rows, fa: set<string>, tb: Rows, w: Option<int>) {
    && (forall h :: h in ta ==> h in tb && ta[h] == tb[h])
    && (forall h :: h in tb && h !in ta ==> tb[h].token.familyId !in fa && w.Some? && tb[h].token.expiresAt < w.value)
  }

  predicate SimFamilies(fa: Families, fb: Families) {
    forall f :: f in fa ==> f in fb && fa[f] == fb[f]
  }

  predicate SimTokens(ta: Rows, fa: Families, oa: seq<Digest>, tb: Rows, fb: Families, ob: seq<Digest>, w: Option<int>) {
    && SimRows(ta, fa.Keys, tb, w)
    && SimFamilies(fa, fb)
    && oa == KeepKeys(ob, ta.Keys)
  }

  predicate SimGuards(a: Store, b: Store, w: Option<int>) {
    && a.closed == b.closed && a.instanceId == b.instanceId
    && b.sweptThrough.None?
    && (a.sweptThrough.Some? ==> w.Some? && a.sweptThrough.value <= w.value)
  }

  predicate Known(hashes: set<Digest>, families: set<string>, past: Past) {
    hashes <= past.hashes && families <= past.families
  }

  predicate Sim(a: Store, b: Store, past: Past) {
    && SimGuards(a, b, past.watermark)
    && SimCodes(a.codes, b.codes, a.sweptThrough)
    && SimJtis(a.jtis, b.jtis, past.expiries, a.sweptThrough)
    && SimTokens(a.tokens, a.families, a.order, b.tokens, b.families, b.order, a.sweptThrough)
    && Known(b.tokens.Keys, b.families.Keys, past)
  }

  // --------------------------------------------------------------- single steps

  lemma TombstoneKeepsSim(a: map<string, int>, b: map<string, int>, expiries: map<string, int>, w: Option<int>, jti: string, e: int)
    requires SimJtis(a, b, expiries, w) && (jti in expiries ==> expiries[jti] == e)
    ensures SimJtis(a, b, expiries[jti := e], w)
    ensures jti !in b ==> SimJtis(a[jti := e], b[jti := e], expiries[jti := e], w)
  {
  }

  /** The swept side refuses what the other has spent, and what its watermark has passed. */
  lemma SpentOrPassed(a: Store, b: Store, jti: string, e: int, past: Past)
    requires SimGuards(a, b, past.watermark) && SimJtis(a.jtis, b.jtis, past.expiries, a.sweptThrough)
    requires SignedAlike(past, jti, e)
    ensures jti in a.jtis || Fenced(a, e) <==> jti in b.jtis || Fenced(a, e)
    ensures jti in b.jtis ==> jti in a.jtis || Fenced(a, e)
    ensures !Fenced(b, e)
  {
  }

  lemma CommitAgrees(a: Store, b: Store, i: string, jti: string, e: int, code: CodeWrite, past: Past)
    requires Sim(a, b, past) && SignedAlike(past, jti, e)
    ensures var op := CommitApproval(i, jti, e, code);
      var x, y := DoCommitApproval(a, i, jti, e, code), DoCommitApproval(b, i, jti, e, code);
      && (Affected(a, b, op) <==> x.answer != y.answer)
      && (!Affected(a, b, op) ==> Sim(x.store, y.store, After(past, op)))
  {
    hide SimTokens, SimJtis, SimCodes, ValidCodeWrite, ValidInstanceId, CanonicalTime;
    SpentOrPassed(a, b, jti, e, past);
    TombstoneKeepsSim(a.jtis, b.jtis, past.expiries, a.sweptThrough, jti, e);
    FiledCodeKeepsSim(a.codes, b.codes, a.sweptThrough, code);
  }

  lemma FiledCodeKeepsSim(a: map<Digest, AuthCode>, b: map<Digest, AuthCode>, w: Option<int>, code: CodeWrite)
    requires SimCodes(a, b, w)
    ensures SimCodes(a[code.row.codeHash := StoredCode(code)], b[code.row.codeHash := StoredCode(code)], w)
  {
  }

  lemma JtiAgrees(a: Store, b: Store, jti: string, e: int, past: Past)
    requires Sim(a, b, past) && SignedAlike(past, jti, e)
    ensures var op, x, y := ConsumeJti(jti, e), DoConsumeJti(a, jti, e), DoConsumeJti(b, jti, e);
      && (Affected(a, b, op) <==> x.answer != y.answer)
      && (!Affected(a, b, op) ==> Sim(x.store, y.store, After(past, op)))
  {
    hide SimTokens, SimCodes;
    SpentOrPassed(a, b, jti, e, past);
    TombstoneKeepsSim(a.jtis, b.jtis, past.expiries, a.sweptThrough, jti, e);
  }

  lemma SaveCodeAgrees(a: Store, b: Store, code: CodeWrite, past: Past)
    requires Sim(a, b, past)
    ensures DoSaveCode(a, code).answer == DoSaveCode(b, code).answer
    ensures Sim(DoSaveCode(a, code).store, DoSaveCode(b, code).store, past)
  {
    hide SimTokens, SimJtis, ValidCodeWrite;
  }

  lemma ConsumeCodeAgrees(a: Store, b: Store, h: Digest, now: int, g: Option<int>, r: Option<string>)
    requires a.closed == b.closed && SimCodes(a.codes, b.codes, a.sweptThrough) && CodesOk(b.codes)
    ensures Affected(a, b, ConsumeCode(h, now, g, r)) <==> DoConsumeCode(a, h, now, g, r).answer != DoConsumeCode(b, h, now, g, r).answer
  {
  }

  lemma CodesAfterConsume(s: Store, h: Digest, now: int, g: Option<int>, r: Option<string>)
    ensures DoConsumeCode(s, h, now, g, r).store.codes ==
      if !s.closed && h in s.codes && UsesUp(s.codes[h], h, now, r) then s.codes - {h} else s.codes
  {
  }

  lemma ConsumedCodesAgree(a: Store, b: Store, h: Digest, now: int, g: Option<int>, r: Option<string>)
    requires a.closed == b.closed && SimCodes(a.codes, b.codes, a.sweptThrough)
    ensures SimCodes(DoConsumeCode(a, h, now, g, r).store.codes, DoConsumeCode(b, h, now, g, r).store.codes, a.sweptThrough)
  {
    hide DoConsumeCode, UsesUp;
    CodesAfterConsume(a, h, now, g, r);
    CodesAfterConsume(b, h, now, g, r);
  }

  lemma ConsumeCodeTouchesCodesOnly(s: Store, h: Digest, now: int, g: Option<int>, r: Option<string>)
    ensures var s' := DoConsumeCode(s, h, now, g, r).store; s' == s.(codes := s'.codes)
  {
  }

  lemma ConsumeKeepsSim(a: Store, b: Store, h: Digest, now: int, g: Option<int>, r: Option<string>, past: Past)
    requires Sim(a, b, past)
    ensures Sim(DoConsumeCode(a, h, now, g, r).store, DoConsumeCode(b, h, now, g, r).store, past)
  {
    hide DoConsumeCode, SimTokens, SimJtis, SimCodes;
    ConsumedCodesAgree(a, b, h, now, g, r);
    ConsumeCodeTouchesCodesOnly(a, h, now, g, r);
    ConsumeCodeTouchesCodesOnly(b, h, now, g, r);
  }

  lemma {:induction false} KeepKeysIgnoresOthers(order: seq<Digest>, k: set<Digest>, h: Digest)
    requires h !in order
    ensures KeepKeys(order, k + {h}) == KeepKeys(order, k)
  {
    if order != [] { KeepKeysIgnoresOthers(order[..|order| - 1], k, h); }
  }

  lemma OrderAfterSave(order: seq<Digest>, k: set<Digest>, h: Digest)
    requires h !in order
    ensures KeepKeys(order + [h], k + {h}) == KeepKeys(order, k) + [h]
  {
    KeepKeysIgnoresOthers(order, k, h);
    assert (order + [h])[..|order|] == order;
  }

  lemma RootedTokensAgree(a: Store, b: Store, row: Token, past: Past)
    requires Sim(a, b, past) && Valid(b) && row.tokenHash !in past.hashes && row.familyId !in past.families
    ensures row.tokenHash !in a.tokens && row.tokenHash !in b.tokens && row.familyId !in a.families && row.familyId !in b.families
    ensures var h, f, root, family := row.tokenHash, row.familyId, StoredToken(row, None), Family(None, row.generation, row.resource);
      && SimTokens(a.tokens[h := root], a.families[f := family], a.order + [h],
                   b.tokens[h := root], b.families[f := family], b.order + [h], a.sweptThrough)
      && b.tokens[h := root].Keys == b.tokens.Keys + {h} && b.families[f := family].Keys == b.families.Keys + {f}
  {
    hide SimCodes, SimJtis;
    var h, f := row.tokenHash, row.familyId;
    OrderAfterSave(b.order, a.tokens.Keys, h);
    SimRowsAfterRoot(a.tokens, a.families.Keys, b.tokens, a.sweptThrough, row, b.families);
    assert a.tokens[h := StoredToken(row, None)].Keys == a.tokens.Keys + {h};
    assert a.families[f := Family(None, row.generation, row.resource)].Keys == a.families.Keys + {f};
  }

  lemma SaveAgrees(a: Store, b: Store, w: TokenWrite, past: Past)
    requires Sim(a, b, past) && Valid(b) && FreshOp(SaveToken(w), past)
    ensures DoSaveToken(a, w).answer == DoSaveToken(b, w).answer
    ensures Sim(DoSaveToken(a, w).store, DoSaveToken(b, w).store, After(past, SaveToken(w)))
  {
    hide SimCodes, SimJtis, SimTokens, ValidTokenWrite, ValidSubject;
    RootedTokensAgree(a, b, StoredRow(w), past);
  }

  lemma SimRowsAfterRoot(ta: Rows, fa: set<string>, tb: Rows, w: Option<int>, row: Token, fb: Families)
    requires SimRows(ta, fa, tb, w) && RowsAgree(tb, fb)
    requires row.tokenHash !in tb && row.familyId !in fb
    ensures SimRows(ta[row.tokenHash := StoredToken(row, None)], fa + {row.familyId}, tb[row.tokenHash := StoredToken(row, None)], w)
  {
    forall h | h in tb && h !in ta ensures tb[h].token.familyId !in fa + {row.familyId} { assert Agrees(fb, tb[h].token); }
  }

  lemma RevokedAlike(fa: Families, fb: Families, f: string, now: int, r: Option<string>)
    requires SimFamilies(fa, fb)
    ensures SimFamilies(RevokedIn(fa, f, now, r), RevokedIn(fb, f, now, r))
    ensures RevokedIn(fa, f, now, r).Keys == fa.Keys && RevokedIn(fb, f, now, r).Keys == fb.Keys
    ensures f !in fa ==> SimFamilies(fa, RevokedIn(fb, f, now, r))
  {
  }

  lemma RevokeAgrees(a: Store, b: Store, f: string, now: int, r: Option<string>, past: Past)
    requires Sim(a, b, past)
    ensures DoRevoke(a, f, now, r).answer == DoRevoke(b, f, now, r).answer
    ensures Sim(DoRevoke(a, f, now, r).store, DoRevoke(b, f, now, r).store, past)
  {
    RevokedAlike(a.families, b.families, f, now, r);
  }

  /** A row only the unswept side still has: the swept side misses it. Where the other side does not rotate it, it
      revokes at most a family that the swept side has forgotten. */
  lemma RotateOfSweptRow(a: Store, b: Store, hash: Digest, next: TokenWrite, now: int, g: Option<int>, r: Option<string>, past: Past)
    requires Sim(a, b, past) && Valid(b) && hash in b.tokens && hash !in a.tokens
    requires !b.closed && RotationInput(hash, next, now)
    ensures DoRotate(a, hash, next, now, g, r) == Outcome(a, TokenRow(None))
    ensures Affected(a, b, Rotate(hash, next, now, g, r)) <==> DoRotate(b, hash, next, now, g, r).answer != TokenRow(None)
    ensures !Affected(a, b, Rotate(hash, next, now, g, r)) ==>
      Sim(a, DoRotate(b, hash, next, now, g, r).store, past.(hashes := past.hashes + {next.row.tokenHash}))
  {
    hide SimCodes, SimJtis, CaseOf, Valid, RotationInput, RotatedRows;
    MissingRowIsMissed(a, hash, next, now, g, r);
    RotationByCase(b, hash, next, now, g, r);
    RowFacts(b, hash);
    hide DoRotate;
    RevokedAlike(a.families, b.families, b.tokens[hash].token.familyId, now, None);
  }

  lemma MissingRowIsMissed(s: Store, hash: Digest, next: TokenWrite, now: int, g: Option<int>, r: Option<string>)
    requires hash !in s.tokens && !s.closed && RotationInput(hash, next, now)
    ensures DoRotate(s, hash, next, now, g, r) == Outcome(s, TokenRow(None))
  {
  }

  lemma OrderIsOk(s: Store)
    requires Valid(s)
    ensures OrderOk(s.order, s.tokens.Keys)
  {
  }

  lemma SameCaseAgrees(a: Store, b: Store, c: RotationCase, hash: Digest, next: TokenWrite, now: int, past: Past)
    requires Sim(a, b, past) && OrderOk(b.order, b.tokens.Keys) && hash in a.tokens && hash in b.tokens && next.row.tokenHash !in past.hashes
    ensures CaseOutcome(a, c, hash, next, now).answer == CaseOutcome(b, c, hash, next, now).answer
    ensures Sim(CaseOutcome(a, c, hash, next, now).store, CaseOutcome(b, c, hash, next, now).store,
                past.(hashes := past.hashes + {next.row.tokenHash}))
  {
    hide SimCodes, SimJtis, RotatedRows, RevokedIn, OrderOk, KeepKeys;
    RevokedAlike(a.families, b.families, a.tokens[hash].token.familyId, now, None);
    RotatedRowsAgree(a, b, hash, next, now, past);
  }

  /** The same row in the same family meets the same case on both sides. */
  lemma RotateOfKeptRow(a: Store, b: Store, hash: Digest, next: TokenWrite, now: int, g: Option<int>, r: Option<string>, past: Past)
    requires Sim(a, b, past) && Valid(a) && Valid(b) && hash in a.tokens
    requires !a.closed && RotationInput(hash, next, now) && next.row.tokenHash !in past.hashes
    ensures DoRotate(a, hash, next, now, g, r).answer == DoRotate(b, hash, next, now, g, r).answer
    ensures Sim(DoRotate(a, hash, next, now, g, r).store, DoRotate(b, hash, next, now, g, r).store, After(past, Rotate(hash, next, now, g, r)))
  {
    hide DoRotate, CaseOutcome, CaseOf, SimCodes, SimJtis, Valid, RotationInput;
    OrderIsOk(b);
    RotationByCase(a, hash, next, now, g, r);
    RotationByCase(b, hash, next, now, g, r);
    var c := CaseOf(a.tokens[hash], a.families[a.tokens[hash].token.familyId], false, next, now, g, r);
    SameCaseAgrees(a, b, c, hash, next, now, past);
  }

  lemma MoreHashes(a: Store, b: Store, past: Past, h: Digest)
    requires Sim(a, b, past)
    ensures Sim(a, b, past.(hashes := past.hashes + {h}))
    ensures a.closed == b.closed
  {
  }

  lemma RotateAgrees(a: Store, b: Store, hash: Digest, next: TokenWrite, now: int, g: Option<int>, r: Option<string>, past: Past)
    requires Sim(a, b, past) && Valid(a) && Valid(b) && FreshOp(Rotate(hash, next, now, g, r), past)
    ensures var op, x, y := Rotate(hash, next, now, g, r), DoRotate(a, hash, next, now, g, r), DoRotate(b, hash, next, now, g, r);
      && (Affected(a, b, op) <==> x.answer != y.answer)
      && (!Affected(a, b, op) ==> Sim(x.store, y.store, After(past, op)))
  {
    hide Sim, Valid;
    MoreHashes(a, b, past, next.row.tokenHash);
    if !a.closed && RotationInput(hash, next, now) {
      if hash in a.tokens {
        RotateOfKeptRow(a, b, hash, next, now, g, r, past);
      } else if hash in b.tokens {
        RotateOfSweptRow(a, b, hash, next, now, g, r, past);
      }
    }
  }

  lemma RotatedRowsAgree(a: Store, b: Store, hash: Digest, next: TokenWrite, now: int, past: Past)
    requires Sim(a, b, past) && OrderOk(b.order, b.tokens.Keys)
    requires hash in a.tokens && next.row.tokenHash !in b.tokens
    ensures SimTokens(RotatedRows(a.tokens, hash, next, now), a.families, a.order + [next.row.tokenHash],
                      RotatedRows(b.tokens, hash, next, now), b.families, b.order + [next.row.tokenHash], a.sweptThrough)
    ensures RotatedRows(b.tokens, hash, next, now).Keys == b.tokens.Keys + {next.row.tokenHash}
  {
    OrderAfterSave(b.order, a.tokens.Keys, next.row.tokenHash);
    assert RotatedRows(a.tokens, hash, next, now).Keys == a.tokens.Keys + {next.row.tokenHash};
  }

  /** A row both sides have counts on both or on neither. */
  lemma KeptRowsCountAlike(a: Store, b: Store, past: Past, q: GrantQuery, h: Digest)
    requires Sim(a, b, past) && RowsAgree(a.tokens, a.families) && h in a.tokens
    ensures Contributes(a, h, q) <==> Contributes(b, h, q)
    ensures h in b.tokens && a.tokens[h] == b.tokens[h]
  {
    assert Agrees(a.families, a.tokens[h].token);
  }

  /** Where no swept row counts, the lists are equal. */
  lemma {:induction false} CollectAgrees(a: Store, b: Store, keys: seq<Digest>, q: GrantQuery, past: Past)
    requires Sim(a, b, past) && RowsAgree(a.tokens, a.families)
    requires forall h :: h in keys ==> h in b.tokens && !LateRow(a, b, q, h)
    ensures Collect(a, KeepKeys(keys, a.tokens.Keys), q) == Collect(b, keys, q)
  {
    hide Sim, Contributes, RowsAgree;
    if keys != [] {
      var front, h := keys[..|keys| - 1], keys[|keys| - 1];
      CollectAgrees(a, b, front, q, past);
      if h in a.tokens {
        var kept := KeepKeys(front, a.tokens.Keys);
        assert (kept + [h])[..|kept|] == kept;
        KeptRowsCountAlike(a, b, past, q, h);
      }
    }
  }

  /** The unswept side reports the same scopes and those of the late rows. */
  lemma GrantedOnTheOtherSide(a: Store, b: Store, past: Past, q: GrantQuery, scope: string)
    requires Sim(a, b, past) && RowsAgree(a.tokens, a.families)
    ensures Granted(b, q, scope) <==> Granted(a, q, scope) || exists h :: LateRow(a, b, q, h) && scope in b.tokens[h].token.scopes
  {
    hide Sim, RowsAgree;
    if h :| Contributes(b, h, q) && scope in b.tokens[h].token.scopes {
      if h in a.tokens { KeptRowsCountAlike(a, b, past, q, h); } else { assert LateRow(a, b, q, h); }
    }
    if h :| Contributes(a, h, q) && scope in a.tokens[h].token.scopes {
      KeptRowsCountAlike(a, b, past, q, h);
    }
  }

  lemma FindAgrees(a: Store, b: Store, q: GrantQuery, past: Past)
    requires Sim(a, b, past) && Valid(a) && Valid(b)
    ensures Affected(a, b, FindGranted(q)) <==> !Alike(DoFindGranted(a, q).answer, DoFindGranted(b, q).answer)
    ensures (forall h :: !LateRow(a, b, q, h)) ==> DoFindGranted(a, q).answer == DoFindGranted(b, q).answer
  {
    hide Sim, Valid, RowsAgree, ValidSubject, CanonicalTime;
    FindPreconditions(a, b, past);
    forall scope ensures scope in Collect(a, a.order, q) <==> Granted(a, q, scope) { GrantedExactly(a, q, scope); }
    forall scope ensures scope in Collect(b, b.order, q) <==> Granted(b, q, scope) { GrantedExactly(b, q, scope); }
    forall scope ensures Granted(b, q, scope) <==> Granted(a, q, scope) || exists h :: LateRow(a, b, q, h) && scope in b.tokens[h].token.scopes {
      GrantedOnTheOtherSide(a, b, past, q, scope);
    }
    if forall h :: !LateRow(a, b, q, h) { CollectAgrees(a, b, b.order, q, past); }
  }

  lemma LookupAgrees(a: Store, b: Store, h: Digest, past: Past)
    requires Sim(a, b, past)
    ensures Affected(a, b, FindToken(h)) <==> DoFindToken(a, h).answer != DoFindToken(b, h).answer
    ensures DoFindToken(a, h).store == a && DoFindToken(b, h).store == b
  {
  }

  lemma FindPreconditions(a: Store, b: Store, past: Past)
    requires Sim(a, b, past) && Valid(a) && Valid(b)
    ensures a.closed == b.closed && RowsAgree(a.tokens, a.families)
    ensures a.order == KeepKeys(b.order, a.tokens.Keys) && forall h :: h in b.order ==> h in b.tokens
  {
  }

  lemma {:induction false} KeepKeysTwice(order: seq<Digest>, k: set<Digest>, k': set<Digest>)
    requires k' <= k
    ensures KeepKeys(KeepKeys(order, k), k') == KeepKeys(order, k')
  {
    if order != [] {
      var front, h := order[..|order| - 1], order[|order| - 1];
      KeepKeysTwice(front, k, k');
      var kept := KeepKeys(front, k);
      if h in k { assert (kept + [h])[..|kept|] == kept; }
    }
  }

  lemma SweptRowsSim(a: Store, b: Store, now: int)
    requires SimTokens(a.tokens, a.families, a.order, b.tokens, b.families, b.order, a.sweptThrough)
    ensures var a' := SweptStore(a, now);
      SimTokens(a'.tokens, a'.families, a'.order, b.tokens, b.families, b.order, a'.sweptThrough)
  {
    var a' := SweptStore(a, now);
    KeepKeysTwice(b.order, a.tokens.Keys, a'.tokens.Keys);
    forall h | h in b.tokens && h !in a'.tokens
      ensures b.tokens[h].token.familyId !in a'.families && b.tokens[h].token.expiresAt < a'.sweptThrough.value {
      if h in a.tokens { assert !FamilyLive(a.tokens, a.tokens[h].token.familyId, now); }
    }
  }

  lemma WatermarkMayGrow(a: Store, b: Store, past: Past, now: int)
    requires Sim(a, b, past)
    ensures Sim(a, b, After(past, Sweep(now)))
  {
  }

  /** One sweep, carried out or refused, against no call at all on the other side. */
  lemma SweepKeepsSim(a: Store, b: Store, now: int, past: Past)
    requires Sim(a, b, past)
    ensures Sim(DoSweep(a, now).store, b, After(past, Sweep(now)))
  {
    SweptRowsSim(a, b, now);
    WatermarkMayGrow(a, b, past, now);
  }

  /** One call on both sides: the answers differ exactly when the call is affected, and otherwise the stores go on
      alike. */
  lemma StepAgrees(a: Store, b: Store, op: Op, past: Past)
    requires Sim(a, b, past) && Valid(a) && Valid(b) && FreshOp(op, past) && !op.Sweep?
    ensures Affected(a, b, op) <==> !Alike(Apply(a, op).answer, Apply(b, op).answer)
    ensures !Affected(a, b, op) ==> Sim(Apply(a, op).store, Apply(b, op).store, After(past, op))
  {
    hide DoCommitApproval, DoConsumeJti, DoSaveCode, DoConsumeCode, DoSaveToken, DoRotate, DoRevoke, DoFindToken, SimTokens, SimCodes, SimJtis;
    ValidHasGoodCodes(b);
    if !op.FindGranted? { NoScopeList(a, op); }
    match op
    case CommitApproval(i, jti, e, code) => CommitAgrees(a, b, i, jti, e, code, past);
    case ConsumeJti(jti, e) => JtiAgrees(a, b, jti, e, past);
    case SaveCode(code) => SaveCodeAgrees(a, b, code, past);
    case ConsumeCode(h, now, g, r) =>
      ConsumeCodeAgrees(a, b, h, now, g, r);
      ConsumeKeepsSim(a, b, h, now, g, r, past);
    case SaveToken(w) => SaveAgrees(a, b, w, past);
    case Rotate(h, next, now, g, r) => RotateAgrees(a, b, h, next, now, g, r, past);
    case Revoke(f, now, r) => RevokeAgrees(a, b, f, now, r, past);
    case FindToken(h) => LookupAgrees(a, b, h, past);
    case FindGranted(q) => FindAgrees(a, b, q, past);
    case RebindInstance(_) =>
    case Close =>
  }

  lemma NoScopeList(s: Store, op: Op)
    requires !op.FindGranted?
    ensures !Apply(s, op).answer.Scopes?
  {
  }

  lemma ValidHasGoodCodes(s: Store)
    requires Valid(s)
    ensures CodesOk(s.codes)
  {
  }

  /** A late row had expired by the watermark. */
  lemma LateRowsAreLate(a: Store, b: Store, past: Past, q: GrantQuery, h: Digest)
    requires Sim(a, b, past) && LateRow(a, b, q, h)
    ensures !AtOrAfter(a.sweptThrough, q.now) && !AtOrAfter(past.watermark, q.now)
  {
    assert b.tokens[h].token.expiresAt < a.sweptThrough.value;
  }

  /** Everything swept had expired by the watermark, so only a call that goes by an earlier time is affected. */
  lemma AffectedIsLate(a: Store, b: Store, op: Op, past: Past)
    requires Sim(a, b, past) && !op.FindToken? && !op.Sweep? && Affected(a, b, op)
    ensures a.sweptThrough.Some? && !OnTime(op, a.sweptThrough) && !OnTime(op, past.watermark)
  {
    if op.FindGranted? {
      var h, scope :| LateRow(a, b, op.query, h) && scope in b.tokens[h].token.scopes && !Granted(a, op.query, scope);
      LateRowsAreLate(a, b, past, op.query, h);
    }
  }

  lemma OnlyQueriesAnswerScopes(s: Store, op: Op)
    ensures Apply(s, op).answer.Scopes? ==> op.FindGranted?
  {
  }

  lemma OnTimeIsEqual(a: Store, b: Store, op: Op, past: Past)
    requires Sim(a, b, past) && Valid(a) && Valid(b) && Admissible(op, past) && Visible(op)
    ensures Apply(a, op).answer == Apply(b, op).answer
  {
    hide Sim, Valid, Affected, LateRow, FreshOp, DoFindGranted, DoCommitApproval, DoConsumeCode, DoConsumeJti, DoSaveToken, DoRotate, DoRevoke;
    StepAgrees(a, b, op, past);
    OnlyQueriesAnswerScopes(a, op);
    if Affected(a, b, op) { AffectedIsLate(a, b, op, past); }
    if op.FindGranted? {
      if h :| LateRow(a, b, op.query, h) { LateRowsAreLate(a, b, past, op.query, h); }
      FindAgrees(a, b, op.query, past);
    }
  }

  // ------------------------------------------------------------------ whole runs

  lemma {:induction false} SimulatedRun(a: Store, b: Store, ops: seq<Op>, past: Past)
    requires Sim(a, b, past) && Valid(a) && Valid(b) && AdmissibleRun(ops, past)
    ensures Answers(a, ops) == Answers(b, WithoutSweeps(ops))
    decreases |ops|
  {
    hide Sim, Valid, Apply, Affected, Alike, Admissible;
    if ops != [] {
      var op := ops[0];
      ApplyKeepsValid(a, op);
      ApplyKeepsValid(b, op);
      if op.Sweep? {
        SweepStepKeepsSim(a, b, op, past);
        SimulatedRun(Apply(a, op).store, b, ops[1..], After(past, op));
      } else {
        OnTimeStep(a, b, op, past);
        SimulatedRun(Apply(a, op).store, Apply(b, op).store, ops[1..], After(past, op));
        assert ([op] + WithoutSweeps(ops[1..]))[1..] == WithoutSweeps(ops[1..]);
      }
    }
  }

  lemma SweepStepKeepsSim(a: Store, b: Store, op: Op, past: Past)
    requires Sim(a, b, past) && op.Sweep?
    ensures Sim(Apply(a, op).store, b, After(past, op))
  {
    hide Sim, DoSweep;
    SweepKeepsSim(a, b, op.now, past);
  }

  lemma OnTimeStep(a: Store, b: Store, op: Op, past: Past)
    requires Sim(a, b, past) && Valid(a) && Valid(b) && Admissible(op, past) && !op.Sweep?
    ensures Visible(op) ==> Apply(a, op).answer == Apply(b, op).answer
    ensures Sim(Apply(a, op).store, Apply(b, op).store, After(past, op))
  {
    hide Sim, Valid, Affected, Alike;
    if op.FindToken? {
      LookupKeepsSim(a, b, op, past);
    } else {
      StepAgrees(a, b, op, past);
      if Affected(a, b, op) { AffectedIsLate(a, b, op, past); }
      OnTimeIsEqual(a, b, op, past);
    }
  }

  lemma LookupKeepsSim(a: Store, b: Store, op: Op, past: Past)
    requires Sim(a, b, past) && op.FindToken?
    ensures Sim(Apply(a, op).store, Apply(b, op).store, After(past, op))
  {
  }

  /** A run answers like the run without its sweeps if and only if none of its calls is affected. */
  lemma {:induction false} RunDiffersExactlyWhenAffected(a: Store, b: Store, ops: seq<Op>, past: Past)
    requires Sim(a, b, past) && Valid(a) && Valid(b) && FreshRun(ops, past)
    ensures AllAlike(AllAnswers(a, ops), AllAnswers(b, WithoutSweeps(ops))) <==> NoneAffected(a, b, ops)
    decreases |ops|
  {
    hide Sim, Valid, Apply, Affected, Alike, FreshOp;
    if ops != [] {
      var op := ops[0];
      ApplyKeepsValid(a, op);
      ApplyKeepsValid(b, op);
      if op.Sweep? {
        SweepStepKeepsSim(a, b, op, past);
        RunDiffersExactlyWhenAffected(Apply(a, op).store, b, ops[1..], After(past, op));
        assert AllAnswers(a, ops) == AllAnswers(Apply(a, op).store, ops[1..]);
      } else {
        StepAgrees(a, b, op, past);
        assert ([op] + WithoutSweeps(ops[1..]))[1..] == WithoutSweeps(ops[1..]);
        var xs, ys := AllAnswers(Apply(a, op).store, ops[1..]), AllAnswers(Apply(b, op).store, WithoutSweeps(ops[1..]));
        FirstThenRest(Apply(a, op).answer, xs, Apply(b, op).answer, ys);
        if !Affected(a, b, op) {
          RunDiffersExactlyWhenAffected(Apply(a, op).store, Apply(b, op).store, ops[1..], After(past, op));
        }
      }
    }
  }

  lemma FirstThenRest(x: Answer, xs: seq<Answer>, y: Answer, ys: seq<Answer>)
    ensures AllAlike([x] + xs, [y] + ys) <==> Alike(x, y) && AllAlike(xs, ys)
  {
    hide Alike;
    if AllAlike([x] + xs, [y] + ys) {
      forall i | 0 <= i < |xs| ensures Alike(xs[i], ys[i]) {
        assert Alike(([x] + xs)[i + 1], ([y] + ys)[i + 1]);
      }
      assert Alike(([x] + xs)[0], ([y] + ys)[0]);
    }
  }

  /** The two stores after a run none of whose calls is affected. */
  lemma {:induction false} StaysAlike(a: Store, b: Store, ops: seq<Op>, past: Past)
    requires Sim(a, b, past) && Valid(a) && Valid(b) && FreshRun(ops, past) && NoneAffected(a, b, ops)
    ensures Sim(Run(a, ops), Run(b, WithoutSweeps(ops)), AfterAll(past, ops))
    ensures Valid(Run(a, ops)) && Valid(Run(b, WithoutSweeps(ops)))
    decreases |ops|
  {
    hide Sim, Valid, Apply, Affected, Alike, FreshOp;
    if ops != [] {
      var op := ops[0];
      ApplyKeepsValid(a, op);
      ApplyKeepsValid(b, op);
      if op.Sweep? {
        SweepStepKeepsSim(a, b, op, past);
        StaysAlike(Apply(a, op).store, b, ops[1..], After(past, op));
      } else {
        StepAgrees(a, b, op, past);
        StaysAlike(Apply(a, op).store, Apply(b, op).store, ops[1..], After(past, op));
        assert ([op] + WithoutSweeps(ops[1..]))[1..] == WithoutSweeps(ops[1..]);
      }
    }
  }

  function AfterAll(past: Past, ops: seq<Op>): Past
    decreases |ops|
  {
    if ops == [] then past else AfterAll(After(past, ops[0]), ops[1..])
  }

  function FreshPast(): Past {
    Past(None, map[], {}, {})
  }

  /** From the empty store, the run answers like the run without its sweeps if and only if none of its calls is affected. */
  lemma SweepsShowExactlyWhenAffected(instanceId: string, ops: seq<Op>)
    requires FreshRun(ops, FreshPast())
    ensures var s := EmptyStore(instanceId);
      AllAlike(AllAnswers(s, ops), AllAnswers(s, WithoutSweeps(ops))) <==> NoneAffected(s, s, ops)
  {
    RunDiffersExactlyWhenAffected(EmptyStore(instanceId), EmptyStore(instanceId), ops, FreshPast());
  }

  /** Every visible call of an admissible run answers the same with the sweeps as
      in the run without them. */
  lemma SweepingIsInvisible(instanceId: string, ops: seq<Op>)
    requires AdmissibleRun(ops, FreshPast())
    ensures Answers(EmptyStore(instanceId), ops) == Answers(EmptyStore(instanceId), WithoutSweeps(ops))
  {
    SimulatedRun(EmptyStore(instanceId), EmptyStore(instanceId), ops, FreshPast());
  }

  /** For a single consumption: a sweep before it is noticed if and only if it passed the JTI's expiry. */
  lemma ExpiredConsentTellsThemApart(s: Store, jti: string, e: int, now: int)
    requires !s.closed && jti !in s.jtis && !Fenced(s, e) && CanonicalTime(e) && CanonicalTime(now)
    ensures e < now <==> Answers(s, [Sweep(now), ConsumeJti(jti, e)]) != Answers(s, [ConsumeJti(jti, e)])
  {
    var swept := SweptStore(s, now);
    var ops := [Sweep(now), ConsumeJti(jti, e)];
    assert ops[1..] == [ConsumeJti(jti, e)];
    assert Apply(s, Sweep(now)) == Outcome(swept, Done);
    assert Answers(s, ops) == Answers(swept, ops[1..]);
    assert Answers(swept, ops[1..]) == [FirstUse(!Fenced(swept, e))];
    assert Answers(s, ops[1..]) == [FirstUse(true)];
  }
}
