/** The grant store as a value: what each StorePort operation answers and which
    store it leaves behind. Every operation is one atomic step. */
module GrantStore {
  import opened Prelude
  import opened Clock

  /** A SHA-256 hex digest is known by the text it was computed from, which makes
      hashing injective. Anything else is text the store refuses. */
  datatype Digest = Sha256(raw: string) | NotHex(text: string)

  /** `grantGeneration?: number | null` as a caller writes it. */
  datatype GenerationInput = Omitted | Explicit(value: Option<int>)

  datatype AuthCode = AuthCode(
    codeHash: Digest, clientId: string, subject: string, redirectUri: string, resource: string,
    scopes: seq<string>, codeChallenge: string, expiresAt: int, generation: Option<int>)

  datatype Token = Token(
    tokenHash: Digest, familyId: string, previous: Option<Digest>, clientId: string, subject: string,
    resource: string, scopes: seq<string>, expiresAt: int, generation: Option<int>)

  /** A caller's write: the row's own generation (and a token's resource) are
      decided by the input next to it. */
  datatype CodeWrite = CodeWrite(row: AuthCode, challengeMethod: string, generation: GenerationInput)
  datatype TokenWrite = TokenWrite(row: Token, resource: Option<string>, generation: GenerationInput)

  datatype StoredToken = StoredToken(token: Token, consumedAt: Option<int>)
  datatype Family = Family(revokedAt: Option<int>, generation: Option<int>, resource: string)

  /** The four maps of the store. `order` is the insertion order of `tokens`, in
      which a JavaScript Map is iterated. */
  datatype Store = Store(
    closed: bool, instanceId: string,
    codes: map<Digest, AuthCode>,
    tokens: map<Digest, StoredToken>, order: seq<Digest>,
    families: map<string, Family>,
    jtis: map<string, int>, sweptThrough: Option<int>)

  datatype CommitResult = Stored | Replayed | BindingMismatch
  datatype StoreError = StoreClosed | InvalidInput

  datatype Answer =
    | Thrown(error: StoreError)
    | Commit(result: CommitResult)
    | FirstUse(accepted: bool)
    | CodeRow(code: Option<AuthCode>)
    | TokenRow(token: Option<Token>)
    | Scopes(scopes: seq<string>)
    | Done

  datatype Outcome = Outcome(store: Store, answer: Answer)

  /** One StorePort call with all its arguments. */
  datatype Op =
    | CommitApproval(instanceId: string, jti: string, expiresAt: int, code: CodeWrite)
    | SaveCode(code: CodeWrite)
    | ConsumeCode(hash: Digest, now: int, generation: Option<int>, resource: Option<string>)
    | ConsumeJti(jti: string, expiresAt: int)
    | SaveToken(write: TokenWrite)
    | Rotate(hash: Digest, next: TokenWrite, now: int, generation: Option<int>, resource: Option<string>)
    | Revoke(familyId: string, now: int, resource: Option<string>)
    | FindToken(hash: Digest)
    | FindGranted(query: GrantQuery)
    | Sweep(now: int)
    | RebindInstance(instanceId: string)
    | Close

  datatype GrantQuery = GrantQuery(
    subject: string, clientId: string, now: int, generation: Option<int>, resource: Option<string>)

  const UNBOUND_RESOURCE := "mcp-sso:unbound-refresh-resource"
  const STORED_DCR_GENERATION := 1
  const MAX_SUBJECT_SCALARS := 384

  // ---------------------------------------------------------------- validation

  predicate ValidSubject(s: string) {
    && 0 < |s| <= MAX_SUBJECT_SCALARS
    && '\U{FFFD}' !in s
    && !IsSpace(s[0]) && !IsSpace(s[|s| - 1])
  }

  predicate ValidGeneration(g: Option<int>) {
    g.Some? ==> 0 < g.value <= MAX_SAFE_INTEGER
  }

  predicate ValidGenerationInput(g: GenerationInput) {
    g.Explicit? ==> ValidGeneration(g.value)
  }

  predicate ValidResource(r: string) {
    exists i :: 0 <= i < |r| && !IsSpace(r[i])
  }

  predicate IsBase64Url(c: char) {
    'a' <= c <= 'z' || 'A' <= c <= 'Z' || '0' <= c <= '9' || c == '_' || c == '-'
  }

  predicate ValidInstanceId(id: string) {
    22 <= |id| <= 128 && forall i :: 0 <= i < |id| ==> IsBase64Url(id[i])
  }

  function GenerationForWrite(g: GenerationInput): Option<int> {
    match g
    case Omitted => Some(STORED_DCR_GENERATION)
    case Explicit(v) => v
  }

  predicate ValidCodeWrite(w: CodeWrite) {
    && ValidSubject(w.row.subject)
    && w.row.codeHash.Sha256?
    && CanonicalTime(w.row.expiresAt)
    && ValidGenerationInput(w.generation)
    && w.challengeMethod == "S256"
  }

  function StoredCode(w: CodeWrite): AuthCode {
    w.row.(generation := GenerationForWrite(w.generation))
  }

  /** normalizeRefreshTokenWrite: the resource a write binds its row to. */
  predicate ValidResourceInput(r: Option<string>) {
    r.Some? ==> ValidResource(r.value) && r.value != UNBOUND_RESOURCE
  }

  function ResourceForWrite(r: Option<string>): string {
    if r.Some? then r.value else UNBOUND_RESOURCE
  }

  /** Everything validateRefreshToken checks apart from the subject. */
  predicate ValidTokenWrite(w: TokenWrite) {
    && ValidResourceInput(w.resource)
    && w.row.tokenHash.Sha256?
    && (w.row.previous.Some? ==> w.row.previous.value.Sha256?)
    && CanonicalTime(w.row.expiresAt)
    && ValidGenerationInput(w.generation)
  }

  function StoredRow(w: TokenWrite): Token {
    w.row.(generation := GenerationForWrite(w.generation), resource := ResourceForWrite(w.resource))
  }

  // ---------------------------------------------------------------- operations

  function Refuse(s: Store, e: StoreError): Outcome {
    Outcome(s, Thrown(e))
  }

  predicate Fenced(s: Store, expiresAt: int) {
    s.sweptThrough.Some? && expiresAt < s.sweptThrough.value
  }

  function DoCommitApproval(s: Store, instanceId: string, jti: string, expiresAt: int, code: CodeWrite): Outcome {
    if s.closed then Refuse(s, StoreClosed)
    else if !ValidInstanceId(instanceId) || !CanonicalTime(expiresAt) || !ValidCodeWrite(code) then Refuse(s, InvalidInput)
    else if instanceId != s.instanceId then Outcome(s, Commit(BindingMismatch))
    else if jti in s.jtis || Fenced(s, expiresAt) then Outcome(s, Commit(Replayed))
    else
      var stored := StoredCode(code);
      Outcome(s.(jtis := s.jtis[jti := expiresAt], codes := s.codes[stored.codeHash := stored]), Commit(Stored))
  }

  function DoSaveCode(s: Store, code: CodeWrite): Outcome {
    if s.closed then Refuse(s, StoreClosed)
    else if !ValidCodeWrite(code) then Refuse(s, InvalidInput)
    else Outcome(s.(codes := s.codes[code.row.codeHash := StoredCode(code)]), Done)
  }

  function DoConsumeCode(s: Store, hash: Digest, now: int, generation: Option<int>, resource: Option<string>): Outcome {
    if s.closed then Refuse(s, StoreClosed)
    else if !hash.Sha256? || !CanonicalTime(now) then Refuse(s, InvalidInput)
    else if hash !in s.codes then Outcome(s, CodeRow(None))
    else
      var code := s.codes[hash];
      if resource.Some? && code.resource != resource.value then Outcome(s, CodeRow(None))
      else if !ValidSubject(code.subject) then Refuse(s, InvalidInput)
      else
        var usable := code.expiresAt > now && (generation.Some? ==> code.generation == generation);
        Outcome(s.(codes := s.codes - {hash}), CodeRow(if usable then Some(code) else None))
  }

  function DoConsumeJti(s: Store, jti: string, expiresAt: int): Outcome {
    if s.closed then Refuse(s, StoreClosed)
    else if !CanonicalTime(expiresAt) then Refuse(s, InvalidInput)
    else if jti in s.jtis || Fenced(s, expiresAt) then Outcome(s, FirstUse(false))
    else Outcome(s.(jtis := s.jtis[jti := expiresAt]), FirstUse(true))
  }

  function DoSaveToken(s: Store, write: TokenWrite): Outcome {
    if s.closed then Refuse(s, StoreClosed)
    else if !ValidTokenWrite(write) || !ValidSubject(write.row.subject) then Refuse(s, InvalidInput)
    else
      var row := StoredRow(write);
      if row.tokenHash in s.tokens then Refuse(s, InvalidInput)
      else if row.familyId in s.families
              && (s.families[row.familyId].generation != row.generation || s.families[row.familyId].resource != row.resource)
      then Refuse(s, InvalidInput)
      else
        var families := if row.familyId in s.families then s.families
                        else s.families[row.familyId := Family(None, row.generation, row.resource)];
        Outcome(s.(families := families,
                   tokens := s.tokens[row.tokenHash := StoredToken(row, None)],
                   order := s.order + [row.tokenHash]),
                Done)
  }

  /** The successor's row: placement from the caller, identity from the consumed row. */
  function Successor(next: TokenWrite, current: Token): TokenWrite {
    TokenWrite(next.row.(clientId := current.clientId, subject := current.subject, scopes := current.scopes),
               Some(current.resource), Explicit(current.generation))
  }

  predicate RotationInput(hash: Digest, next: TokenWrite, now: int) {
    && ValidTokenWrite(next) && hash.Sha256? && CanonicalTime(now) && next.row.previous == Some(hash)
  }

  /** The family is not revoked and both rows carry the expected generation and resource. */
  predicate Addressable(current: Token, family: Family, generation: Option<int>, resource: Option<string>) {
    && family.revokedAt.None?
    && (generation.Some? ==> family.generation == generation && current.generation == generation)
    && current.resource != UNBOUND_RESOURCE && current.resource == family.resource
    && (resource.Some? ==> current.resource == resource.value)
  }

  function DoRotate(s: Store, hash: Digest, next: TokenWrite, now: int, generation: Option<int>, resource: Option<string>): Outcome {
    if s.closed then Refuse(s, StoreClosed)
    else if !RotationInput(hash, next, now) then Refuse(s, InvalidInput)
    else if hash !in s.tokens || s.tokens[hash].token.familyId !in s.families then Outcome(s, TokenRow(None))
    else
      var current := s.tokens[hash].token;
      var family := s.families[current.familyId];
      if !ValidSubject(current.subject) then Refuse(s, InvalidInput)
      else if !Addressable(current, family, generation, resource) then Outcome(s, TokenRow(None))
      else if s.tokens[hash].consumedAt.Some? then Outcome(DoRevoke(s, current.familyId, now, None).store, TokenRow(None))
      else if current.expiresAt <= now || next.row.familyId != current.familyId then Outcome(s, TokenRow(None))
      else if next.row.tokenHash in s.tokens then Outcome(s, TokenRow(None))
      else
        var consumed := s.(tokens := s.tokens[hash := StoredToken(current, Some(now))]);
        var saved := DoSaveToken(consumed, Successor(next, current));
        if saved.answer.Thrown? then Refuse(consumed, saved.answer.error)
        else Outcome(saved.store, TokenRow(Some(current)))
  }

  function DoRevoke(s: Store, familyId: string, now: int, resource: Option<string>): Outcome {
    if s.closed then Refuse(s, StoreClosed)
    else if !CanonicalTime(now) || (resource.Some? && !ValidResource(resource.value)) then Refuse(s, InvalidInput)
    else Outcome(s.(families := RevokedIn(s.families, familyId, now, resource)), Done)
  }

  /** The first revocation of a family keeps its time; a resource mismatch changes nothing. */
  function RevokedIn(families: map<string, Family>, f: string, now: int, resource: Option<string>): map<string, Family> {
    if f in families && families[f].revokedAt.None? && (resource.Some? ==> families[f].resource == resource.value)
    then families[f := families[f].(revokedAt := Some(now))]
    else families
  }

  function DoFindToken(s: Store, hash: Digest): Outcome {
    if s.closed then Refuse(s, StoreClosed)
    else if hash !in s.tokens then Outcome(s, TokenRow(None))
    else if !ValidSubject(s.tokens[hash].token.subject) then Refuse(s, InvalidInput)
    else Outcome(s, TokenRow(Some(s.tokens[hash].token)))
  }

  /** The row counts towards the grants of a query: same subject and client,
      unconsumed, unexpired, in an unrevoked family of the queried binding. */
  predicate Contributes(s: Store, h: Digest, q: GrantQuery) {
    && h in s.tokens
    && var t := s.tokens[h].token;
    && t.subject == q.subject && t.clientId == q.clientId
    && s.tokens[h].consumedAt.None? && t.expiresAt > q.now
    && t.familyId in s.families && s.families[t.familyId].revokedAt.None?
    && (q.generation.Some? ==> t.generation == q.generation)
    && (q.resource.Some? ==> t.resource == q.resource.value && s.families[t.familyId].resource == q.resource.value)
  }

  function AppendNew(out: seq<string>, xs: seq<string>): seq<string> {
    if xs == [] then out
    else
      var front := AppendNew(out, xs[..|xs| - 1]);
      var x := xs[|xs| - 1];
      if x in front then front else front + [x]
  }

  /** The scopes contributed by `keys`, each once, in order of first appearance. */
  function Collect(s: Store, keys: seq<Digest>, q: GrantQuery): seq<string> {
    if keys == [] then []
    else
      var front := Collect(s, keys[..|keys| - 1], q);
      var h := keys[|keys| - 1];
      if Contributes(s, h, q) then AppendNew(front, s.tokens[h].token.scopes) else front
  }

  function DoFindGranted(s: Store, q: GrantQuery): Outcome {
    if s.closed then Refuse(s, StoreClosed)
    else if !ValidSubject(q.subject) || !CanonicalTime(q.now) then Refuse(s, InvalidInput)
    else Outcome(s, Scopes(Collect(s, s.order, q)))
  }

  /** Some member of the family is still valid at `now`. */
  predicate FamilyLive(tokens: map<Digest, StoredToken>, f: string, now: int) {
    exists m :: m in tokens && tokens[m].token.familyId == f && tokens[m].token.expiresAt >= now
  }

  function KeepKeys(order: seq<Digest>, kept: set<Digest>): seq<Digest> {
    if order == [] then []
    else
      var front := KeepKeys(order[..|order| - 1], kept);
      var h := order[|order| - 1];
      if h in kept then front + [h] else front
  }

  function LiveTokens(tokens: map<Digest, StoredToken>, now: int): map<Digest, StoredToken> {
    map h | h in tokens && FamilyLive(tokens, tokens[h].token.familyId, now) :: tokens[h]
  }

  function FamiliesOf(tokens: map<Digest, StoredToken>): set<string> {
    set h | h in tokens :: tokens[h].token.familyId
  }

  function SweptStore(s: Store, now: int): Store {
    var live := LiveTokens(s.tokens, now);
    s.(sweptThrough := if s.sweptThrough.None? || s.sweptThrough.value < now then Some(now) else s.sweptThrough,
       codes := map h | h in s.codes && s.codes[h].expiresAt >= now :: s.codes[h],
       jtis := map j | j in s.jtis && s.jtis[j] >= now :: s.jtis[j],
       tokens := live,
       order := KeepKeys(s.order, live.Keys),
       families := map f | f in s.families && f in FamiliesOf(live) :: s.families[f])
  }

  function DoSweep(s: Store, now: int): Outcome {
    if s.closed then Refuse(s, StoreClosed)
    else if !CanonicalTime(now) then Refuse(s, InvalidInput)
    else Outcome(SweptStore(s, now), Done)
  }

  function DoRebind(s: Store, instanceId: string): Outcome {
    if s.closed then Refuse(s, StoreClosed) else Outcome(s.(instanceId := instanceId), Done)
  }

  function Apply(s: Store, op: Op): Outcome {
    match op
    case CommitApproval(i, jti, e, code) => DoCommitApproval(s, i, jti, e, code)
    case SaveCode(code) => DoSaveCode(s, code)
    case ConsumeCode(h, now, g, r) => DoConsumeCode(s, h, now, g, r)
    case ConsumeJti(jti, e) => DoConsumeJti(s, jti, e)
    case SaveToken(w) => DoSaveToken(s, w)
    case Rotate(h, next, now, g, r) => DoRotate(s, h, next, now, g, r)
    case Revoke(f, now, r) => DoRevoke(s, f, now, r)
    case FindToken(h) => DoFindToken(s, h)
    case FindGranted(q) => DoFindGranted(s, q)
    case Sweep(now) => DoSweep(s, now)
    case RebindInstance(i) => DoRebind(s, i)
    case Close => Outcome(s.(closed := true), Done)
  }

  function EmptyStore(instanceId: string): Store {
    Store(false, instanceId, map[], map[], [], map[], map[], None)
  }

  /** The store after a whole run of calls. */
  function Run(s: Store, ops: seq<Op>): Store
    decreases |ops|
  {
    if ops == [] then s else Run(Apply(s, ops[0]).store, ops[1..])
  }
}
