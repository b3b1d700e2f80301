/** The in-process store: a class whose methods update four maps in place. Each
    method is proved to answer, and to leave behind, what GrantStore says. */
module MemoryStores {
  import opened Prelude
  import opened Clock
  import opened GrantStore
  import opened StoreInvariant
  import opened StoreLaws

  class MemoryStore {
    var closed: bool
    var storeInstanceId: string
    var authCodes: map<Digest, AuthCode>
    var refreshTokens: map<Digest, StoredToken>
    var tokenOrder: seq<Digest>
    var families: map<string, Family>
    var consentJtis: map<string, int>
    var sweptThrough: Option<int>

    /** The store as a value. */
    function Contents(): Store
      reads this
    {
      Store(closed, storeInstanceId, authCodes, refreshTokens, tokenOrder, families, consentJtis, sweptThrough)
    }

    constructor (instanceId: string)
      ensures Contents() == EmptyStore(instanceId)
    {
      closed, storeInstanceId := false, instanceId;
      authCodes, refreshTokens, tokenOrder := map[], map[], [];
      families, consentJtis, sweptThrough := map[], map[], None;
    }

    method RotateStoreInstanceId(freshId: string) returns (answer: Answer)
      modifies this
      ensures Outcome(Contents(), answer) == DoRebind(old(Contents()), freshId)
    {
      if closed { return Thrown(StoreClosed); }
      storeInstanceId := freshId;
      return Done;
    }

    method CommitConsentApproval(expected: string, jti: string, expiresAt: int, code: CodeWrite) returns (answer: Answer)
      modifies this
      ensures Outcome(Contents(), answer) == DoCommitApproval(old(Contents()), expected, jti, expiresAt, code)
    {
      if closed { return Thrown(StoreClosed); }
      if !ValidInstanceId(expected) || !CanonicalTime(expiresAt) || !ValidCodeWrite(code) { return Thrown(InvalidInput); }
      var stored := StoredCode(code);
      if expected != storeInstanceId { return Commit(BindingMismatch); }
      if jti in consentJtis { return Commit(Replayed); }
      if sweptThrough.Some? && expiresAt < sweptThrough.value { return Commit(Replayed); }
      consentJtis := consentJtis[jti := expiresAt];
      authCodes := authCodes[stored.codeHash := stored];
      return Commit(Stored);
    }

    method SaveAuthCode(code: CodeWrite) returns (answer: Answer)
      modifies this
      ensures Outcome(Contents(), answer) == DoSaveCode(old(Contents()), code)
    {
      if closed { return Thrown(StoreClosed); }
      if !ValidCodeWrite(code) { return Thrown(InvalidInput); }
      authCodes := authCodes[code.row.codeHash := StoredCode(code)];
      return Done;
    }

    method ConsumeAuthCode(hash: Digest, now: int, generation: Option<int>, resource: Option<string>) returns (answer: Answer)
      modifies this
      ensures Outcome(Contents(), answer) == DoConsumeCode(old(Contents()), hash, now, generation, resource)
    {
      if closed { return Thrown(StoreClosed); }
      if !hash.Sha256? || !CanonicalTime(now) { return Thrown(InvalidInput); }
      if hash !in authCodes { return CodeRow(None); }
      var record := authCodes[hash];
      if resource.Some? && record.resource != resource.value { return CodeRow(None); }
      if !ValidSubject(record.subject) { return Thrown(InvalidInput); }
      authCodes := authCodes - {hash};
      if record.expiresAt > now && (generation.None? || record.generation == generation) {
        return CodeRow(Some(record));
      }
      return CodeRow(None);
    }

    method ConsumeConsentJti(jti: string, expiresAt: int) returns (answer: Answer)
      modifies this
      ensures Outcome(Contents(), answer) == DoConsumeJti(old(Contents()), jti, expiresAt)
    {
      if closed { return Thrown(StoreClosed); }
      if !CanonicalTime(expiresAt) { return Thrown(InvalidInput); }
      if jti in consentJtis { return FirstUse(false); }
      if sweptThrough.Some? && expiresAt < sweptThrough.value { return FirstUse(false); }
      consentJtis := consentJtis[jti := expiresAt];
      return FirstUse(true);
    }

    method SaveRefreshToken(write: TokenWrite) returns (answer: Answer)
      modifies this
      ensures Outcome(Contents(), answer) == DoSaveToken(old(Contents()), write)
    {
      if closed { return Thrown(StoreClosed); }
      if !ValidTokenWrite(write) || !ValidSubject(write.row.subject) { return Thrown(InvalidInput); }
      var row := StoredRow(write);
      if row.tokenHash in refreshTokens { return Thrown(InvalidInput); }
      if row.familyId in families {
        var family := families[row.familyId];
        if family.generation != row.generation || family.resource != row.resource { return Thrown(InvalidInput); }
      } else {
        families := families[row.familyId := Family(None, row.generation, row.resource)];
      }
      refreshTokens := refreshTokens[row.tokenHash := StoredToken(row, None)];
      tokenOrder := tokenOrder + [row.tokenHash];
      return Done;
    }

    /** Consumes the predecessor first and then saves the successor through the
        public write path. */
    method RotateRefreshToken(hash: Digest, next: TokenWrite, now: int, generation: Option<int>, resource: Option<string>)
      returns (answer: Answer)
      modifies this
      ensures Outcome(Contents(), answer) == DoRotate(old(Contents()), hash, next, now, generation, resource)
      ensures answer.TokenRow? && answer.token.Some? ==>
        && hash in old(refreshTokens) && answer.token.value == old(refreshTokens)[hash].token
        && Succeeded(old(Contents()), Contents(), hash, next.row.tokenHash, next.row.expiresAt, now)
      ensures hash in old(refreshTokens)
              && ((generation.Some? && old(refreshTokens)[hash].token.generation != generation)
                  || (resource.Some? && old(refreshTokens)[hash].token.resource != resource.value)) ==>
        Contents() == old(Contents()) && !(answer.TokenRow? && answer.token.Some?)
    {
      RotationLaws(Contents(), hash, next, now, generation, resource);
      if closed { return Thrown(StoreClosed); }
      if !RotationInput(hash, next, now) { return Thrown(InvalidInput); }
      if hash !in refreshTokens || refreshTokens[hash].token.familyId !in families { return TokenRow(None); }
      var current := refreshTokens[hash].token;
      var family := families[current.familyId];
      if !ValidSubject(current.subject) { return Thrown(InvalidInput); }
      if family.revokedAt.Some?
        || (generation.Some? && (family.generation != generation || current.generation != generation)) {
        return TokenRow(None);
      }
      if current.resource == UNBOUND_RESOURCE || current.resource != family.resource
        || (resource.Some? && current.resource != resource.value) {
        return TokenRow(None);
      }
      if refreshTokens[hash].consumedAt.Some? {
        var _ := RevokeRefreshTokenFamily(current.familyId, now, None);
        return TokenRow(None);
      }
      if current.expiresAt <= now || next.row.familyId != current.familyId { return TokenRow(None); }
      if next.row.tokenHash in refreshTokens { return TokenRow(None); }
      refreshTokens := refreshTokens[hash := StoredToken(current, Some(now))];
      var saved := SaveRefreshToken(Successor(next, current));
      if saved.Thrown? { return saved; }
      return TokenRow(Some(current));
    }

    method RevokeRefreshTokenFamily(familyId: string, now: int, resource: Option<string>) returns (answer: Answer)
      modifies this
      ensures Outcome(Contents(), answer) == DoRevoke(old(Contents()), familyId, now, resource)
    {
      if closed { return Thrown(StoreClosed); }
      if !CanonicalTime(now) || (resource.Some? && !ValidResource(resource.value)) { return Thrown(InvalidInput); }
      if familyId in families {
        var family := families[familyId];
        if family.revokedAt.None? && (resource.None? || family.resource == resource.value) {
          families := families[familyId := family.(revokedAt := Some(now))];
        }
      }
      return Done;
    }

    method FindRefreshToken(hash: Digest) returns (answer: Answer)
      ensures Outcome(Contents(), answer) == DoFindToken(Contents(), hash)
    {
      if closed { return Thrown(StoreClosed); }
      if hash !in refreshTokens { return TokenRow(None); }
      if !ValidSubject(refreshTokens[hash].token.subject) { return Thrown(InvalidInput); }
      return TokenRow(Some(refreshTokens[hash].token));
    }

    method FindGrantedScopes(q: GrantQuery) returns (answer: Answer)
      ensures Outcome(Contents(), answer) == DoFindGranted(Contents(), q)
      ensures Valid(Contents()) && answer.Scopes? ==>
        NoDuplicates(answer.scopes) && forall x :: x in answer.scopes <==> exists h :: Holds(Contents(), h, q, x)
    {
      if Valid(Contents()) { ReportsExactly(Contents(), q); }
      if closed { return Thrown(StoreClosed); }
      if !ValidSubject(q.subject) || !CanonicalTime(q.now) { return Thrown(InvalidInput); }
      var out: seq<string> := [];
      for i := 0 to |tokenOrder|
        invariant out == Collect(Contents(), tokenOrder[..i], q)
      {
        assert tokenOrder[..i + 1][..i] == tokenOrder[..i];
        if Contributes(Contents(), tokenOrder[i], q) {
          out := PushMissing(out, refreshTokens[tokenOrder[i]].token.scopes);
        }
      }
      assert tokenOrder[..|tokenOrder|] == tokenOrder;
      return Scopes(out);
    }

    method SweepExpired(now: int) returns (answer: Answer)
      modifies this
      ensures Outcome(Contents(), answer) == DoSweep(old(Contents()), now)
    {
      if closed { return Thrown(StoreClosed); }
      if !CanonicalTime(now) { return Thrown(InvalidInput); }
      if sweptThrough.None? || sweptThrough.value < now { sweptThrough := Some(now); }
      SweepCodes(now);
      SweepJtis(now);
      SweepTokens(now);
      families := map f | f in families && f in FamiliesOf(refreshTokens) :: families[f];
      return Done;
    }

    method SweepCodes(now: int)
      modifies this`authCodes
      ensures authCodes == map h | h in old(authCodes) && old(authCodes)[h].expiresAt >= now :: old(authCodes)[h]
    {
      var pending := authCodes.Keys;
      while pending != {}
        invariant pending <= old(authCodes).Keys
        invariant authCodes == map h | h in old(authCodes) && (h in pending || old(authCodes)[h].expiresAt >= now) :: old(authCodes)[h]
      {
        var h :| h in pending;
        pending := pending - {h};
        if authCodes[h].expiresAt < now { authCodes := authCodes - {h}; }
      }
    }

    method SweepJtis(now: int)
      modifies this`consentJtis
      ensures consentJtis == map j | j in old(consentJtis) && old(consentJtis)[j] >= now :: old(consentJtis)[j]
    {
      var pending := consentJtis.Keys;
      while pending != {}
        invariant pending <= old(consentJtis).Keys
        invariant consentJtis == map j | j in old(consentJtis) && (j in pending || old(consentJtis)[j] >= now) :: old(consentJtis)[j]
      {
        var j :| j in pending;
        pending := pending - {j};
        if consentJtis[j] < now { consentJtis := consentJtis - {j}; }
      }
    }

    /** Family validity is judged on the rows as they were before the first deletion. */
    method SweepTokens(now: int)
      modifies this`refreshTokens, this`tokenOrder
      ensures refreshTokens == LiveTokens(old(refreshTokens), now)
      ensures tokenOrder == KeepKeys(old(tokenOrder), refreshTokens.Keys)
    {
      var rows := refreshTokens;
      var pending := refreshTokens.Keys;
      while pending != {}
        invariant pending <= rows.Keys
        invariant tokenOrder == old(tokenOrder)
        invariant refreshTokens == map h | h in rows && (h in pending || FamilyLive(rows, rows[h].token.familyId, now)) :: rows[h]
      {
        var h :| h in pending;
        pending := pending - {h};
        if !FamilyLive(rows, rows[h].token.familyId, now) { refreshTokens := refreshTokens - {h}; }
      }
      var order := tokenOrder;
      tokenOrder := [];
      for i := 0 to |order|
        invariant refreshTokens == LiveTokens(rows, now)
        invariant tokenOrder == KeepKeys(order[..i], refreshTokens.Keys)
      {
        assert order[..i + 1][..i] == order[..i];
        if order[i] in refreshTokens { tokenOrder := tokenOrder + [order[i]]; }
      }
      assert order[..|order|] == order;
    }

    method CloseStore()
      modifies this
      ensures Contents() == old(Contents()).(closed := true)
    {
      closed := true;
    }
  }

  /** `for (const s of xs) if (!out.includes(s)) out.push(s)`. */
  method PushMissing(start: seq<string>, xs: seq<string>) returns (out: seq<string>)
    ensures out == AppendNew(start, xs)
  {
    out := start;
    for i := 0 to |xs|
      invariant out == AppendNew(start, xs[..i])
    {
      assert xs[..i + 1][..i] == xs[..i];
      if xs[i] !in out { out := out + [xs[i]]; }
    }
    assert xs[..|xs|] == xs;
  }
}
