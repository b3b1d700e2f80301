/** What every reachable store satisfies, and what follows from it for single calls. */
module StoreInvariant {
  import opened Prelude
  import opened Clock
  import opened GrantStore

  /** A row the store would accept again. */
  predicate ValidRow(t: Token) {
    && t.tokenHash.Sha256? && ValidSubject(t.subject) && ValidGeneration(t.generation)
    && ValidResource(t.resource) && CanonicalTime(t.expiresAt)
  }

  /** Every row is filed under its own hash and well formed. */
  predicate RowsOk(tokens: map<Digest, StoredToken>) {
    forall h :: h in tokens ==> tokens[h].token.tokenHash == h && ValidRow(tokens[h].token)
  }

  predicate Agrees(families: map<string, Family>, t: Token) {
    && t.familyId in families
    && families[t.familyId].generation == t.generation && families[t.familyId].resource == t.resource
  }

  /** Every row agrees with its family. */
  predicate RowsAgree(tokens: map<Digest, StoredToken>, families: map<string, Family>) {
    forall h :: h in tokens ==> Agrees(families, tokens[h].token)
  }

  predicate OrderOk(order: seq<Digest>, keys: set<Digest>) {
    && NoDuplicates(order)
    && (forall h :: h in order ==> h in keys)
    && (forall h :: h in keys ==> h in order)
  }

  predicate CodesOk(codes: map<Digest, AuthCode>) {
    forall h :: h in codes ==> codes[h].codeHash == h && ValidSubject(codes[h].subject)
  }

  predicate Valid(s: Store) {
    && OrderOk(s.order, s.tokens.Keys)
    && RowsOk(s.tokens)
    && RowsAgree(s.tokens, s.families)
    && CodesOk(s.codes)
  }

  // -------------------------------------------------------------- preservation

  lemma RowFacts(s: Store, h: Digest)
    requires Valid(s) && h in s.tokens
    ensures h in s.order && Agrees(s.families, s.tokens[h].token) && ValidRow(s.tokens[h].token)
    ensures s.tokens[h].token.tokenHash == h
  {
  }

  lemma UnboundIsAResource()
    ensures ValidResource(UNBOUND_RESOURCE)
  {
    assert UNBOUND_RESOURCE[0] == 'm' && !IsSpace('m');
  }

  lemma SaveKeepsValid(s: Store, w: TokenWrite)
    requires Valid(s)
    ensures Valid(DoSaveToken(s, w).store)
  {
    hide ValidRow, ValidTokenWrite, ValidSubject;
    var s' := DoSaveToken(s, w).store;
    SavedRowIsValid(s, w);
    if s' != s { assert ValidRow(StoredRow(w)); }
  }

  lemma SavedRowIsValid(s: Store, w: TokenWrite)
    ensures DoSaveToken(s, w).store != s ==> ValidRow(StoredRow(w))
  {
    UnboundIsAResource();
  }

  lemma ConsumingKeepsValid(s: Store, h: Digest, at: Option<int>)
    requires Valid(s) && h in s.tokens
    ensures Valid(s.(tokens := s.tokens[h := StoredToken(s.tokens[h].token, at)]))
  {
    var s' := s.(tokens := s.tokens[h := StoredToken(s.tokens[h].token, at)]);
    assert s'.tokens.Keys == s.tokens.Keys;
  }

  lemma RevokeKeepsValid(s: Store, f: string, now: int, r: Option<string>)
    requires Valid(s)
    ensures Valid(DoRevoke(s, f, now, r).store)
  {
  }

  /** A valid store never fails the successor's write once the predecessor is
      consumed: a well-formed rotation either leaves the rows alone or rotates
      completely. */
  lemma RotationCannotHalfFail(s: Store, hash: Digest, next: TokenWrite, now: int, g: Option<int>, r: Option<string>)
    requires Valid(s) && !s.closed && RotationInput(hash, next, now)
    ensures var out := DoRotate(s, hash, next, now, g, r);
      && out.answer.TokenRow?
      && (out.answer.token.None? ==> out.store.tokens == s.tokens)
      && (out.answer.token.Some? ==>
            && hash in s.tokens && out.answer.token == Some(s.tokens[hash].token)
            && s.tokens[hash].consumedAt.None? && next.row.tokenHash !in s.tokens
            && next.row.familyId == s.tokens[hash].token.familyId
            && out.store == s.(
                 tokens := s.tokens[hash := StoredToken(s.tokens[hash].token, Some(now))]
                                   [next.row.tokenHash := StoredToken(StoredRow(Successor(next, s.tokens[hash].token)), None)],
                 order := s.order + [next.row.tokenHash]))
  {
    if hash in s.tokens {
      assert ValidRow(s.tokens[hash].token) && Agrees(s.families, s.tokens[hash].token);
    }
  }

  datatype RotationCase = Misses | Replays | Rotates

  /** What a well-formed rotation does, from the presented row and its family. */
  function CaseOf(row: StoredToken, family: Family, collides: bool, next: TokenWrite, now: int, g: Option<int>, r: Option<string>): RotationCase {
    if !Addressable(row.token, family, g, r) then Misses
    else if row.consumedAt.Some? then Replays
    else if row.token.expiresAt <= now || next.row.familyId != row.token.familyId || collides then Misses
    else Rotates
  }

  /** The rows after a rotation. */
  function RotatedRows(t: map<Digest, StoredToken>, hash: Digest, next: TokenWrite, now: int): map<Digest, StoredToken>
    requires hash in t
  {
    t[hash := StoredToken(t[hash].token, Some(now))]
     [next.row.tokenHash := StoredToken(StoredRow(Successor(next, t[hash].token)), None)]
  }

  function CaseOutcome(s: Store, c: RotationCase, hash: Digest, next: TokenWrite, now: int): Outcome
    requires hash in s.tokens
  {
    match c
    case Misses => Outcome(s, TokenRow(None))
    case Replays => Outcome(s.(families := RevokedIn(s.families, s.tokens[hash].token.familyId, now, None)), TokenRow(None))
    case Rotates => Outcome(s.(tokens := RotatedRows(s.tokens, hash, next, now), order := s.order + [next.row.tokenHash]),
                            TokenRow(Some(s.tokens[hash].token)))
  }

  /** On a valid store a well-formed rotation has three outcomes and no other. */
  lemma RotationByCase(s: Store, hash: Digest, next: TokenWrite, now: int, g: Option<int>, r: Option<string>)
    requires Valid(s) && !s.closed && RotationInput(hash, next, now) && hash in s.tokens
    ensures Agrees(s.families, s.tokens[hash].token)
    ensures DoRotate(s, hash, next, now, g, r) ==
            CaseOutcome(s, CaseOf(s.tokens[hash], s.families[s.tokens[hash].token.familyId], next.row.tokenHash in s.tokens, next, now, g, r),
                        hash, next, now)
  {
    RowFacts(s, hash);
    RotationCannotHalfFail(s, hash, next, now, g, r);
  }

  lemma RotateKeepsValid(s: Store, hash: Digest, next: TokenWrite, now: int, g: Option<int>, r: Option<string>)
    requires Valid(s)
    ensures Valid(DoRotate(s, hash, next, now, g, r).store)
  {
    if hash in s.tokens {
      var current := s.tokens[hash].token;
      ConsumingKeepsValid(s, hash, Some(now));
      SaveKeepsValid(s.(tokens := s.tokens[hash := StoredToken(current, Some(now))]), Successor(next, current));
      RevokeKeepsValid(s, current.familyId, now, None);
    }
  }

  lemma {:induction false} KeepKeysMembers(order: seq<Digest>, kept: set<Digest>)
    requires NoDuplicates(order)
    ensures NoDuplicates(KeepKeys(order, kept))
    ensures forall h :: h in KeepKeys(order, kept) <==> h in order && h in kept
  {
    if order != [] {
      var front := order[..|order| - 1];
      KeepKeysMembers(front, kept);
      assert order == front + [order[|order| - 1]];
    }
  }

  lemma SweepKeepsValid(s: Store, now: int)
    requires Valid(s)
    ensures Valid(SweptStore(s, now))
  {
    var s' := SweptStore(s, now);
    KeepKeysMembers(s.order, s'.tokens.Keys);
    forall h | h in s'.tokens ensures Agrees(s'.families, s'.tokens[h].token) {
      assert Agrees(s.families, s.tokens[h].token);
      assert s'.tokens[h].token.familyId in FamiliesOf(s'.tokens);
    }
  }

  /** Every operation keeps the store valid. */
  lemma ApplyKeepsValid(s: Store, op: Op)
    requires Valid(s)
    ensures Valid(Apply(s, op).store)
  {
    hide DoSaveToken, DoRotate, DoRevoke, SweptStore, OrderOk, RowsOk, RowsAgree;
    match op
    case SaveToken(w) => SaveKeepsValid(s, w);
    case Rotate(h, next, now, g, r) => RotateKeepsValid(s, h, next, now, g, r);
    case Revoke(f, now, r) => RevokeKeepsValid(s, f, now, r);
    case Sweep(now) => SweepKeepsValid(s, now);
    case _ =>
  }

  // ------------------------------------------------------- meaning of the grants

  lemma {:induction false} AppendNewMembers(out: seq<string>, xs: seq<string>)
    requires NoDuplicates(out)
    ensures NoDuplicates(AppendNew(out, xs))
    ensures forall x :: x in AppendNew(out, xs) <==> x in out || x in xs
  {
    if xs != [] {
      AppendNewMembers(out, xs[..|xs| - 1]);
      assert xs == xs[..|xs| - 1] + [xs[|xs| - 1]];
    }
  }

  /** A scope is granted exactly when some contributing row holds it, and is listed once. */
  lemma {:induction false} CollectMembers(s: Store, keys: seq<Digest>, q: GrantQuery)
    ensures NoDuplicates(Collect(s, keys, q))
    ensures forall x :: x in Collect(s, keys, q) <==>
              exists h :: h in keys && Contributes(s, h, q) && x in s.tokens[h].token.scopes
  {
    if keys != [] {
      var front, h := keys[..|keys| - 1], keys[|keys| - 1];
      CollectMembers(s, front, q);
      assert keys == front + [h];
      if Contributes(s, h, q) { AppendNewMembers(Collect(s, front, q), s.tokens[h].token.scopes); }
      forall x ensures x in Collect(s, keys, q) <==>
          exists k :: k in keys && Contributes(s, k, q) && x in s.tokens[k].token.scopes {
        if x in Collect(s, keys, q) {
          if x in Collect(s, front, q) {
            var k :| k in front && Contributes(s, k, q) && x in s.tokens[k].token.scopes;
            assert k in keys;
          } else {
            assert h in keys && Contributes(s, h, q) && x in s.tokens[h].token.scopes;
          }
        }
      }
    }
  }

  /** The scopes a query reports, as a set: those of the active rows of that subject and client. */
  lemma GrantedExactly(s: Store, q: GrantQuery, x: string)
    requires Valid(s)
    ensures x in Collect(s, s.order, q) <==>
              exists h :: Contributes(s, h, q) && x in s.tokens[h].token.scopes
  {
    CollectMembers(s, s.order, q);
    if h :| Contributes(s, h, q) && x in s.tokens[h].token.scopes { assert h in s.order; }
  }
}
