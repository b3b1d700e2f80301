/** The store operations by their fields: who is answered what, what a written row holds, and what stays. Nothing here
    uses the functions by which GrantStore builds rows or judges them. */
module StoreLaws {
  import opened Prelude
  import opened Clock
  import opened GrantStore
  import opened StoreInvariant

  // ------------------------------------------------------------------------ inputs

  /** A subject is 1 to 384 characters that trimming leaves alone, without a replacement character. */
  lemma SubjectsAreTrimmed(s: string)
    ensures ValidSubject(s) <==> s != "" && |s| <= 384 && Trim(s) == s && forall i :: 0 <= i < |s| ==> s[i] != '\U{FFFD}'
  {
    if s != "" && IsSpace(s[0]) { TrimShortens(s[1..]); }
    if s != "" && IsSpace(s[|s| - 1]) { TrimShortens(s[..|s| - 1]); }
  }

  lemma {:induction false} TrimShortens(s: string)
    ensures |Trim(s)| <= |s|
    decreases |s|
  {
    if s != "" {
      if IsSpace(s[0]) { TrimShortens(s[1..]); }
      else if IsSpace(s[|s| - 1]) { TrimShortens(s[..|s| - 1]); }
    }
  }

  lemma {:induction false} TrimOfSpace(s: string)
    ensures Trim(s) == "" <==> forall i :: 0 <= i < |s| ==> IsSpace(s[i])
    decreases |s|
  {
    if s != "" {
      if IsSpace(s[0]) {
        TrimOfSpace(s[1..]);
        assert s == [s[0]] + s[1..];
      } else if IsSpace(s[|s| - 1]) {
        TrimOfSpace(s[..|s| - 1]);
        assert s == s[..|s| - 1] + [s[|s| - 1]];
      }
    }
  }

  /** A resource is a text that is not blank. */
  lemma ResourcesAreNotBlank(r: string)
    ensures ValidResource(r) <==> Trim(r) != ""
  {
    TrimOfSpace(r);
  }

  // -------------------------------------------------------------------------- codes

  /** A code is handed out exactly to a caller that names its resource and generation while it is unexpired; whoever
      names its resource uses it up; every other code, and everything else, stays. */
  lemma CodeIsHandedOutExactly(s: Store, h: Digest, now: int, g: Option<int>, r: Option<string>, c: AuthCode)
    ensures var out := DoConsumeCode(s, h, now, g, r);
      out.answer == CodeRow(Some(c)) <==>
        && !s.closed && h.Sha256? && CanonicalTime(now) && h in s.codes && s.codes[h] == c && ValidSubject(c.subject)
        && now < c.expiresAt && (g.Some? ==> c.generation == g) && (r.Some? ==> c.resource == r.value)
    ensures var out := DoConsumeCode(s, h, now, g, r);
      forall k :: k in out.store.codes <==> (
        k in s.codes
        && !(k == h && !s.closed && h.Sha256? && CanonicalTime(now) && ValidSubject(s.codes[h].subject) && (r.Some? ==> s.codes[h].resource == r.value)))
    ensures var s' := DoConsumeCode(s, h, now, g, r).store;
      (forall k :: k in s'.codes ==> s'.codes[k] == s.codes[k]) && s'.(codes := s.codes) == s
  {
  }

  /** 22 to 128 letters, digits, "_" and "-". */
  predicate IsInstanceId(id: string) {
    22 <= |id| <= 128 && forall i :: 0 <= i < |id| ==>
      'a' <= id[i] <= 'z' || 'A' <= id[i] <= 'Z' || '0' <= id[i] <= '9' || id[i] == '_' || id[i] == '-'
  }

  /** An approval is stored exactly for the bound instance, once, and not behind the sweeps; tombstone and code are
      written together, or nothing is. */
  lemma ApprovalIsStoredExactly(s: Store, i: string, jti: string, e: int, code: CodeWrite)
    ensures var out := DoCommitApproval(s, i, jti, e, code);
      out.answer == Commit(Stored) <==>
        && !s.closed && i == s.instanceId && jti !in s.jtis && (s.sweptThrough.Some? ==> s.sweptThrough.value <= e)
        && IsInstanceId(i) && CanonicalTime(e) && ValidSubject(code.row.subject) && code.row.codeHash.Sha256?
        && CanonicalTime(code.row.expiresAt) && code.challengeMethod == "S256"
        && (code.generation.Explicit? && code.generation.value.Some? ==> 0 < code.generation.value.value <= MAX_SAFE_INTEGER)
    ensures var out := DoCommitApproval(s, i, jti, e, code);
      out.answer != Commit(Stored) ==> out.store == s
    ensures var out := DoCommitApproval(s, i, jti, e, code); var h := code.row.codeHash;
      out.answer == Commit(Stored) ==>
        && out.store.jtis == s.jtis[jti := e] && h in out.store.codes && out.store.codes == s.codes[h := out.store.codes[h]]
        && WrittenCode(out.store.codes[h], code)
        && out.store.(jtis := s.jtis, codes := s.codes) == s
  {
  }

  /** Every field of a stored code is the caller's, except that an omitted generation is the first one. */
  predicate WrittenCode(c: AuthCode, w: CodeWrite) {
    && c.codeHash == w.row.codeHash && c.clientId == w.row.clientId && c.subject == w.row.subject
    && c.redirectUri == w.row.redirectUri && c.resource == w.row.resource && c.scopes == w.row.scopes
    && c.codeChallenge == w.row.codeChallenge && c.expiresAt == w.row.expiresAt
    && c.generation == (if w.generation.Explicit? then w.generation.value else Some(1))
  }

  /** A JTI is accepted exactly when it is new and not behind the sweeps. */
  lemma JtiIsAcceptedExactly(s: Store, jti: string, e: int)
    ensures var out := DoConsumeJti(s, jti, e);
      && (out.answer == FirstUse(true) <==>
            !s.closed && CanonicalTime(e) && jti !in s.jtis && (s.sweptThrough.Some? ==> s.sweptThrough.value <= e))
      && out.store == (if out.answer == FirstUse(true) then s.(jtis := s.jtis[jti := e]) else s)
  {
  }

  // ------------------------------------------------------------------------- tokens

  /** A saved root: every field is the caller's, an omitted resource is the unbound one, an omitted generation the
      first; its family is new and unrevoked, or was there with the same binding. */
  lemma SavedRowByFields(s: Store, w: TokenWrite)
    ensures var out := DoSaveToken(s, w); var h, f := w.row.tokenHash, w.row.familyId;
      out.answer == Done ==>
        && h !in s.tokens && h in out.store.tokens && out.store.tokens == s.tokens[h := out.store.tokens[h]]
        && out.store.order == s.order + [h]
        && out.store.tokens[h].consumedAt.None?
        && WrittenToken(out.store.tokens[h].token, w)
        && f in out.store.families
        && out.store.families == s.families[f := out.store.families[f]]
        && out.store.families[f].generation == out.store.tokens[h].token.generation
        && out.store.families[f].resource == out.store.tokens[h].token.resource
        && out.store.families[f].revokedAt == (if f in s.families then s.families[f].revokedAt else None)
        && out.store.(tokens := s.tokens, order := s.order, families := s.families) == s
    ensures var out := DoSaveToken(s, w);
      out.answer != Done ==> out.store == s
  {
  }

  predicate WrittenToken(t: Token, w: TokenWrite) {
    && t.tokenHash == w.row.tokenHash && t.familyId == w.row.familyId && t.previous == w.row.previous
    && t.clientId == w.row.clientId && t.subject == w.row.subject && t.scopes == w.row.scopes
    && t.expiresAt == w.row.expiresAt
    && t.resource == (if w.resource.Some? then w.resource.value else "mcp-sso:unbound-refresh-resource")
    && t.generation == (if w.generation.Explicit? then w.generation.value else Some(1))
  }

  /** A save is accepted exactly for a new hash in a new family or one of the same binding. */
  lemma SaveIsAcceptedExactly(s: Store, w: TokenWrite)
    ensures DoSaveToken(s, w).answer == Done <==>
      && !s.closed && SavableInput(w) && ValidSubject(w.row.subject) && w.row.tokenHash !in s.tokens
      && (w.row.familyId in s.families ==>
            && s.families[w.row.familyId].generation == (if w.generation.Explicit? then w.generation.value else Some(1))
            && s.families[w.row.familyId].resource == (if w.resource.Some? then w.resource.value else "mcp-sso:unbound-refresh-resource"))
  {
  }

  predicate SavableInput(w: TokenWrite) {
    && w.row.tokenHash.Sha256? && (w.row.previous.Some? ==> w.row.previous.value.Sha256?) && CanonicalTime(w.row.expiresAt)
    && (w.resource.Some? ==> ValidResource(w.resource.value) && w.resource.value != "mcp-sso:unbound-refresh-resource")
    && (w.generation.Explicit? && w.generation.value.Some? ==> 0 < w.generation.value.value <= MAX_SAFE_INTEGER)
  }

  /** The presented row is live and of the expected binding, which its family shares. */
  predicate LiveAndBound(s: Store, hash: Digest, now: int, g: Option<int>, r: Option<string>) {
    && hash in s.tokens && s.tokens[hash].consumedAt.None?
    && var t := s.tokens[hash].token;
    && now < t.expiresAt && ValidSubject(t.subject)
    && t.familyId in s.families && s.families[t.familyId].revokedAt.None?
    && t.resource == s.families[t.familyId].resource && t.resource != "mcp-sso:unbound-refresh-resource"
    && (g.Some? ==> t.generation == g && s.families[t.familyId].generation == g) && (r.Some? ==> t.resource == r.value)
  }

  /** The store can write the row back as that of a new token. */
  predicate Rewritable(s: Store, t: Token) {
    && t.familyId in s.families && s.families[t.familyId].generation == t.generation
    && ValidResource(t.resource) && (t.generation.Some? ==> 0 < t.generation.value <= MAX_SAFE_INTEGER)
  }

  /** A token is rotated exactly when it is live and of the expected binding, and the successor is well formed, new,
      names it as its predecessor, and stays in its family. */
  lemma RotatesExactly(s: Store, hash: Digest, next: TokenWrite, now: int, g: Option<int>, r: Option<string>)
    ensures var answer := DoRotate(s, hash, next, now, g, r).answer;
      (answer.TokenRow? && answer.token.Some?) <==>
        && !s.closed && hash.Sha256? && CanonicalTime(now) && SavableInput(next) && next.row.previous == Some(hash)
        && LiveAndBound(s, hash, now, g, r) && Rewritable(s, s.tokens[hash].token)
        && next.row.familyId == s.tokens[hash].token.familyId && next.row.tokenHash !in s.tokens
  {
  }

  /** The presented row is consumed now, and behind the new hash is an unconsumed row with the given expiry, the presented
      one as its predecessor, and the presented row's family, client, subject, scopes and binding. Every other row stays. */
  predicate Succeeded(before: Store, after: Store, hash: Digest, k: Digest, expiresAt: int, now: int)
    requires hash in before.tokens
  {
    && k !in before.tokens && after.tokens.Keys == before.tokens.Keys + {k} && after.order == before.order + [k]
    && (forall x :: x in before.tokens && x != hash ==> after.tokens[x] == before.tokens[x])
    && before.tokens[hash].consumedAt.None? && after.tokens[hash] == StoredToken(before.tokens[hash].token, Some(now))
    && after.tokens[k].consumedAt.None?
    && var t, u := before.tokens[hash].token, after.tokens[k].token;
    && u.tokenHash == k && u.previous == Some(hash) && u.familyId == t.familyId && u.expiresAt == expiresAt
    && u.clientId == t.clientId && u.subject == t.subject && u.scopes == t.scopes
    && u.resource == t.resource && u.generation == t.generation
  }

  /** What a rotation answers and leaves: the presented row, and its successor for the caller's lifetime. */
  lemma SuccessorByFields(s: Store, hash: Digest, next: TokenWrite, now: int, g: Option<int>, r: Option<string>)
    ensures var out := DoRotate(s, hash, next, now, g, r);
      out.answer.TokenRow? && out.answer.token.Some? ==>
        && hash in s.tokens && out.answer.token.value == s.tokens[hash].token
        && Succeeded(s, out.store, hash, next.row.tokenHash, next.row.expiresAt, now)
        && out.store.(tokens := s.tokens, order := s.order) == s
  {
  }

  /** Presenting a token to another generation or resource than its own answers nothing and changes nothing, consumed
      or not: it is no replay. */
  lemma ForeignBindingChangesNothing(s: Store, hash: Digest, next: TokenWrite, now: int, g: Option<int>, r: Option<string>)
    requires hash in s.tokens
    requires (g.Some? && s.tokens[hash].token.generation != g) || (r.Some? && s.tokens[hash].token.resource != r.value)
    ensures var out := DoRotate(s, hash, next, now, g, r);
      out.store == s && !(out.answer.TokenRow? && out.answer.token.Some?)
    ensures Valid(s) && !s.closed && hash.Sha256? && CanonicalTime(now) && SavableInput(next) && next.row.previous == Some(hash) ==>
      DoRotate(s, hash, next, now, g, r).answer == TokenRow(None)
  {
    if Valid(s) { RowFacts(s, hash); }
  }

  lemma RotationLaws(s: Store, hash: Digest, next: TokenWrite, now: int, g: Option<int>, r: Option<string>)
    ensures var out := DoRotate(s, hash, next, now, g, r);
      out.answer.TokenRow? && out.answer.token.Some? ==>
        && hash in s.tokens && out.answer.token.value == s.tokens[hash].token
        && Succeeded(s, out.store, hash, next.row.tokenHash, next.row.expiresAt, now)
    ensures var out := DoRotate(s, hash, next, now, g, r);
      hash in s.tokens
      && ((g.Some? && s.tokens[hash].token.generation != g) || (r.Some? && s.tokens[hash].token.resource != r.value)) ==>
        out.store == s && !(out.answer.TokenRow? && out.answer.token.Some?)
  {
    hide DoRotate, Succeeded;
    SuccessorByFields(s, hash, next, now, g, r);
    if hash in s.tokens && ((g.Some? && s.tokens[hash].token.generation != g) || (r.Some? && s.tokens[hash].token.resource != r.value)) {
      ForeignBindingChangesNothing(s, hash, next, now, g, r);
    }
  }

  /** A rotation that does not rotate changes at most one thing: where a consumed token of an unrevoked family was
      presented to its own binding, that family is revoked. (On a valid store; see RotationCannotHalfFail.) */
  lemma ReplaysExactly(s: Store, hash: Digest, next: TokenWrite, now: int, g: Option<int>, r: Option<string>)
    requires Valid(s)
    requires var answer := DoRotate(s, hash, next, now, g, r).answer; !(answer.TokenRow? && answer.token.Some?)
    ensures var s' := DoRotate(s, hash, next, now, g, r).store;
      s' != s <==>
        && !s.closed && hash.Sha256? && CanonicalTime(now) && SavableInput(next) && next.row.previous == Some(hash)
        && hash in s.tokens && s.tokens[hash].consumedAt.Some?
        && var t := s.tokens[hash].token;
        && t.familyId in s.families && s.families[t.familyId].revokedAt.None? && t.resource != "mcp-sso:unbound-refresh-resource"
        && (g.Some? ==> t.generation == g) && (r.Some? ==> t.resource == r.value)
    ensures var s' := DoRotate(s, hash, next, now, g, r).store;
      s' != s ==> (
        var f := s.tokens[hash].token.familyId;
        s' == s.(families := s.families[f := Family(Some(now), s.families[f].generation, s.families[f].resource)]))
  {
    if hash in s.tokens { RowFacts(s, hash); }
    if !s.closed && RotationInput(hash, next, now) { RotationCannotHalfFail(s, hash, next, now, g, r); }
  }

  /** A revocation marks the one family, the first time, and only for its own resource. */
  lemma RevokesExactly(s: Store, f: string, now: int, r: Option<string>)
    ensures var s' := DoRevoke(s, f, now, r).store;
      && s'.families.Keys == s.families.Keys && s'.(families := s.families) == s
      && (forall k :: k in s.families && k != f ==> s'.families[k] == s.families[k])
      && (f in s.families ==>
            if !s.closed && CanonicalTime(now) && s.families[f].revokedAt.None?
               && (r.Some? ==> ValidResource(r.value) && s.families[f].resource == r.value)
            then s'.families[f] == Family(Some(now), s.families[f].generation, s.families[f].resource)
            else s'.families[f] == s.families[f])
  {
  }

  /** A lookup answers the stored row, consumed or not, and changes nothing. */
  lemma LooksUpExactly(s: Store, h: Digest, t: Token)
    ensures DoFindToken(s, h).store == s
    ensures DoFindToken(s, h).answer == TokenRow(Some(t)) <==>
      !s.closed && h in s.tokens && s.tokens[h].token == t && ValidSubject(t.subject)
  {
  }

  /** A new instance id replaces the old one and nothing else. */
  lemma RebindsExactly(s: Store, id: string)
    ensures var s' := DoRebind(s, id).store;
      s'.instanceId == (if s.closed then s.instanceId else id) && s'.(instanceId := s.instanceId) == s
  {
  }

  // ------------------------------------------------------------------------- grants

  /** An unconsumed, unexpired row of an unrevoked family of this subject, client and binding holds the scope. */
  ghost predicate Holds(s: Store, h: Digest, q: GrantQuery, scope: string) {
    && h in s.tokens && s.tokens[h].consumedAt.None?
    && var t := s.tokens[h].token;
    && t.subject == q.subject && t.clientId == q.clientId && q.now < t.expiresAt
    && (q.generation.Some? ==> t.generation == q.generation) && (q.resource.Some? ==> t.resource == q.resource.value)
    && t.familyId in s.families && s.families[t.familyId].revokedAt.None?
    && scope in t.scopes
  }

  /** On a valid store a query reports, each once, exactly the scopes of such rows. */
  lemma ReportsExactly(s: Store, q: GrantQuery)
    requires Valid(s)
    ensures var out := DoFindGranted(s, q);
      && out.store == s
      && (out.answer.Scopes? <==> !s.closed && ValidSubject(q.subject) && CanonicalTime(q.now))
      && (out.answer.Scopes? ==> NoDuplicates(out.answer.scopes))
      && (out.answer.Scopes? ==> forall x :: x in out.answer.scopes <==> exists h :: Holds(s, h, q, x))
  {
    hide OrderOk, RowsOk, CodesOk, Collect;
    var out := DoFindGranted(s, q);
    if out.answer.Scopes? {
      CollectMembers(s, s.order, q);
      forall x ensures x in out.answer.scopes <==> exists h :: Holds(s, h, q, x) {
        GrantedExactly(s, q, x);
        if h :| Contributes(s, h, q) && x in s.tokens[h].token.scopes { assert Holds(s, h, q, x); }
        if h :| Holds(s, h, q, x) {
          assert Agrees(s.families, s.tokens[h].token);
          assert Contributes(s, h, q);
        }
      }
    }
  }

  // -------------------------------------------------------------------------- sweep

  /** A sweep at `now` raises the watermark to `now` and keeps the codes and tombstones that had not expired before. */
  lemma SweepKeepsUnexpired(s: Store, now: int)
    ensures var out := DoSweep(s, now);
      && (out.answer == Done <==> !s.closed && CanonicalTime(now)) && (out.answer != Done ==> out.store == s)
    ensures var out := DoSweep(s, now);
      out.answer == Done ==>
        var s' := out.store;
        && (forall h :: h in s'.codes <==> h in s.codes && now <= s.codes[h].expiresAt)
        && (forall h :: h in s'.codes ==> s'.codes[h] == s.codes[h])
        && (forall j :: j in s'.jtis <==> j in s.jtis && now <= s.jtis[j])
        && (forall j :: j in s'.jtis ==> s'.jtis[j] == s.jtis[j])
        && s'.sweptThrough == (if s.sweptThrough.Some? && now < s.sweptThrough.value then s.sweptThrough else Some(now))
        && s'.closed == s.closed && s'.instanceId == s.instanceId
  {
    hide LiveTokens, KeepKeys;
  }

  /** Some token of the family had not expired before `now`. */
  ghost predicate HasUnexpired(s: Store, f: string, now: int) {
    exists m :: m in s.tokens && s.tokens[m].token.familyId == f && now <= s.tokens[m].token.expiresAt
  }

  /** A sweep keeps the families with a member that had not expired before, and all their tokens, consumed or not, in
      their order. */
  lemma SweepKeepsWholeFamilies(s: Store, now: int)
    requires !s.closed && CanonicalTime(now)
    ensures var s' := DoSweep(s, now).store;
      && (forall h :: h in s'.tokens <==> h in s.tokens && HasUnexpired(s, s.tokens[h].token.familyId, now))
      && (forall h :: h in s'.tokens ==> s'.tokens[h] == s.tokens[h])
      && IsSubsequence(s'.order, s.order)
      && (forall f :: f in s'.families <==> f in s.families && HasUnexpired(s, f, now))
      && (forall f :: f in s'.families ==> s'.families[f] == s.families[f])
  {
    var s', live := DoSweep(s, now).store, LiveTokens(s.tokens, now);
    KeepsOrder(s.order, live.Keys);
    SweptFamilies(s, now);
    hide IsSubsequence, KeepKeys, LiveTokens, FamiliesOf;
    forall h ensures h in s'.tokens <==> h in s.tokens && HasUnexpired(s, s.tokens[h].token.familyId, now) { LiveExactly(s, now, h); }
    forall h | h in s'.tokens ensures s'.tokens[h] == s.tokens[h] { LiveExactly(s, now, h); }
  }

  lemma LiveExactly(s: Store, now: int, h: Digest)
    ensures var live := LiveTokens(s.tokens, now);
      && (h in live <==> h in s.tokens && HasUnexpired(s, s.tokens[h].token.familyId, now))
      && (h in live ==> live[h] == s.tokens[h])
  {
    if h in s.tokens && HasUnexpired(s, s.tokens[h].token.familyId, now) {
      assert FamilyLive(s.tokens, s.tokens[h].token.familyId, now);
    }
  }

  lemma SweptFamilies(s: Store, now: int)
    ensures forall f :: f in FamiliesOf(LiveTokens(s.tokens, now)) <==> HasUnexpired(s, f, now)
  {
    hide FamilyLive, LiveTokens;
    var live := LiveTokens(s.tokens, now);
    forall f ensures f in FamiliesOf(live) <==> HasUnexpired(s, f, now) {
      if h :| h in live && live[h].token.familyId == f { LiveExactly(s, now, h); }
      if m :| m in s.tokens && s.tokens[m].token.familyId == f && now <= s.tokens[m].token.expiresAt {
        LiveExactly(s, now, m);
        assert m in live;
      }
    }
  }

  lemma {:induction false} KeepsOrder(order: seq<Digest>, kept: set<Digest>)
    ensures IsSubsequence(KeepKeys(order, kept), order)
  {
    if order != [] {
      var front, h := order[..|order| - 1], order[|order| - 1];
      KeepsOrder(front, kept);
      assert order == front + [h];
      if h in kept { AppendBoth(KeepKeys(front, kept), front, h); } else { AppendOne(KeepKeys(front, kept), front, h); }
    }
  }

  lemma {:induction false} AppendBoth<T>(sub: seq<T>, xs: seq<T>, x: T)
    requires IsSubsequence(sub, xs)
    ensures IsSubsequence(sub + [x], xs + [x])
  {
    if xs == [] {
      assert sub + [x] == [x] && xs + [x] == [x];
      assert IsSubsequence<T>([x][1..], [x][1..]);
    } else {
      assert (xs + [x])[1..] == xs[1..] + [x];
      if sub != [] && sub[0] == xs[0] && IsSubsequence(sub[1..], xs[1..]) {
        AppendBoth(sub[1..], xs[1..], x);
        assert (sub + [x])[1..] == sub[1..] + [x];
      } else {
        AppendBoth(sub, xs[1..], x);
      }
    }
  }

  lemma {:induction false} AppendOne<T>(sub: seq<T>, xs: seq<T>, x: T)
    requires IsSubsequence(sub, xs)
    ensures IsSubsequence(sub, xs + [x])
  {
    if sub != [] {
      assert (xs + [x])[1..] == xs[1..] + [x];
      if sub[0] == xs[0] && IsSubsequence(sub[1..], xs[1..]) { AppendOne(sub[1..], xs[1..], x); } else { AppendOne(sub, xs[1..], x); }
    }
  }
}
