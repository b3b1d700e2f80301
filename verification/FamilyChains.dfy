/** Refresh-token families: each is one chain with one live end, and a replayed
    or revoked family stays dead for the rest of the run. */
module FamilyChains {
  import opened Prelude
  import opened Clock
  import opened GrantStore
  import opened StoreInvariant

  // -------------------------------------------------------------------- chains

  predicate SameBinding(t: Token, u: Token) {
    && t.clientId == u.clientId && t.subject == u.subject && t.resource == u.resource
    && t.scopes == u.scopes && t.generation == u.generation
  }

  /** `c[i]` is a member of `f` that names `c[i - 1]` as its predecessor, is bound
      like the root, and is unconsumed exactly if it is the last. */
  predicate IsLink(s: Store, f: string, c: seq<Digest>, i: int)
    requires 0 <= i < |c|
  {
    && c[i] in s.tokens && c[0] in s.tokens
    && var row := s.tokens[c[i]];
    && row.token.familyId == f
    && row.token.previous == (if i == 0 then None else Some(c[i - 1]))
    && SameBinding(row.token, s.tokens[c[0]].token)
    && (row.consumedAt.None? <==> i == |c| - 1)
  }

  /** `c` lists all members of `f`, oldest first, as one linked chain. */
  predicate IsChain(s: Store, f: string, c: seq<Digest>) {
    && c != [] && NoDuplicates(c)
    && (forall h :: h in s.tokens && s.tokens[h].token.familyId == f ==> h in c)
    && (forall i :: 0 <= i < |c| ==> IsLink(s, f, c, i))
  }

  ghost predicate HasChain(s: Store, f: string) {
    exists c :: IsChain(s, f, c)
  }

  ghost predicate Chained(s: Store) {
    forall f :: f in s.families ==> HasChain(s, f)
  }

  /** The use-cases save a token directly only as the root of a family id that was never used. */
  predicate RootsAreFresh(ops: seq<Op>, used: set<string>)
    decreases |ops|
  {
    ops == [] ||
    if ops[0].SaveToken? then
      var f := ops[0].write.row.familyId;
      ops[0].write.row.previous.None? && f !in used && RootsAreFresh(ops[1..], used + {f})
    else RootsAreFresh(ops[1..], used)
  }

  /** `f` has the same rows in both stores. */
  predicate SameMembers(s: Store, s': Store, f: string) {
    && (forall h :: h in s.tokens && s.tokens[h].token.familyId == f ==> h in s'.tokens && s'.tokens[h] == s.tokens[h])
    && (forall h :: h in s'.tokens && s'.tokens[h].token.familyId == f ==> h in s.tokens && s'.tokens[h] == s.tokens[h])
  }

  lemma HasChainUnchanged(s: Store, s': Store, f: string)
    requires HasChain(s, f) && SameMembers(s, s', f)
    ensures HasChain(s', f)
  {
    var c :| IsChain(s, f, c);
    forall i | 0 <= i < |c| ensures IsLink(s', f, c, i) {
      assert IsLink(s, f, c, i) && IsLink(s, f, c, 0);
    }
    assert IsChain(s', f, c);
  }

  lemma SameRowsKeepChains(s: Store, s': Store)
    requires Chained(s) && s'.tokens == s.tokens && s'.families.Keys <= s.families.Keys
    ensures Chained(s')
  {
    forall f | f in s'.families ensures HasChain(s', f) {
      assert HasChain(s, f);
      HasChainUnchanged(s, s', f);
    }
  }

  lemma RootMakesChain(s: Store, w: TokenWrite)
    requires Valid(s) && w.row.previous.None? && w.row.familyId !in s.families
    requires !DoSaveToken(s, w).answer.Thrown?
    ensures HasChain(DoSaveToken(s, w).store, w.row.familyId)
  {
    var s', h := DoSaveToken(s, w).store, w.row.tokenHash;
    forall k | k in s'.tokens && s'.tokens[k].token.familyId == w.row.familyId ensures k in [h] {
    }
    assert IsLink(s', w.row.familyId, [h], 0);
    assert IsChain(s', w.row.familyId, [h]);
  }

  lemma AnsweredRotations(s: Store, hash: Digest, next: TokenWrite, now: int, g: Option<int>, r: Option<string>)
    ensures DoRotate(s, hash, next, now, g, r).answer.TokenRow? ==> !s.closed && RotationInput(hash, next, now)
  {
  }

  /** Rotation extends the chain at its live end. */
  lemma RotationExtendsChain(s: Store, c: seq<Digest>, hash: Digest, next: TokenWrite, now: int, g: Option<int>, r: Option<string>)
    requires Valid(s) && hash in s.tokens && IsChain(s, s.tokens[hash].token.familyId, c)
    requires var a := DoRotate(s, hash, next, now, g, r).answer; a.TokenRow? && a.token.Some?
    ensures c[|c| - 1] == hash
    ensures IsChain(DoRotate(s, hash, next, now, g, r).store, s.tokens[hash].token.familyId, c + [next.row.tokenHash])
  {
    hide Valid, RotationInput;
    AnsweredRotations(s, hash, next, now, g, r);
    RotationCannotHalfFail(s, hash, next, now, g, r);
    hide DoRotate;
    var s', f := DoRotate(s, hash, next, now, g, r).store, s.tokens[hash].token.familyId;
    var d := c + [next.row.tokenHash];
    assert hash in c;
    var k :| 0 <= k < |c| && c[k] == hash;
    assert IsLink(s, f, c, k);
    forall i | 0 <= i < |d| ensures IsLink(s', f, d, i) {
      assert IsLink(s, f, c, 0);
      if i < |c| { assert IsLink(s, f, c, i); }
    }
    forall i, j | 0 <= i < j < |d| ensures d[i] != d[j] {
      assert IsLink(s, f, c, i);
    }
  }

  lemma RotateKeepsChains(s: Store, hash: Digest, next: TokenWrite, now: int, g: Option<int>, r: Option<string>)
    requires Valid(s) && Chained(s)
    ensures Chained(DoRotate(s, hash, next, now, g, r).store)
  {
    hide IsChain, Valid, RotationInput;
    var out := DoRotate(s, hash, next, now, g, r);
    if !s.closed && RotationInput(hash, next, now) { RotationCannotHalfFail(s, hash, next, now, g, r); }
    forall f | f in out.store.families ensures HasChain(out.store, f) {
      if out.answer.TokenRow? && out.answer.token.Some? && f == s.tokens[hash].token.familyId {
        assert HasChain(s, f);
        var c :| IsChain(s, f, c);
        RotationExtendsChain(s, c, hash, next, now, g, r);
      } else {
        assert HasChain(s, f);
        HasChainUnchanged(s, out.store, f);
      }
    }
  }

  lemma SweepKeepsChains(s: Store, now: int)
    requires Valid(s) && Chained(s)
    ensures Chained(SweptStore(s, now))
  {
    hide CodesOk, OrderOk, RowsOk, IsChain;
    var s' := SweptStore(s, now);
    forall f | f in s'.families ensures HasChain(s', f) {
      var h :| h in s'.tokens && s'.tokens[h].token.familyId == f;
      assert FamilyLive(s.tokens, f, now);
      HasChainUnchanged(s, s', f);
    }
  }

  lemma SaveKeepsChains(s: Store, w: TokenWrite)
    requires Valid(s) && Chained(s) && w.row.previous.None? && w.row.familyId !in s.families
    ensures Chained(DoSaveToken(s, w).store)
  {
    var s' := DoSaveToken(s, w).store;
    forall f | f in s'.families ensures HasChain(s', f) {
      if f in s.families { HasChainUnchanged(s, s', f); } else { RootMakesChain(s, w); }
    }
  }

  lemma ApplyKeepsChains(s: Store, op: Op)
    requires Valid(s) && Chained(s)
    requires op.SaveToken? ==> op.write.row.previous.None? && op.write.row.familyId !in s.families
    ensures Chained(Apply(s, op).store)
  {
    if !op.Rotate? && !op.SaveToken? && !op.Sweep? { OtherCallsKeepRows(s, op); }
    hide Valid, Chained, DoRotate, DoSaveToken, SweptStore, DoCommitApproval, DoSaveCode, DoConsumeCode, DoConsumeJti, DoRevoke;
    match op
    case Rotate(h, next, now, g, r) => RotateKeepsChains(s, h, next, now, g, r);
    case Sweep(now) => SweepKeepsChains(s, now);
    case SaveToken(w) => SaveKeepsChains(s, w);
    case _ => SameRowsKeepChains(s, Apply(s, op).store);
  }

  lemma OtherCallsKeepRows(s: Store, op: Op)
    requires !op.Rotate? && !op.SaveToken? && !op.Sweep?
    ensures Apply(s, op).store.tokens == s.tokens && Apply(s, op).store.families.Keys == s.families.Keys
  {
  }

  /** No call but a direct save brings in a new family. */
  lemma FamiliesOnlyFromSaves(s: Store, op: Op)
    requires Valid(s)
    ensures Apply(s, op).store.families.Keys <= s.families.Keys + (if op.SaveToken? then {op.write.row.familyId} else {})
  {
    if op.Rotate? && !s.closed && RotationInput(op.hash, op.next, op.now) {
      RotationCannotHalfFail(s, op.hash, op.next, op.now, op.generation, op.resource);
    }
  }

  /** In every run whose roots are fresh, every family is one chain linked by
      predecessor hashes, equally bound throughout, whose last member alone is unconsumed. */
  lemma {:induction false} EveryFamilyIsOneChain(s: Store, ops: seq<Op>, used: set<string>)
    requires Valid(s) && Chained(s) && s.families.Keys <= used && RootsAreFresh(ops, used)
    ensures Valid(Run(s, ops)) && Chained(Run(s, ops))
    decreases |ops|
  {
    if ops != [] {
      ApplyKeepsValid(s, ops[0]);
      ApplyKeepsChains(s, ops[0]);
      FamiliesOnlyFromSaves(s, ops[0]);
      var used' := if ops[0].SaveToken? then used + {ops[0].write.row.familyId} else used;
      EveryFamilyIsOneChain(Apply(s, ops[0]).store, ops[1..], used');
    }
  }

  /** Consequently two unconsumed rows of one family are the same row. */
  lemma OneLiveMember(s: Store, h: Digest, k: Digest)
    requires Valid(s) && Chained(s) && h in s.tokens && k in s.tokens
    requires s.tokens[h].token.familyId == s.tokens[k].token.familyId
    requires s.tokens[h].consumedAt.None? && s.tokens[k].consumedAt.None?
    ensures h == k
  {
    hide RowsOk, OrderOk, CodesOk, SameBinding;
    var f := s.tokens[h].token.familyId;
    assert Agrees(s.families, s.tokens[h].token);
    assert HasChain(s, f);
    var c :| IsChain(s, f, c);
    var i :| 0 <= i < |c| && c[i] == h;
    var j :| 0 <= j < |c| && c[j] == k;
    assert IsLink(s, f, c, i) && IsLink(s, f, c, j);
  }

  // -------------------------------------------------------------------- replay

  /** Revoked, or already swept away. */
  predicate Dead(s: Store, f: string) {
    f in s.families ==> s.families[f].revokedAt.Some?
  }

  /** The row is bound to the generation and resource a caller expects. */
  predicate BoundTo(t: Token, g: Option<int>, r: Option<string>) {
    t.resource != UNBOUND_RESOURCE && (g.Some? ==> t.generation == g) && (r.Some? ==> t.resource == r.value)
  }

  /** Presenting a consumed member, with a well-formed successor, to the resource
      and generation the family is bound to, revokes the family and rotates nothing. */
  lemma ReplayRevokesFamily(s: Store, hash: Digest, next: TokenWrite, now: int, g: Option<int>, r: Option<string>)
    requires Valid(s) && !s.closed && RotationInput(hash, next, now)
    requires hash in s.tokens && s.tokens[hash].consumedAt.Some?
    requires BoundTo(s.tokens[hash].token, g, r)
    ensures var out := DoRotate(s, hash, next, now, g, r);
      && out.answer == TokenRow(None) && Dead(out.store, s.tokens[hash].token.familyId)
      && out.store.tokens == s.tokens && out.store.families.Keys == s.families.Keys
  {
    assert ValidRow(s.tokens[hash].token) && Agrees(s.families, s.tokens[hash].token);
  }

  lemma DeadNeverActs(s: Store, f: string, h: Digest)
    requires Valid(s) && Dead(s, f)
    requires h in s.tokens ==> s.tokens[h].token.familyId == f
    ensures forall next, now, g, r :: DoRotate(s, h, next, now, g, r).answer in {Thrown(StoreClosed), Thrown(InvalidInput), TokenRow(None)}
    ensures forall q :: !Contributes(s, h, q)
  {
  }

  lemma DeadStaysDead(s: Store, op: Op, f: string)
    requires Valid(s) && Dead(s, f)
    requires op.SaveToken? ==> op.write.row.familyId != f
    ensures Dead(Apply(s, op).store, f)
  {
    if op.Rotate? && !s.closed && RotationInput(op.hash, op.next, op.now) {
      RotationCannotHalfFail(s, op.hash, op.next, op.now, op.generation, op.resource);
    }
  }

  /** Through every later run a dead family stays dead. */
  lemma {:induction false} DeadForever(s: Store, ops: seq<Op>, f: string, used: set<string>)
    requires Valid(s) && Dead(s, f) && f in used && RootsAreFresh(ops, used)
    ensures Valid(Run(s, ops)) && Dead(Run(s, ops), f)
    decreases |ops|
  {
    if ops != [] {
      ApplyKeepsValid(s, ops[0]);
      DeadStaysDead(s, ops[0], f);
      var used' := if ops[0].SaveToken? then used + {ops[0].write.row.familyId} else used;
      DeadForever(Apply(s, ops[0]).store, ops[1..], f, used');
    }
  }

  /** A replay ends its family: after any further run no member rotates and none
      contributes a scope to any query. */
  lemma ReplayEndsFamily(s: Store, replay: Op, later: seq<Op>, used: set<string>, h: Digest)
    requires Valid(s) && s.families.Keys <= used && RootsAreFresh(later, used)
    requires replay.Rotate? && !s.closed && RotationInput(replay.hash, replay.next, replay.now)
    requires replay.hash in s.tokens && s.tokens[replay.hash].consumedAt.Some?
    requires BoundTo(s.tokens[replay.hash].token, replay.generation, replay.resource)
    ensures var f, end := s.tokens[replay.hash].token.familyId, Run(Apply(s, replay).store, later);
      (h in end.tokens ==> end.tokens[h].token.familyId == f) ==>
        && (forall next, now, g, r :: DoRotate(end, h, next, now, g, r).answer in {Thrown(StoreClosed), Thrown(InvalidInput), TokenRow(None)})
        && (forall q :: !Contributes(end, h, q))
  {
    var f := s.tokens[replay.hash].token.familyId;
    ReplayRevokesFamily(s, replay.hash, replay.next, replay.now, replay.generation, replay.resource);
    ApplyKeepsValid(s, replay);
    assert Agrees(s.families, s.tokens[replay.hash].token);
    DeadForever(Apply(s, replay).store, later, f, used);
    var end := Run(Apply(s, replay).store, later);
    if h in end.tokens ==> end.tokens[h].token.familyId == f { DeadNeverActs(end, f, h); }
  }
}
