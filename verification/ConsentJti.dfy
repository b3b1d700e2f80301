/** Single use of consent and flow JTIs over whole runs. */
module ConsentJti {
  import opened Prelude
  import opened Clock
  import opened GrantStore

  /** The call presents `jti`. */
  predicate Presents(op: Op, jti: string) {
    (op.CommitApproval? && op.jti == jti) || (op.ConsumeJti? && op.jti == jti)
  }

  /** The call presents `jti` and the store takes it as a first use. */
  predicate Accepts(s: Store, op: Op, jti: string) {
    && Presents(op, jti)
    && (Apply(s, op).answer == Commit(Stored) || Apply(s, op).answer == FirstUse(true))
  }

  function Acceptances(s: Store, ops: seq<Op>, jti: string): nat
    decreases |ops|
  {
    if ops == [] then 0
    else (if Accepts(s, ops[0], jti) then 1 else 0) + Acceptances(Apply(s, ops[0]).store, ops[1..], jti)
  }

  /** Whoever presents the JTI presents it with the expiry it was signed with. */
  predicate SignedWith(ops: seq<Op>, jti: string, expiry: int) {
    forall i :: 0 <= i < |ops| && Presents(ops[i], jti) ==> ops[i].expiresAt == expiry
  }

  /** The tombstone is still stored, or the sweep watermark has passed it. */
  predicate Spent(s: Store, jti: string, expiry: int) {
    (jti in s.jtis && s.jtis[jti] == expiry) || Fenced(s, expiry)
  }

  predicate Consistent(s: Store, jti: string, expiry: int) {
    jti in s.jtis ==> s.jtis[jti] == expiry
  }

  /** Token operations leave tombstones and watermark alone. */
  lemma TokenOpsKeepJtis(s: Store, op: Op)
    requires op.SaveToken? || op.Rotate? || op.Revoke?
    ensures Apply(s, op).store.jtis == s.jtis && Apply(s, op).store.sweptThrough == s.sweptThrough
  {
  }

  lemma StepOnJti(s: Store, op: Op, jti: string, expiry: int)
    requires Consistent(s, jti, expiry)
    requires Presents(op, jti) ==> op.expiresAt == expiry
    ensures Consistent(Apply(s, op).store, jti, expiry)
    ensures Spent(s, jti, expiry) ==> Spent(Apply(s, op).store, jti, expiry) && !Accepts(s, op, jti)
    ensures Accepts(s, op, jti) ==> Spent(Apply(s, op).store, jti, expiry)
    ensures !Accepts(s, op, jti) && jti !in s.jtis ==> jti !in Apply(s, op).store.jtis
  {
    hide DoSaveToken, DoRotate, DoRevoke;
    if op.SaveToken? || op.Rotate? || op.Revoke? { TokenOpsKeepJtis(s, op); }
  }

  /** In every run, over any mix of approvals, JTI consumptions, sweeps at
      arbitrary times and every other operation, a JTI is accepted at most once,
      and never again once it is spent. */
  lemma {:induction false} AcceptedAtMostOnce(s: Store, ops: seq<Op>, jti: string, expiry: int)
    requires Consistent(s, jti, expiry) && SignedWith(ops, jti, expiry)
    ensures Acceptances(s, ops, jti) <= 1
    ensures Spent(s, jti, expiry) ==> Acceptances(s, ops, jti) == 0
    decreases |ops|
  {
    if ops != [] {
      StepOnJti(s, ops[0], jti, expiry);
      AcceptedAtMostOnce(Apply(s, ops[0]).store, ops[1..], jti, expiry);
    }
  }

  lemma {:induction false} UnacceptedLeavesNoTombstone(s: Store, ops: seq<Op>, jti: string, expiry: int)
    requires Consistent(s, jti, expiry) && SignedWith(ops, jti, expiry)
    requires jti !in s.jtis && Acceptances(s, ops, jti) == 0
    ensures jti !in Run(s, ops).jtis
    decreases |ops|
  {
    if ops != [] {
      StepOnJti(s, ops[0], jti, expiry);
      UnacceptedLeavesNoTombstone(Apply(s, ops[0]).store, ops[1..], jti, expiry);
    }
  }

  lemma {:induction false} AcceptancesSplit(s: Store, xs: seq<Op>, ys: seq<Op>, jti: string)
    ensures Acceptances(s, xs + ys, jti) == Acceptances(s, xs, jti) + Acceptances(Run(s, xs), ys, jti)
    ensures Run(s, xs + ys) == Run(Run(s, xs), ys)
    decreases |xs|
  {
    if xs == [] {
      assert xs + ys == ys;
    } else {
      assert (xs + ys)[1..] == xs[1..] + ys;
      AcceptancesSplit(Apply(s, xs[0]).store, xs[1..], ys, jti);
    }
  }

  /** The bound is met: a well-formed consumption that reaches an open store
      before any sweep passes the signed expiry makes the count exactly one,
      wherever in the run it stands. */
  lemma AcceptedExactlyOnce(s: Store, before: seq<Op>, after: seq<Op>, jti: string, expiry: int)
    requires jti !in s.jtis && CanonicalTime(expiry)
    requires SignedWith(before + [ConsumeJti(jti, expiry)] + after, jti, expiry)
    requires !Run(s, before).closed && !Fenced(Run(s, before), expiry)
    ensures Acceptances(s, before + [ConsumeJti(jti, expiry)] + after, jti) == 1
  {
    var op := ConsumeJti(jti, expiry);
    var all := before + [op] + after;
    assert all == before + ([op] + after);
    assert SignedWith(before, jti, expiry) by {
      forall i | 0 <= i < |before| && Presents(before[i], jti) ensures before[i].expiresAt == expiry {
        assert all[i] == before[i];
      }
    }
    AcceptedAtMostOnce(s, all, jti, expiry);
    AcceptancesSplit(s, before, [op] + after, jti);
    if Acceptances(s, before, jti) == 0 {
      UnacceptedLeavesNoTombstone(s, before, jti, expiry);
      assert Accepts(Run(s, before), op, jti);
    }
  }
}
