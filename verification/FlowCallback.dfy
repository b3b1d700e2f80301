/** The upstream callback: many requests present signed flow cookies, each in several steps, over one store. */
module FlowCallback {
  import opened Prelude
  import opened GrantStore
  import opened ConsentJti

  /** Where a request is between its awaits: its cookie passed the checks, or its flow JTI was consumed first. */
  datatype Progress = Admitted(jti: string, expiresAt: int) | FirstUser(jti: string)

  /** The store, the requests in progress, and the JTIs whose code went to the identity provider, in order. */
  datatype Flows = Flows(store: Store, requests: map<nat, Progress>, exchanged: seq<string>)

  /** The cookie's checks end; the store is asked to consume the JTI; the code is exchanged; the request ends without
      an exchange; any other store call, of this or of another use-case. */
  datatype Event =
    | Admit(request: nat, jti: string, expiresAt: int)
    | Consume(request: nat)
    | Exchange(request: nat)
    | GiveUp(request: nat)
    | StoreCall(op: Op)

  function Step(f: Flows, e: Event): Flows {
    match e
    case Admit(r, jti, expiresAt) =>
      if r in f.requests then f else f.(requests := f.requests[r := Admitted(jti, expiresAt)])
    case Consume(r) =>
      if r !in f.requests || !f.requests[r].Admitted? then f
      else
        var p := f.requests[r];
        var out := DoConsumeJti(f.store, p.jti, p.expiresAt);
        if out.answer == FirstUse(true) then Flows(out.store, f.requests[r := FirstUser(p.jti)], f.exchanged)
        else Flows(out.store, f.requests - {r}, f.exchanged)
    case Exchange(r) =>
      if r !in f.requests || !f.requests[r].FirstUser? then f
      else Flows(f.store, f.requests - {r}, f.exchanged + [f.requests[r].jti])
    case GiveUp(r) => f.(requests := f.requests - {r})
    case StoreCall(op) => f.(store := Apply(f.store, op).store)
  }

  function After(f: Flows, events: seq<Event>): Flows
    decreases |events|
  {
    if events == [] then f else After(Step(f, events[0]), events[1..])
  }

  /** Whoever presents the JTI presents it with the expiry it was signed with. */
  predicate SignedAs(e: Event, jti: string, expiry: int) {
    && (e.Admit? && e.jti == jti ==> e.expiresAt == expiry)
    && (e.StoreCall? && Presents(e.op, jti) ==> e.op.expiresAt == expiry)
  }

  predicate AllSignedAs(events: seq<Event>, jti: string, expiry: int) {
    forall i :: 0 <= i < |events| ==> SignedAs(events[i], jti, expiry)
  }

  function Exchanges(exchanged: seq<string>, jti: string): nat {
    multiset(exchanged)[jti]
  }

  predicate MayExchange(f: Flows, r: nat, jti: string) {
    r in f.requests && f.requests[r] == FirstUser(jti)
  }

  /** The JTI's one exchange is behind it, or lies with one request, or is still to be won. */
  ghost predicate OneChance(f: Flows, jti: string, expiry: int) {
    && Consistent(f.store, jti, expiry)
    && (forall r :: r in f.requests && f.requests[r].Admitted? && f.requests[r].jti == jti ==> f.requests[r].expiresAt == expiry)
    && Exchanges(f.exchanged, jti) <= 1
    && (Exchanges(f.exchanged, jti) == 1 ==> Spent(f.store, jti, expiry) && forall r :: !MayExchange(f, r, jti))
    && (forall r :: MayExchange(f, r, jti) ==> Spent(f.store, jti, expiry))
    && (forall r, q :: MayExchange(f, r, jti) && MayExchange(f, q, jti) ==> r == q)
  }

  lemma ConsumeKeepsOneChance(f: Flows, r: nat, jti: string, expiry: int)
    requires OneChance(f, jti, expiry)
    ensures OneChance(Step(f, Consume(r)), jti, expiry)
  {
    if r in f.requests && f.requests[r].Admitted? {
      var p, f' := f.requests[r], Step(f, Consume(r));
      var op := ConsumeJti(p.jti, p.expiresAt);
      StepOnJti(f.store, op, jti, expiry);
      assert Apply(f.store, op) == DoConsumeJti(f.store, p.jti, p.expiresAt);
      forall q | MayExchange(f', q, jti) ensures (q == r && p.jti == jti) || MayExchange(f, q, jti) { }
    }
  }

  lemma ExchangeKeepsOneChance(f: Flows, r: nat, jti: string, expiry: int)
    requires OneChance(f, jti, expiry)
    ensures OneChance(Step(f, Exchange(r)), jti, expiry)
  {
    if r in f.requests && f.requests[r].FirstUser? {
      var f' := Step(f, Exchange(r));
      assert f.requests[r].jti == jti ==> MayExchange(f, r, jti);
      forall q | MayExchange(f', q, jti) ensures q != r && MayExchange(f, q, jti) { }
    }
  }

  lemma StepKeepsOneChance(f: Flows, e: Event, jti: string, expiry: int)
    requires OneChance(f, jti, expiry) && SignedAs(e, jti, expiry)
    ensures OneChance(Step(f, e), jti, expiry)
  {
    match e
    case Consume(r) => ConsumeKeepsOneChance(f, r, jti, expiry);
    case Exchange(r) => ExchangeKeepsOneChance(f, r, jti, expiry);
    case StoreCall(op) =>
      StepOnJti(f.store, op, jti, expiry);
      forall q ensures MayExchange(Step(f, e), q, jti) <==> MayExchange(f, q, jti) { }
    case _ =>
      forall q | MayExchange(Step(f, e), q, jti) ensures MayExchange(f, q, jti) { }
  }

  lemma {:induction false} RunKeepsOneChance(f: Flows, events: seq<Event>, jti: string, expiry: int)
    requires OneChance(f, jti, expiry) && AllSignedAs(events, jti, expiry)
    ensures OneChance(After(f, events), jti, expiry)
    decreases |events|
  {
    hide OneChance, Step, SignedAs;
    if events != [] {
      StepKeepsOneChance(f, events[0], jti, expiry);
      RunKeepsOneChance(Step(f, events[0]), events[1..], jti, expiry);
    }
  }

  /** In every interleaving one signed flow cookie causes at most one upstream exchange, however many requests present
      it and whatever else is done to the store. */
  lemma OneExchangePerFlowCookie(s: Store, events: seq<Event>, jti: string, expiry: int)
    requires Consistent(s, jti, expiry) && AllSignedAs(events, jti, expiry)
    ensures Exchanges(After(Flows(s, map[], []), events).exchanged, jti) <= 1
  {
    hide Step, SignedAs, Spent;
    RunKeepsOneChance(Flows(s, map[], []), events, jti, expiry);
  }
}
