/** Who is granted what. The rules of the token and authorize endpoints, stated on the fields of what the store holds,
    and the proof that one request from start to end follows them. */
module GrantRules {
  import opened Prelude
  import opened Clock
  import opened Text
  import opened GrantStore
  import opened StoreInvariant
  import opened StoreLaws
  import opened RefreshText
  import opened GrantSystem
  import ScopeClaim

  // ------------------------------------------------------------------- common conditions

  /** The reading and the expiries of both tokens can be written. */
  predicate ClockFits(cfg: Config, now: int) {
    CanonicalTime(now) && CanonicalTime(now + cfg.accessTtlMs) && CanonicalTime(now + cfg.refreshTtlMs)
  }

  /** Bound to this bridge: its resource, and for stored registrations the current generation. */
  predicate InBinding(cfg: Config, generation: Option<int>, resource: string) {
    resource == cfg.resource && (cfg.storedDcr ==> generation == Some(1))
  }

  /** At most 128 scopes of the catalog, each 1 to 256 characters of a scope token. */
  predicate ScopesStand(cfg: Config, scopes: seq<string>) {
    |scopes| <= 128 && forall x :: x in scopes ==> ScopeStands(cfg, x)
  }

  predicate ScopeStands(cfg: Config, x: string) {
    x in cfg.catalog && 1 <= |x| <= 256
    && forall k :: 0 <= k < |x| ==> x[k] == '!' || '#' <= x[k] <= '[' || ']' <= x[k] <= '~'
  }

  /** Not in the namespace of machine clients. */
  predicate Unreserved(subject: string) {
    |subject| < 4 || subject[..4] != "mcc_"
  }

  /** A token can be written for this resource and generation. */
  predicate CanBind(cfg: Config, generation: Option<int>) {
    && Trim(cfg.resource) != "" && cfg.resource != "mcp-sso:unbound-refresh-resource"
    && (generation.Some? ==> 0 < generation.value <= MAX_SAFE_INTEGER)
  }

  lemma UsableClockFits(cfg: Config, now: int)
    ensures UsableClock(cfg, now) <==> ClockFits(cfg, now)
  {
  }

  lemma BoundedScope(cfg: Config, x: string)
    ensures ScopeClaim.IsBoundedScopeToken(x) && x in cfg.catalog <==> ScopeStands(cfg, x)
  {
    if ScopeClaim.IsScopeToken(x) || ScopeStands(cfg, x) { AsciiLength(x); }
  }

  lemma ScopesStandExactly(cfg: Config, scopes: seq<string>)
    ensures ScopeClaim.StoredScopes(scopes, cfg.catalog) == if ScopesStand(cfg, scopes) then Some(scopes) else None
  {
    hide ScopeStands;
    forall x ensures ScopeClaim.IsBoundedScopeToken(x) && x in cfg.catalog <==> ScopeStands(cfg, x) { BoundedScope(cfg, x); }
    hide ScopeClaim.IsBoundedScopeToken;
    if ScopesStand(cfg, scopes) {
      forall i | 0 <= i < |scopes| ensures ScopeClaim.IsBoundedScopeToken(scopes[i]) && scopes[i] in cfg.catalog { assert scopes[i] in scopes; }
    }
  }

  lemma ReservedExactly(subject: string)
    ensures ReservedSubject(subject) <==> !Unreserved(subject)
  {
  }

  lemma BindsExactly(cfg: Config, generation: Option<int>)
    ensures CanBind(cfg, generation) <==> ValidResourceInput(Some(cfg.resource)) && ValidGeneration(generation)
  {
    ResourcesAreNotBlank(cfg.resource);
  }

  /** A system with this store, these signed consents, and no request in progress. */
  function Around(s: Store, signed: set<Consent>): System {
    Initial(s.instanceId).(store := s, signed := signed)
  }

  // ------------------------------------------------------------------------ refresh

  function RotationEvent(raw: string, clientId: string, random: string, now: int, fault: Fault): Event {
    RotateToken(0, raw, clientId, random, now, fault)
  }

  /** Rotation, preparation and, where it is owed, the compensating revoke. */
  function RefreshSteps(cfg: Config, s: Store, rotation: Event, signs: bool, revokes: bool): System
    requires rotation.RotateToken?
  {
    var prepared := DoFinishRefresh(cfg, DoRotateToken(cfg, Around(s, {}), rotation), FinishRefresh(rotation.op, signs));
    if revokes then DoCompensate(prepared, Compensate(rotation.op)) else prepared
  }

  /** The store can rotate the token: it holds an unconsumed, unexpired row for it, of the family its text names and of
      this binding, in an unrevoked family, and the successor is new. */
  predicate CanRotate(cfg: Config, s: Store, raw: string, family: string, successor: string, now: int) {
    var h := Sha256(raw);
    && !s.closed && h in s.tokens && s.tokens[h].consumedAt.None? && Sha256(successor) !in s.tokens
    && var t := s.tokens[h].token;
    && t.familyId == family && now < t.expiresAt && ValidSubject(t.subject)
    && InBinding(cfg, t.generation, t.resource) && CanBind(cfg, t.generation)
    && family in s.families && s.families[family] == Family(None, t.generation, t.resource)
  }

  /** The row is this client's, and a response can be made for it. */
  predicate MayHave(cfg: Config, t: Token, clientId: string) {
    clientId != "" && t.clientId == clientId && Unreserved(t.subject) && ScopesStand(cfg, t.scopes)
  }

  /** The response goes out: the token can be rotated, is this client's, and nothing fails on the way. */
  predicate Refreshable(cfg: Config, s: Store, raw: string, family: string, successor: string, clientId: string, now: int) {
    && ClockFits(cfg, now) && CanRotate(cfg, s, raw, family, successor, now)
    && MayHave(cfg, s.tokens[Sha256(raw)].token, clientId)
  }

  function RotationOf(cfg: Config, s: Store, raw: string, family: string, successor: string, clientId: string, now: int): Outcome {
    DoRotate(s, Sha256(raw), NextWrite(cfg, RotateToken(0, raw, clientId, "", now, NoFault), family, successor), now,
             ExpectedGeneration(cfg), Some(cfg.resource))
  }

  lemma RotationFollows(cfg: Config, s: Store, raw: string, family: string, successor: string, clientId: string, now: int)
    requires ClockFits(cfg, now)
    ensures var answer := RotationOf(cfg, s, raw, family, successor, clientId, now).answer;
      && (answer.TokenRow? && answer.token.Some? <==> CanRotate(cfg, s, raw, family, successor, now))
      && (answer.TokenRow? && answer.token.Some? ==> answer.token.value == s.tokens[Sha256(raw)].token)
  {
    var next := NextWrite(cfg, RotateToken(0, raw, clientId, "", now, NoFault), family, successor);
    RotatesExactly(s, Sha256(raw), next, now, ExpectedGeneration(cfg), Some(cfg.resource));
    var answer := DoRotate(s, Sha256(raw), next, now, ExpectedGeneration(cfg), Some(cfg.resource)).answer;
    if answer.TokenRow? && answer.token.Some? {
      SuccessorByFields(s, Sha256(raw), next, now, ExpectedGeneration(cfg), Some(cfg.resource));
    }
    hide DoRotate;
    ResourcesAreNotBlank(cfg.resource);
  }

  /** What the checks after a rotation demand of the row, whatever store answered with it: this binding, this client, an
      unreserved subject and scopes that stand. */
  lemma ChecksFollow(cfg: Config, t: Token, successor: string, clientId: string, family: string, at: int)
    ensures RefreshChecks(cfg, Refreshing(t, successor, clientId, family, at)) <==>
      InBinding(cfg, t.generation, t.resource) && MayHave(cfg, t, clientId)
  {
    ReservedExactly(t.subject);
    ScopesStandExactly(cfg, t.scopes);
  }

  lemma SuccessorText(family: string, random: string)
    ensures GenerateRefreshToken(family, random) == "rt." + family + "." + random
  {
    assert "rt" + "." + family == "rt." + family;
  }

  /** What the two parts of a refresh do to a store without other requests. */
  lemma RefreshInTwoParts(cfg: Config, s: Store, raw: string, clientId: string, random: string, now: int, fault: Fault, signs: bool, revokes: bool)
    ensures var end := RefreshSteps(cfg, s, RotationEvent(raw, clientId, random, now, fault), signs, revokes);
      var family := ParseRefreshFamilyId(raw);
      if !UsableClock(cfg, now) || family.None? then end.store == s && end.returned == {}
      else
        var successor := GenerateRefreshToken(family.value, random);
        var out := RotationOf(cfg, s, raw, family.value, successor, clientId, now);
        var reached := if fault.ThrowsBefore? then s else out.store;
        var rotated := fault.NoFault? && out.answer.TokenRow? && out.answer.token.Some?;
        var delivered := rotated && signs && RefreshChecks(cfg, Refreshing(out.answer.token.value, successor, clientId, family.value, now));
        var missed := fault.NoFault? && out.answer == TokenRow(None);
        && end.returned == (if delivered then {successor} else {})
        && end.store == if delivered || missed || !revokes then reached else DoRevoke(reached, family.value, now, None).store
  {
    hide DoRotate, DoRevoke, GenerateRefreshToken, ParseRefreshFamilyId, UsableClock, RefreshChecks, EmptyStore, ExpectedGeneration;
  }

  /** A refresh answers with its one new token exactly if the presented text is a token of some family, the store holds
      a live row for it under this binding, that row names this client, and nothing fails. */
  lemma RefreshDeliversExactly(cfg: Config, s: Store, raw: string, clientId: string, random: string, now: int, fault: Fault, signs: bool,
                               revokes: bool, family: string)
    requires IsTokenOf(raw, family)
    ensures var end := RefreshSteps(cfg, s, RotationEvent(raw, clientId, random, now, fault), signs, revokes);
      var successor := "rt." + family + "." + random;
      end.returned == if Refreshable(cfg, s, raw, family, successor, clientId, now) && fault.NoFault? && signs then {successor} else {}
  {
    hide RefreshSteps, RotationOf, ParseRefreshFamilyId, GenerateRefreshToken, RefreshChecks, UsableClock, ClockFits, MayHave, IsTokenOf;
    RefreshInTwoParts(cfg, s, raw, clientId, random, now, fault, signs, revokes);
    ParsesExactly(raw, family);
    SuccessorText(family, random);
    UsableClockFits(cfg, now);
    var successor := GenerateRefreshToken(family, random);
    if ClockFits(cfg, now) {
      RotationFollows(cfg, s, raw, family, successor, clientId, now);
      if CanRotate(cfg, s, raw, family, successor, now) {
        ChecksFollow(cfg, s.tokens[Sha256(raw)].token, successor, clientId, family, now);
      }
    }
  }

  /** Without a usable clock or a text that is a token of some family nothing is answered and nothing changed. */
  lemma MalformedRefreshIsRefused(cfg: Config, s: Store, raw: string, clientId: string, random: string, now: int, fault: Fault, signs: bool,
                                  revokes: bool)
    requires !ClockFits(cfg, now) || forall family :: !IsTokenOf(raw, family)
    ensures var end := RefreshSteps(cfg, s, RotationEvent(raw, clientId, random, now, fault), signs, revokes);
      end.store == s && end.returned == {}
  {
    hide RefreshSteps, RotationOf, ParseRefreshFamilyId, GenerateRefreshToken, RefreshChecks, UsableClock, ClockFits, IsTokenOf;
    RefreshInTwoParts(cfg, s, raw, clientId, random, now, fault, signs, revokes);
    UsableClockFits(cfg, now);
    if ParseRefreshFamilyId(raw).Some? { ParsesExactly(raw, ParseRefreshFamilyId(raw).value); }
  }

  /** What a refresh whose token could be rotated leaves. Where no response went out, whatever failed after or in the
      rotation, the family is revoked as long as the revoke reaches the store. */
  lemma RotatedRefreshLeaves(cfg: Config, s: Store, raw: string, clientId: string, random: string, now: int, fault: Fault, signs: bool,
                             revokes: bool, family: string)
    requires IsTokenOf(raw, family) && ClockFits(cfg, now) && CanRotate(cfg, s, raw, family, "rt." + family + "." + random, now)
    ensures var end := RefreshSteps(cfg, s, RotationEvent(raw, clientId, random, now, fault), signs, revokes);
      var h, k := Sha256(raw), Sha256("rt." + family + "." + random);
      && (if fault.ThrowsBefore? then end.store.tokens == s.tokens && end.store.order == s.order
          else Succeeded(s, end.store, h, k, now + cfg.refreshTtlMs, now))
      && end.store.families == (if end.returned == {} && revokes then
             s.families[family := Family(Some(now), s.tokens[h].token.generation, s.tokens[h].token.resource)]
           else s.families)
      && end.store.(tokens := s.tokens, order := s.order, families := s.families) == s
  {
    hide RefreshSteps, DoRotate, DoRevoke, CanBind, InBinding, ParseRefreshFamilyId, GenerateRefreshToken, RefreshChecks, UsableClock, MayHave, IsTokenOf;
    RefreshInTwoParts(cfg, s, raw, clientId, random, now, fault, signs, revokes);
    ParsesExactly(raw, family);
    SuccessorText(family, random);
    UsableClockFits(cfg, now);
    var successor := GenerateRefreshToken(family, random);
    RotationFollows(cfg, s, raw, family, successor, clientId, now);
    var next := NextWrite(cfg, RotateToken(0, raw, clientId, "", now, NoFault), family, successor);
    var out := RotationOf(cfg, s, raw, family, successor, clientId, now);
    SuccessorByFields(s, Sha256(raw), next, now, ExpectedGeneration(cfg), Some(cfg.resource));
    RevokesExactly(s, family, now, None);
    RevokesExactly(out.store, family, now, None);
  }

  /** What a refresh whose token could not be rotated leaves on a valid store: at most revocations, of the family the
      text names and of the family of the row behind it. */
  lemma RefusedRefreshLeaves(cfg: Config, s: Store, raw: string, clientId: string, random: string, now: int, fault: Fault, signs: bool,
                             revokes: bool, family: string)
    requires Valid(s) && IsTokenOf(raw, family) && ClockFits(cfg, now) && !CanRotate(cfg, s, raw, family, "rt." + family + "." + random, now)
    ensures var end := RefreshSteps(cfg, s, RotationEvent(raw, clientId, random, now, fault), signs, revokes);
      && end.returned == {} && end.store.families.Keys == s.families.Keys && end.store.(families := s.families) == s
      && forall f :: f in s.families && f != family && (Sha256(raw) in s.tokens ==> f != s.tokens[Sha256(raw)].token.familyId) ==>
           end.store.families[f] == s.families[f]
  {
    hide RefreshSteps, DoRotate, DoRevoke, Valid, ParseRefreshFamilyId, GenerateRefreshToken, RefreshChecks, UsableClock, CanRotate, IsTokenOf;
    RefreshInTwoParts(cfg, s, raw, clientId, random, now, fault, signs, revokes);
    ParsesExactly(raw, family);
    SuccessorText(family, random);
    UsableClockFits(cfg, now);
    var successor := GenerateRefreshToken(family, random);
    RotationFollows(cfg, s, raw, family, successor, clientId, now);
    var next := NextWrite(cfg, RotateToken(0, raw, clientId, "", now, NoFault), family, successor);
    var out := RotationOf(cfg, s, raw, family, successor, clientId, now);
    ReplaysExactly(s, Sha256(raw), next, now, ExpectedGeneration(cfg), Some(cfg.resource));
    RevokesExactly(s, family, now, None);
    RevokesExactly(out.store, family, now, None);
  }

  /** A consumed token is presented to its own binding. */
  predicate Replayed(cfg: Config, s: Store, raw: string) {
    var h := Sha256(raw);
    h in s.tokens && s.tokens[h].consumedAt.Some? && InBinding(cfg, s.tokens[h].token.generation, s.tokens[h].token.resource)
  }

  /** On a valid and open store: a replay that reaches it leaves the family revoked, and any other token that cannot be
      rotated changes nothing unless a call fails. */
  lemma ReplayedRefreshLeaves(cfg: Config, s: Store, raw: string, clientId: string, random: string, now: int, fault: Fault, signs: bool,
                              revokes: bool, family: string)
    requires Valid(s) && !s.closed && CanBind(cfg, None)
    requires IsTokenOf(raw, family) && ClockFits(cfg, now) && !CanRotate(cfg, s, raw, family, "rt." + family + "." + random, now)
    ensures var end := RefreshSteps(cfg, s, RotationEvent(raw, clientId, random, now, fault), signs, revokes);
      && (Replayed(cfg, s, raw) && !fault.ThrowsBefore? ==>
            var f := s.tokens[Sha256(raw)].token.familyId; f in end.store.families && end.store.families[f].revokedAt.Some?)
      && (!Replayed(cfg, s, raw) && fault.NoFault? ==> end.store == s)
  {
    hide RefreshSteps, DoRotate, DoRevoke, Valid, ParseRefreshFamilyId, GenerateRefreshToken, RefreshChecks, UsableClock, CanRotate, IsTokenOf;
    RefreshInTwoParts(cfg, s, raw, clientId, random, now, fault, signs, revokes);
    ParsesExactly(raw, family);
    UsableClockFits(cfg, now);
    var successor := GenerateRefreshToken(family, random);
    SuccessorText(family, random);
    RotationFollows(cfg, s, raw, family, successor, clientId, now);
    var next := NextWrite(cfg, RotateToken(0, raw, clientId, "", now, NoFault), family, successor);
    var out := RotationOf(cfg, s, raw, family, successor, clientId, now);
    BindsExactly(cfg, None);
    if Sha256(raw) in s.tokens { RowFacts(s, Sha256(raw)); }
    RotationCannotHalfFail(s, Sha256(raw), next, now, ExpectedGeneration(cfg), Some(cfg.resource));
    ReplaysExactly(s, Sha256(raw), next, now, ExpectedGeneration(cfg), Some(cfg.resource));
    RevokesExactly(out.store, family, now, None);
  }

  /** What a refresh answers and leaves. It answers with its one new token exactly if some family's token is presented that
      may be refreshed by this client, and nothing fails. A token that could be rotated is consumed in favour of its
      successor, unless the call failed before; and where no response went out its family is revoked, if the revoke
      reaches the store. Without a family's token or a usable clock nothing changes. */
  ghost predicate RefreshLaw(cfg: Config, before: Store, after: Store, delivered: Option<string>, raw: string, clientId: string, random: string,
                             now: int, fault: Fault, signs: bool, revokes: bool)
  {
    && (forall family :: IsTokenOf(raw, family) ==>
          && var successor := "rt." + family + "." + random;
          && delivered == (if Refreshable(cfg, before, raw, family, successor, clientId, now) && fault.NoFault? && signs
                           then Some(successor) else None)
          && (ClockFits(cfg, now) && CanRotate(cfg, before, raw, family, successor, now) ==>
                && (!fault.ThrowsBefore? ==> Succeeded(before, after, Sha256(raw), Sha256(successor), now + cfg.refreshTtlMs, now))
                && (delivered.None? && revokes ==> family in after.families && after.families[family].revokedAt == Some(now))))
    && (!ClockFits(cfg, now) || (forall family :: !IsTokenOf(raw, family)) ==> delivered.None? && after == before)
  }

  /** The set of the one value, if there is one. */
  function Only(value: Option<string>): set<string> {
    if value.Some? then {value.value} else {}
  }

  lemma OnlyOne(a: Option<string>, b: Option<string>)
    requires Only(a) == Only(b)
    ensures a == b
  {
    if a.Some? { assert a.value in Only(b); }
  }

  lemma RefreshIsLawful(cfg: Config, s: Store, raw: string, clientId: string, random: string, now: int, fault: Fault, signs: bool, revokes: bool)
    ensures var end := RefreshSteps(cfg, s, RotationEvent(raw, clientId, random, now, fault), signs, revokes);
      forall delivered :: end.returned == Only(delivered) ==>
        RefreshLaw(cfg, s, end.store, delivered, raw, clientId, random, now, fault, signs, revokes)
  {
    hide RefreshSteps, IsTokenOf, ClockFits, MayHave, Succeeded, Only;
    var end := RefreshSteps(cfg, s, RotationEvent(raw, clientId, random, now, fault), signs, revokes);
    forall delivered | end.returned == Only(delivered)
      ensures RefreshLaw(cfg, s, end.store, delivered, raw, clientId, random, now, fault, signs, revokes) {
      NoOne();
      if !ClockFits(cfg, now) || forall family :: !IsTokenOf(raw, family) {
        MalformedRefreshIsRefused(cfg, s, raw, clientId, random, now, fault, signs, revokes);
        OnlyOne(delivered, None);
      }
      forall family | IsTokenOf(raw, family)
        ensures var successor := "rt." + family + "." + random;
          && delivered == (if Refreshable(cfg, s, raw, family, successor, clientId, now) && fault.NoFault? && signs then Some(successor) else None)
          && (ClockFits(cfg, now) && CanRotate(cfg, s, raw, family, successor, now) ==>
                && (!fault.ThrowsBefore? ==> Succeeded(s, end.store, Sha256(raw), Sha256(successor), now + cfg.refreshTtlMs, now))
                && (delivered.None? && revokes ==> family in end.store.families && end.store.families[family].revokedAt == Some(now)))
      {
        RefreshOfFamily(cfg, s, raw, clientId, random, now, fault, signs, revokes, family, delivered);
      }
    }
  }

  lemma NoOne()
    ensures Only(None) == {} && forall x :: Only(Some(x)) == {x}
  {
  }

  lemma RefreshOfFamily(cfg: Config, s: Store, raw: string, clientId: string, random: string, now: int, fault: Fault, signs: bool, revokes: bool,
                        family: string, delivered: Option<string>)
    requires IsTokenOf(raw, family)
    requires RefreshSteps(cfg, s, RotationEvent(raw, clientId, random, now, fault), signs, revokes).returned == Only(delivered)
    ensures var end := RefreshSteps(cfg, s, RotationEvent(raw, clientId, random, now, fault), signs, revokes);
      var successor := "rt." + family + "." + random;
      && delivered == (if Refreshable(cfg, s, raw, family, successor, clientId, now) && fault.NoFault? && signs then Some(successor) else None)
      && (ClockFits(cfg, now) && CanRotate(cfg, s, raw, family, successor, now) ==>
            && (!fault.ThrowsBefore? ==> Succeeded(s, end.store, Sha256(raw), Sha256(successor), now + cfg.refreshTtlMs, now))
            && (delivered.None? && revokes ==> family in end.store.families && end.store.families[family].revokedAt == Some(now)))
  {
    hide RefreshSteps, IsTokenOf, ClockFits, CanRotate, MayHave, Succeeded, Only;
    var successor := "rt." + family + "." + random;
    NoOne();
    RefreshDeliversExactly(cfg, s, raw, clientId, random, now, fault, signs, revokes, family);
    OnlyOne(delivered, if Refreshable(cfg, s, raw, family, successor, clientId, now) && fault.NoFault? && signs then Some(successor) else None);
    if ClockFits(cfg, now) && CanRotate(cfg, s, raw, family, successor, now) {
      RotatedRefreshLeaves(cfg, s, raw, clientId, random, now, fault, signs, revokes, family);
    }
  }

  // ----------------------------------------------------------------------- exchange

  /** Redemption, and then the save unless preparing the response failed. */
  function ExchangeSteps(cfg: Config, s: Store, redeem: Event, family: string, random: string, fault: Fault, signs: bool): System
    requires redeem.Redeem?
  {
    var redeemed := DoRedeem(cfg, Around(s, {}), redeem);
    if signs then DoIssueTokens(cfg, redeemed, IssueTokens(redeem.op, family, random, fault))
    else DoAbandon(redeemed, Abandon(redeem.op))
  }

  /** The store holds an unexpired code for the text, issued to this client and redirect for this binding. */
  predicate Presents(cfg: Config, s: Store, code: string, clientId: string, redirectUri: string, now: int) {
    && code != "" && !s.closed && CanonicalTime(now) && Sha256(code) in s.codes
    && var c := s.codes[Sha256(code)];
    && now < c.expiresAt && c.clientId == clientId && c.redirectUri == redirectUri && InBinding(cfg, c.generation, c.resource)
    && ValidSubject(c.subject)
  }

  /** And a response can be made for its owner. */
  predicate Redeemable(cfg: Config, s: Store, code: string, clientId: string, redirectUri: string, now: int) {
    && Presents(cfg, s, code, clientId, redirectUri, now)
    && Unreserved(s.codes[Sha256(code)].subject) && ScopesStand(cfg, s.codes[Sha256(code)].scopes)
  }

  /** The store accepts the root: a new hash, in a new family or one of the same binding. */
  predicate CanSave(cfg: Config, s: Store, c: AuthCode, family: string, raw: string) {
    && CanBind(cfg, c.generation) && Sha256(raw) !in s.tokens
    && (family in s.families ==> s.families[family].generation == c.generation && s.families[family].resource == c.resource)
  }

  /** The code leaves the store: it was found, is for this resource, and its owner can be read. */
  predicate UsedUp(cfg: Config, s: Store, code: string, now: int) {
    && ClockFits(cfg, now) && code != "" && !s.closed && Sha256(code) in s.codes
    && s.codes[Sha256(code)].resource == cfg.resource && ValidSubject(s.codes[Sha256(code)].subject)
  }

  /** The root's row: unconsumed, without predecessor, for the full lifetime, with the code's client, subject, scopes and
      binding. */
  predicate Rooted(cfg: Config, s: Store, after: Store, c: AuthCode, family: string, k: Digest, now: int) {
    && k in after.tokens && after.tokens == s.tokens[k := after.tokens[k]] && after.order == s.order + [k]
    && after.tokens[k].consumedAt.None?
    && var t := after.tokens[k].token;
    && t.tokenHash == k && t.familyId == family && t.previous.None? && t.expiresAt == now + cfg.refreshTtlMs
    && t.clientId == c.clientId && t.subject == c.subject && t.scopes == c.scopes
    && t.resource == c.resource && t.generation == c.generation
    && family in after.families && after.families == s.families[family := after.families[family]]
    && after.families[family] == Family(if family in s.families then s.families[family].revokedAt else None, c.generation, c.resource)
  }

  function ConsumedBy(cfg: Config, s: Store, code: string, now: int): Outcome {
    DoConsumeCode(s, Sha256(code), now, ExpectedGeneration(cfg), Some(cfg.resource))
  }

  function RootOf(cfg: Config, c: AuthCode, now: int, raw: string, family: string): TokenWrite {
    RootWrite(cfg, Redeeming(c, now), raw, family)
  }

  /** What the two parts of an exchange do to a store without other requests. */
  lemma ExchangeInTwoParts(cfg: Config, s: Store, redeem: Event, family: string, random: string, fault: Fault, signs: bool)
    requires redeem.Redeem?
    ensures var end := ExchangeSteps(cfg, s, redeem, family, random, fault, signs);
      if !UsableClock(cfg, redeem.now) || redeem.code == "" then end.store == s && end.returned == {}
      else
        var out := ConsumedBy(cfg, s, redeem.code, redeem.now);
        var raw := GenerateRefreshToken(family, random);
        var passed := out.answer.CodeRow? && out.answer.code.Some? && RedeemChecks(cfg, redeem, out.answer.code.value);
        if !passed || !signs || fault.ThrowsBefore? then end.store == out.store && end.returned == {}
        else
          var saved := DoSaveToken(out.store, RootOf(cfg, out.answer.code.value, redeem.now, raw, family));
          && end.store == (if saved.answer.Thrown? then out.store else saved.store)
          && end.returned == if saved.answer.Thrown? || fault.ThrowsAfter? then {} else {raw}
  {
    hide DoConsumeCode, DoSaveToken, GenerateRefreshToken, UsableClock, RedeemChecks, EmptyStore, RootWrite;
  }

  /** What the checks after a consumption demand of the code, whatever store answered with it. */
  lemma CodeChecksFollow(cfg: Config, redeem: Event, c: AuthCode)
    requires redeem.Redeem?
    ensures RedeemChecks(cfg, redeem, c) <==>
      && InBinding(cfg, c.generation, c.resource) && redeem.clientId == c.clientId && redeem.redirectUri == c.redirectUri
      && redeem.verifierMatches && Unreserved(c.subject) && ScopesStand(cfg, c.scopes)
  {
    ReservedExactly(c.subject);
    ScopesStandExactly(cfg, c.scopes);
  }

  lemma RedeemFollows(cfg: Config, s: Store, redeem: Event)
    requires redeem.Redeem? && ClockFits(cfg, redeem.now) && redeem.code != ""
    ensures var out, h := ConsumedBy(cfg, s, redeem.code, redeem.now), Sha256(redeem.code);
      && (out.answer.CodeRow? && out.answer.code.Some? && RedeemChecks(cfg, redeem, out.answer.code.value) <==>
            Redeemable(cfg, s, redeem.code, redeem.clientId, redeem.redirectUri, redeem.now) && redeem.verifierMatches)
      && (out.answer.CodeRow? && out.answer.code.Some? ==> h in s.codes && out.answer.code.value == s.codes[h])
      && out.store == (if UsedUp(cfg, s, redeem.code, redeem.now) then s.(codes := s.codes - {h}) else s)
  {
    var h := Sha256(redeem.code);
    if h in s.codes {
      var c := s.codes[h];
      CodeIsHandedOutExactly(s, h, redeem.now, ExpectedGeneration(cfg), Some(cfg.resource), c);
      ReservedExactly(c.subject);
      ScopesStandExactly(cfg, c.scopes);
    }
    hide ScopesStand, ScopeClaim.StoredScopes, ReservedSubject, Unreserved;
  }

  lemma RootFollows(cfg: Config, s: Store, c: AuthCode, family: string, raw: string, now: int)
    requires ClockFits(cfg, now) && !s.closed && c.resource == cfg.resource && ValidSubject(c.subject)
    ensures var out := DoSaveToken(s, RootOf(cfg, c, now, raw, family));
      && (!out.answer.Thrown? <==> CanSave(cfg, s, c, family, raw))
      && (!out.answer.Thrown? ==> Rooted(cfg, s, out.store, c, family, Sha256(raw), now))
      && out.store.(tokens := s.tokens, order := s.order, families := s.families) == s
  {
    var w := RootOf(cfg, c, now, raw, family);
    SaveIsAcceptedExactly(s, w);
    SavedRowByFields(s, w);
    SaveAnswers(s, w);
    ResourcesAreNotBlank(cfg.resource);
    hide DoSaveToken;
  }

  lemma SaveAnswers(s: Store, w: TokenWrite)
    ensures DoSaveToken(s, w).answer == Done || DoSaveToken(s, w).answer.Thrown?
  {
  }

  /** An exchange answers with a refresh token exactly if the store holds such a code for this client and redirect, the
      verifier and the redirect's form pass, the response can be signed, and the save is accepted and does not throw. */
  lemma ExchangeDeliversExactly(cfg: Config, s: Store, redeem: Event, family: string, random: string, fault: Fault, signs: bool)
    requires redeem.Redeem?
    ensures var end, raw := ExchangeSteps(cfg, s, redeem, family, random, fault, signs), "rt." + family + "." + random;
      end.returned ==
        if ClockFits(cfg, redeem.now) && Redeemable(cfg, s, redeem.code, redeem.clientId, redeem.redirectUri, redeem.now)
           && redeem.verifierMatches && CanSave(cfg, s, s.codes[Sha256(redeem.code)], family, raw)
           && signs && !fault.ThrowsBefore? && !fault.ThrowsAfter?
        then {raw} else {}
  {
    hide ExchangeSteps, ConsumedBy, RootOf, DoSaveToken, GenerateRefreshToken, UsableClock, RedeemChecks, ClockFits, ScopesStand, CanBind;
    ExchangeInTwoParts(cfg, s, redeem, family, random, fault, signs);
    SuccessorText(family, random);
    UsableClockFits(cfg, redeem.now);
    if ClockFits(cfg, redeem.now) && redeem.code != "" {
      RedeemFollows(cfg, s, redeem);
      if Redeemable(cfg, s, redeem.code, redeem.clientId, redeem.redirectUri, redeem.now) {
        RootFollows(cfg, ConsumedBy(cfg, s, redeem.code, redeem.now).store, s.codes[Sha256(redeem.code)], family,
                    GenerateRefreshToken(family, random), redeem.now);
      }
    }
  }

  /** What an exchange leaves: the code is gone if it was found, whoever presented it; a root is there exactly if the
      save was reached and accepted, delivered or not. */
  lemma ExchangeLeaves(cfg: Config, s: Store, redeem: Event, family: string, random: string, fault: Fault, signs: bool)
    requires redeem.Redeem?
    ensures var end, raw := ExchangeSteps(cfg, s, redeem, family, random, fault, signs), "rt." + family + "." + random;
      && end.store.codes == (if UsedUp(cfg, s, redeem.code, redeem.now) then s.codes - {Sha256(redeem.code)} else s.codes)
      && (if ClockFits(cfg, redeem.now) && Redeemable(cfg, s, redeem.code, redeem.clientId, redeem.redirectUri, redeem.now)
             && redeem.verifierMatches && CanSave(cfg, s, s.codes[Sha256(redeem.code)], family, raw) && signs && !fault.ThrowsBefore?
          then Rooted(cfg, s, end.store, s.codes[Sha256(redeem.code)], family, Sha256(raw), redeem.now)
          else end.store.tokens == s.tokens && end.store.order == s.order && end.store.families == s.families)
      && end.store.(codes := s.codes, tokens := s.tokens, order := s.order, families := s.families) == s
  {
    hide ExchangeSteps, ConsumedBy, RootOf, GenerateRefreshToken, UsableClock, RedeemChecks, ClockFits, ScopesStand, CanBind, StoredRow,
      ValidTokenWrite, ValidSubject;
    ExchangeInTwoParts(cfg, s, redeem, family, random, fault, signs);
    SuccessorText(family, random);
    UsableClockFits(cfg, redeem.now);
    if ClockFits(cfg, redeem.now) && redeem.code != "" {
      RedeemFollows(cfg, s, redeem);
      if Redeemable(cfg, s, redeem.code, redeem.clientId, redeem.redirectUri, redeem.now) {
        RootFollows(cfg, ConsumedBy(cfg, s, redeem.code, redeem.now).store, s.codes[Sha256(redeem.code)], family,
                    GenerateRefreshToken(family, random), redeem.now);
      }
    }
  }

  /** What an exchange answers and leaves. */
  predicate ExchangeLaw(cfg: Config, before: Store, after: Store, delivered: Option<string>, code: string, clientId: string, redirectUri: string,
                        proven: bool, now: int, family: string, random: string, fault: Fault, signs: bool)
  {
    var raw := "rt." + family + "." + random;
    var saved := ClockFits(cfg, now) && Redeemable(cfg, before, code, clientId, redirectUri, now) && proven
      && CanSave(cfg, before, before.codes[Sha256(code)], family, raw) && signs && !fault.ThrowsBefore?;
    && delivered == (if saved && !fault.ThrowsAfter? then Some(raw) else None)
    && after.codes == (if UsedUp(cfg, before, code, now) then before.codes - {Sha256(code)} else before.codes)
    && (if saved then Rooted(cfg, before, after, before.codes[Sha256(code)], family, Sha256(raw), now)
        else after.tokens == before.tokens && after.order == before.order && after.families == before.families)
    && after.(codes := before.codes, tokens := before.tokens, order := before.order, families := before.families) == before
  }

  lemma ExchangeIsLawful(cfg: Config, s: Store, redeem: Event, family: string, random: string, fault: Fault, signs: bool)
    requires redeem.Redeem?
    ensures var end := ExchangeSteps(cfg, s, redeem, family, random, fault, signs);
      forall delivered :: end.returned == Only(delivered) ==>
        ExchangeLaw(cfg, s, end.store, delivered, redeem.code, redeem.clientId, redeem.redirectUri, redeem.verifierMatches, redeem.now,
                    family, random, fault, signs)
  {
    hide ExchangeSteps, ClockFits, Redeemable, CanSave, Rooted, UsedUp, Only;
    var end, raw := ExchangeSteps(cfg, s, redeem, family, random, fault, signs), "rt." + family + "." + random;
    ExchangeDeliversExactly(cfg, s, redeem, family, random, fault, signs);
    ExchangeLeaves(cfg, s, redeem, family, random, fault, signs);
    NoOne();
    forall delivered | end.returned == Only(delivered)
      ensures delivered == if end.returned == {} then None else Some(raw) {
      OnlyOne(delivered, if end.returned == {} then None else Some(raw));
    }
  }

  // --------------------------------------------------------------------- revocation

  /** Lookup and revocation, back to back. */
  function RevokeSteps(cfg: Config, s: Store, raw: string, now: int): System {
    DoRevokeCommit(cfg, DoRevokeLookup(cfg, Around(s, {}), RevokeLookup(0, raw, now)), RevokeCommit(0))
  }

  /** The store holds a row of the family for the presented text, consumed or not, and for this resource. */
  predicate Recognized(cfg: Config, s: Store, raw: string, family: string, now: int) {
    && CanonicalTime(now) && raw != "" && !s.closed && Trim(cfg.resource) != ""
    && Sha256(raw) in s.tokens && s.tokens[Sha256(raw)].token.familyId == family
    && s.tokens[Sha256(raw)].token.resource == cfg.resource && ValidSubject(s.tokens[Sha256(raw)].token.subject)
  }

  /** A revocation marks the family of a recognized token, the first time, and changes nothing else. */
  predicate RevokeLaw(cfg: Config, before: Store, after: Store, raw: string, now: int) {
    && after.families.Keys == before.families.Keys && after.(families := before.families) == before
    && forall f :: f in before.families ==>
         after.families[f].generation == before.families[f].generation && after.families[f].resource == before.families[f].resource
         && after.families[f].revokedAt ==
              if Recognized(cfg, before, raw, f, now) && before.families[f].resource == cfg.resource && before.families[f].revokedAt.None?
              then Some(now) else before.families[f].revokedAt
  }

  lemma RevokeIsLawful(cfg: Config, s: Store, raw: string, now: int)
    ensures RevokeLaw(cfg, s, RevokeSteps(cfg, s, raw, now).store, raw, now)
  {
    hide DoRevoke, DoFindToken, ValidSubject, CanonicalTime;
    ResourcesAreNotBlank(cfg.resource);
    if Sha256(raw) in s.tokens {
      var t := s.tokens[Sha256(raw)].token;
      LooksUpExactly(s, Sha256(raw), t);
      RevokesExactly(s, t.familyId, now, Some(cfg.resource));
    }
    LookupAnswers(s, Sha256(raw));
  }

  lemma LookupAnswers(s: Store, h: Digest)
    ensures var answer := DoFindToken(s, h).answer;
      answer.TokenRow? && answer.token.Some? ==> h in s.tokens && answer.token.value == s.tokens[h].token
  {
  }

  // ----------------------------------------------------------------------- approval

  /** The checks of an approval that foreign code answers: the origin, the metadata-document gate, the form of the
      redirect, and the client's current redirect policy. */
  datatype ApproveGates = ApproveGates(originAllowed: bool, cimdGate: bool, redirectEntry: bool, redirectCurrent: bool)

  predicate Open(gates: ApproveGates) {
    gates.originAllowed && gates.cimdGate && gates.redirectEntry && gates.redirectCurrent
  }

  /** The token is genuine, unexpired, and signed for this resource and store instance. */
  predicate Presentable(cfg: Config, s: Store, consent: Consent, verified: bool, now: int) {
    && verified && CanonicalTime(now) && now < consent.expiresAt
    && consent.resource == cfg.resource && consent.instanceId == s.instanceId
  }

  /** Check, prior-grant read and commit, back to back. */
  function ApproveSteps(cfg: Config, s: Store, consent: Consent, verified: bool, now: int, commitNow: int, code: string): System {
    var checked := DoApproveCheck(cfg, Around(s, if verified then {consent} else {}), ApproveCheck(0, consent, now));
    DoApproveCommit(cfg, DoApproveRead(cfg, checked, ApproveRead(0)), ApproveCommit(0, commitNow, code))
  }

  /** A consent is signed exactly for a named, unreserved subject while the store is open, for scopes of the catalog, and with
      a ceiling only if something is left inside it. It names the request and the store instance, and its scopes are the
      requested ones inside the ceiling, in their order. */
  lemma PreparesExactly(cfg: Config, sys: System, e: Event, c: Consent)
    requires e.Prepare?
    ensures c in DoPrepare(cfg, sys, e).signed <==> (c in sys.signed || (
      && !sys.store.closed && e.subject != "" && Unreserved(e.subject) && (forall x :: x in e.requested ==> x in cfg.catalog)
      && (e.ceiling.Some? ==> |e.ceiling.value| <= 128 && forall x :: x in e.ceiling.value ==> ScopeClaim.IsBoundedScopeToken(x))
      && (e.ceiling.Some? ==> exists x :: x in e.requested && x in e.ceiling.value)
      && c == Consent(e.jti, e.expiresAt, e.clientId, e.subject, e.redirectUri, cfg.resource, c.scopes, e.ceiling, e.codeChallenge,
                      sys.store.instanceId)
      && c.scopes == Inside(e.requested, e.ceiling)))
    ensures var scopes := Inside(e.requested, e.ceiling);
      && IsSubsequence(scopes, e.requested)
      && forall x :: x in scopes <==> x in e.requested && (e.ceiling.Some? ==> x in e.ceiling.value)
  {
    hide ScopeClaim.IsBoundedScopeToken, Filter;
    ReservedExactly(e.subject);
    CeilingExactly(e.ceiling);
    SelfSubsequence(e.requested);
    if e.ceiling.Some? {
      FilterExactly(e.requested, e.ceiling.value);
      FilterKeepsOrder(e.requested, e.ceiling.value);
      if Filter(e.requested, e.ceiling.value) != [] { assert Filter(e.requested, e.ceiling.value)[0] in e.requested; }
    }
  }

  function Inside(requested: seq<string>, ceiling: Option<seq<string>>): seq<string> {
    if ceiling.Some? then Filter(requested, ceiling.value) else requested
  }

  lemma {:induction false} SelfSubsequence(xs: seq<string>)
    ensures IsSubsequence(xs, xs)
  {
    if xs != [] { SelfSubsequence(xs[1..]); }
  }

  lemma {:induction false} FilterKeepsOrder(xs: seq<string>, allowed: seq<string>)
    ensures IsSubsequence(Filter(xs, allowed), xs)
  {
    if xs != [] {
      FilterKeepsOrder(xs[1..], allowed);
      if xs[0] in allowed {
        assert Filter(xs, allowed)[1..] == Filter(xs[1..], allowed);
      } else {
        assert Filter(xs, allowed) == Filter(xs[1..], allowed);
      }
    }
  }

  /** A letter, then letters, digits, "+", "." or "-", then "://". */
  ghost predicate HasScheme(id: string) {
    exists k :: HasSchemeOf(id, k)
  }

  predicate HasSchemeOf(id: string, k: int) {
    && 1 <= k && k + 3 <= |id| && id[k] == ':' && id[k + 1] == '/' && id[k + 2] == '/'
    && ('a' <= id[0] <= 'z' || 'A' <= id[0] <= 'Z') && forall i :: 0 <= i < k ==> IsSchemeChar(id[i])
  }

  predicate IsSchemeChar(c: char) {
    'a' <= c <= 'z' || 'A' <= c <= 'Z' || '0' <= c <= '9' || c == '+' || c == '.' || c == '-'
  }

  predicate IsTailOf(s: string, k: int) {
    0 <= k && k + 3 <= |s| && s[k] == ':' && s[k + 1] == '/' && s[k + 2] == '/' && forall i :: 0 <= i < k ==> IsSchemeChar(s[i])
  }

  lemma {:induction false} SchemeTailExactly(s: string)
    ensures IsSchemeTail(s) <==> exists k :: IsTailOf(s, k)
  {
    assert IsTailOf(s, 0) <==> "://" <= s by { if |s| >= 3 { assert s == [s[0], s[1], s[2]] + s[3..]; } }
    if !("://" <= s) && s != "" {
      SchemeTailExactly(s[1..]);
      if k :| IsTailOf(s, k) { assert IsTailOf(s[1..], k - 1); }
      if k :| IsSchemeChar(s[0]) && IsTailOf(s[1..], k) {
        forall i | 0 <= i < k + 1 ensures IsSchemeChar(s[i]) { if i > 0 { assert s[i] == s[1..][i - 1]; } }
        assert IsTailOf(s, k + 1);
      }
    }
  }

  lemma SchemeExactly(id: string)
    ensures IsSchemeShaped(id) <==> HasScheme(id)
  {
    if id != "" {
      SchemeTailExactly(id[1..]);
      if k :| HasSchemeOf(id, k) { assert IsTailOf(id[1..], k - 1); }
      if k :| IsLetter(id[0]) && IsTailOf(id[1..], k) {
        forall i | 0 <= i < k + 1 ensures IsSchemeChar(id[i]) { if i > 0 { assert id[i] == id[1..][i - 1]; } }
        assert HasSchemeOf(id, k + 1);
      }
    }
  }

  /** The subject's live grants to this client, if grants of such clients accumulate: stored registration, and a client
      id without a scheme. */
  ghost predicate GrantedBefore(cfg: Config, s: Store, c: Consent, now: int, x: string) {
    && cfg.storedDcr && !HasScheme(c.clientId)
    && exists h :: Holds(s, h, GrantQuery(c.subject, c.clientId, now, Some(1), Some(cfg.resource)), x)
  }

  /** What an approval commits: the scopes of the consent and of the grants before, as far as the ceiling allows. */
  ghost predicate ToCommit(cfg: Config, s: Store, c: Consent, now: int, x: string) {
    (c.ceiling.Some? ==> x in c.ceiling.value) && (x in c.scopes || GrantedBefore(cfg, s, c, now, x))
  }

  ghost function AllGrantedBefore(cfg: Config, s: Store, c: Consent, now: int): set<string> {
    set h, x | h in s.tokens && x in s.tokens[h].token.scopes && GrantedBefore(cfg, s, c, now, x) :: x
  }

  /** Every list that goes into the approval is within its limits. */
  ghost predicate ListsStand(cfg: Config, s: Store, c: Consent, now: int) {
    && ScopesStand(cfg, c.scopes)
    && (c.ceiling.Some? ==> |c.ceiling.value| <= 128 && forall x :: x in c.ceiling.value ==> ScopeClaim.IsBoundedScopeToken(x))
    && (cfg.storedDcr && !HasScheme(c.clientId) ==>
          && !s.closed && ValidSubject(c.subject) && CanonicalTime(now)
          && |AllGrantedBefore(cfg, s, c, now)| <= 128
          && forall x :: GrantedBefore(cfg, s, c, now, x) ==> ScopeStands(cfg, x))
  }

  lemma {:induction false} SetOfDistinct(xs: seq<string>)
    requires NoDuplicates(xs)
    ensures |(set x | x in xs)| == |xs|
  {
    if xs != [] {
      var front, last := xs[..|xs| - 1], xs[|xs| - 1];
      SetOfDistinct(front);
      assert last !in front;
      assert (set x | x in xs) == (set x | x in front) + {last};
    }
  }

  /** The prior grants an approval reads are, each once, exactly the grants before. */
  lemma PriorExactly(cfg: Config, s: Store, c: Consent, now: int)
    requires Valid(s)
    ensures var prior := PriorScopes(cfg, s, c, now);
      && (prior.Some? <==> (cfg.storedDcr && !HasScheme(c.clientId) ==> !s.closed && ValidSubject(c.subject) && CanonicalTime(now)))
      && (prior.Some? ==> NoDuplicates(prior.value))
      && (prior.Some? ==> forall x :: x in prior.value <==> GrantedBefore(cfg, s, c, now, x))
  {
    hide DoFindGranted, Valid, ValidSubject, CanonicalTime, HasScheme, IsSchemeShaped;
    SchemeExactly(c.clientId);
    ReportsExactly(s, PriorQuery(cfg, c, now));
  }

  lemma PriorStandsExactly(cfg: Config, s: Store, c: Consent, now: int)
    requires Valid(s) && PriorScopes(cfg, s, c, now).Some?
    ensures ScopesStand(cfg, PriorScopes(cfg, s, c, now).value) <==>
      |AllGrantedBefore(cfg, s, c, now)| <= 128 && forall x :: GrantedBefore(cfg, s, c, now, x) ==> ScopeStands(cfg, x)
  {
    hide PriorScopes, ScopeStands, Valid, HasScheme, ValidSubject, CanonicalTime;
    PriorExactly(cfg, s, c, now);
    var prior := PriorScopes(cfg, s, c, now).value;
    SetOfDistinct(prior);
    assert AllGrantedBefore(cfg, s, c, now) == set x | x in prior by {
      forall x | GrantedBefore(cfg, s, c, now, x) ensures x in AllGrantedBefore(cfg, s, c, now) {
        var h :| Holds(s, h, GrantQuery(c.subject, c.clientId, now, Some(1), Some(cfg.resource)), x);
      }
    }
  }

  lemma {:induction false} FilterExactly(xs: seq<string>, allowed: seq<string>)
    ensures forall x :: x in Filter(xs, allowed) <==> x in xs && x in allowed
    ensures NoDuplicates(xs) ==> NoDuplicates(Filter(xs, allowed))
  {
    if xs != [] {
      FilterExactly(xs[1..], allowed);
      assert xs == [xs[0]] + xs[1..];
    }
  }

  /** The list an approval comes to. */
  function ListOf(cfg: Config, s: Store, c: Consent, now: int): Option<seq<string>> {
    var prior := PriorScopes(cfg, s, c, now);
    if prior.None? then None else ApprovedScopes(cfg, c, prior.value)
  }

  /** An approval comes to a list to commit exactly if every list stands, and the list holds, each once, exactly the
      scopes to commit. */
  lemma ApprovedListExactly(cfg: Config, s: Store, c: Consent, now: int)
    requires Valid(s)
    ensures var list := ListOf(cfg, s, c, now);
      && (list.Some? <==> ListsStand(cfg, s, c, now))
      && (list.Some? ==> NoDuplicates(list.value))
      && (list.Some? ==> forall x :: x in list.value <==> ToCommit(cfg, s, c, now, x))
  {
    hide PriorScopes, Valid, HasScheme, ValidSubject, CanonicalTime, ScopeClaim.IsBoundedScopeToken, ScopeStands, AllGrantedBefore, GrantedBefore,
      ScopeClaim.StoredScopes, Filter, AppendNew;
    var prior := PriorScopes(cfg, s, c, now);
    PriorExactly(cfg, s, c, now);
    ScopesStandExactly(cfg, c.scopes);
    CeilingExactly(c.ceiling);
    if prior.Some? {
      PriorStandsExactly(cfg, s, c, now);
      ScopesStandExactly(cfg, prior.value);
      var union := AppendNew([], c.scopes + prior.value);
      AppendNewMembers([], c.scopes + prior.value);
      if c.ceiling.Some? { FilterExactly(union, c.ceiling.value); }
      NothingGrantedWithoutAccumulation(cfg, s, c, now);
    }
  }

  lemma NothingGrantedWithoutAccumulation(cfg: Config, s: Store, c: Consent, now: int)
    ensures !(cfg.storedDcr && !HasScheme(c.clientId)) ==> AllGrantedBefore(cfg, s, c, now) == {} && forall x :: !GrantedBefore(cfg, s, c, now, x)
  {
  }

  lemma CeilingExactly(ceiling: Option<seq<string>>)
    ensures CeilingOk(ceiling) <==>
      (ceiling.Some? ==> |ceiling.value| <= 128 && forall x :: x in ceiling.value ==> ScopeClaim.IsBoundedScopeToken(x))
  {
    hide ScopeClaim.IsBoundedScopeToken;
  }

  /** A consent is committed: genuine, let through and approved, unexpired at both readings, for this bridge and store
      instance, unused, with lists that stand. */
  ghost predicate Approvable(cfg: Config, s: Store, c: Consent, now: int, commitNow: int) {
    && CanonicalTime(now) && now <= commitNow < c.expiresAt && CanonicalTime(commitNow) && CanonicalTime(commitNow + cfg.codeTtlMs)
    && c.resource == cfg.resource && c.instanceId == s.instanceId && ListsStand(cfg, s, c, now)
    && !s.closed && c.jti !in s.jtis && (s.sweptThrough.Some? ==> s.sweptThrough.value <= c.expiresAt)
    && IsInstanceId(c.instanceId) && CanonicalTime(c.expiresAt) && ValidSubject(c.subject)
  }

  /** The code's row: the consent's client, subject, redirect, resource and challenge, the scopes to commit, each once,
      for the lifetime of a code, of the current generation for stored registrations and of none otherwise. */
  ghost predicate CodeFor(cfg: Config, s: Store, row: AuthCode, c: Consent, code: string, now: int, commitNow: int) {
    && row.codeHash == Sha256(code) && row.clientId == c.clientId && row.subject == c.subject && row.redirectUri == c.redirectUri
    && row.resource == c.resource && row.codeChallenge == c.codeChallenge && row.expiresAt == commitNow + cfg.codeTtlMs
    && row.generation == (if cfg.storedDcr then Some(1) else None)
    && NoDuplicates(row.scopes) && forall x :: x in row.scopes <==> ToCommit(cfg, s, c, now, x)
  }

  function CommitOf(cfg: Config, s: Store, c: Consent, list: seq<string>, now: int, commitNow: int, code: string): Outcome {
    DoCommitApproval(s, c.instanceId, c.jti, c.expiresAt, CodeOf(cfg, Approving(c, list, now), code, commitNow))
  }

  /** What the three parts of an approval do to a store without other requests. */
  lemma ApproveInThreeParts(cfg: Config, s: Store, c: Consent, verified: bool, now: int, commitNow: int, code: string)
    ensures var end, list := ApproveSteps(cfg, s, c, verified, now, commitNow, code), ListOf(cfg, s, c, now);
      if !Presentable(cfg, s, c, verified, now) || list.None? || !CommitReached(cfg, Approving(c, list.value, now), commitNow)
      then end.store == s && end.approvals == map[]
      else
        var out := CommitOf(cfg, s, c, list.value, now, commitNow, code);
        && end.store == out.store
        && end.approvals == if out.answer == Commit(Stored) then map[Sha256(code) := c] else map[]
  {
    hide DoCommitApproval, PriorScopes, ApprovedScopes, EmptyStore, CommitReached, CodeOf;
  }

  lemma CommitFollows(cfg: Config, s: Store, c: Consent, list: seq<string>, now: int, commitNow: int, code: string)
    requires CanonicalTime(commitNow + cfg.codeTtlMs) && c.instanceId == s.instanceId
    ensures var out, h := CommitOf(cfg, s, c, list, now, commitNow, code), Sha256(code);
      && (out.answer == Commit(Stored) <==>
            !s.closed && c.jti !in s.jtis && (s.sweptThrough.Some? ==> s.sweptThrough.value <= c.expiresAt)
            && IsInstanceId(c.instanceId) && CanonicalTime(c.expiresAt) && ValidSubject(c.subject))
      && (out.answer != Commit(Stored) ==> out.store == s)
      && (out.answer == Commit(Stored) ==>
            && h in out.store.codes && out.store.codes == s.codes[h := out.store.codes[h]]
            && out.store.jtis == s.jtis[c.jti := c.expiresAt] && out.store.(codes := s.codes, jtis := s.jtis) == s
            && out.store.codes[h] == AuthCode(h, c.clientId, c.subject, c.redirectUri, c.resource, list, c.codeChallenge,
                                              commitNow + cfg.codeTtlMs, if cfg.storedDcr then Some(1) else None))
  {
    hide IsInstanceId, ValidSubject, CanonicalTime, DoCommitApproval;
    ApprovalIsStoredExactly(s, c.instanceId, c.jti, c.expiresAt, CodeOf(cfg, Approving(c, list, now), code, commitNow));
  }

  /** On a valid store a code is handed out exactly for an approvable consent; then the store holds its row and the spent
      consent, and otherwise nothing has changed. */
  lemma ApproveCommitsExactly(cfg: Config, s: Store, c: Consent, verified: bool, now: int, commitNow: int, code: string)
    requires Valid(s)
    ensures var end, h := ApproveSteps(cfg, s, c, verified, now, commitNow, code), Sha256(code);
      && end.approvals == (if verified && Approvable(cfg, s, c, now, commitNow) then map[h := c] else map[])
      && (if verified && Approvable(cfg, s, c, now, commitNow) then
            && h in end.store.codes && CodeFor(cfg, s, end.store.codes[h], c, code, now, commitNow)
            && end.store == s.(codes := s.codes[h := end.store.codes[h]], jtis := s.jtis[c.jti := c.expiresAt])
          else end.store == s)
  {
    hide ApproveSteps, CommitOf, ListOf, ListsStand, Valid, ToCommit, IsInstanceId, ValidSubject, CanonicalTime;
    ApproveInThreeParts(cfg, s, c, verified, now, commitNow, code);
    ApprovedListExactly(cfg, s, c, now);
    var list := ListOf(cfg, s, c, now);
    if list.Some? && CanonicalTime(commitNow + cfg.codeTtlMs) && c.instanceId == s.instanceId {
      CommitFollows(cfg, s, c, list.value, now, commitNow, code);
    }
  }

  /** What an approval hands out and leaves, on a valid store. */
  ghost predicate ApproveLaw(cfg: Config, before: Store, after: Store, handedOut: bool, c: Consent, passed: bool, now: int, commitNow: int,
                             code: string)
  {
    && (handedOut <==> passed && Approvable(cfg, before, c, now, commitNow))
    && (if handedOut then
          && Sha256(code) in after.codes && CodeFor(cfg, before, after.codes[Sha256(code)], c, code, now, commitNow)
          && after == before.(codes := before.codes[Sha256(code) := after.codes[Sha256(code)]], jtis := before.jtis[c.jti := c.expiresAt])
        else after == before)
  }

  lemma ApproveIsLawful(cfg: Config, s: Store, c: Consent, passed: bool, now: int, commitNow: int, code: string)
    requires Valid(s)
    ensures var end := ApproveSteps(cfg, s, c, passed, now, commitNow, code);
      forall handedOut :: end.approvals == (if handedOut then map[Sha256(code) := c] else map[]) ==>
        ApproveLaw(cfg, s, end.store, handedOut, c, passed, now, commitNow, code)
  {
    hide ApproveSteps, Approvable, CodeFor, Valid;
    ApproveCommitsExactly(cfg, s, c, passed, now, commitNow, code);
    var h := Sha256(code);
    assert h in map[h := c];
  }
}
