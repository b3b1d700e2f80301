/** The use-cases as methods over the store: one request from start to end, with
    its compensation. Each is proved to do what its steps in GrantSystem do when no
    other request comes between them. */
module UseCases {
  import opened Prelude
  import opened Clock
  import opened GrantStore
  import opened MemoryStores
  import opened RefreshText
  import opened GrantSystem
  import opened GrantRules
  import GrantSteps
  import StoreInvariant
  import ScopeClaim

  /** A port call: it threw, or its answer could be read. */
  datatype PortResult<T> = Threw | Returned(value: T)

  // ------------------------------------------------------------------------ refresh

  class OAuthTokenUseCase {
    const cfg: Config
    const store: MemoryStore

    constructor (cfg: Config, store: MemoryStore)
      ensures this.cfg == cfg && this.store == store
    {
      this.cfg, this.store := cfg, store;
    }

    /** The revoke of a catch block, made through a port that may fail before it reaches the store. */
    method RevokeFamily(familyId: string, now: int, reaches: bool)
      modifies store
      ensures store.Contents() == if reaches then DoRevoke(old(store.Contents()), familyId, now, None).store else old(store.Contents())
    {
      if reaches { var _ := store.RevokeRefreshTokenFamily(familyId, now, None); }
    }

    /** rotateRefreshTokenSnapshot: any throw or unreadable answer revokes the family and is thrown on. */
    method RotateRefreshTokenSnapshot(hash: Digest, next: TokenWrite, now: int, generation: Option<int>, resource: Option<string>,
                                      familyId: string, fault: Fault, revokes: bool)
      returns (rotated: PortResult<Option<Token>>)
      modifies store
      ensures var out := DoRotate(old(store.Contents()), hash, next, now, generation, resource);
        var reached := if fault.ThrowsBefore? then old(store.Contents()) else out.store;
        if fault.NoFault? && out.answer.TokenRow? then
          rotated == Returned(out.answer.token) && store.Contents() == out.store
        else
          rotated == Threw && store.Contents() == if revokes then DoRevoke(reached, familyId, now, None).store else reached
    {
      rotated := Threw;
      if !fault.ThrowsBefore? {
        var answer := store.RotateRefreshToken(hash, next, now, generation, resource);
        if fault.NoFault? && answer.TokenRow? { rotated := Returned(answer.token); }
      }
      if rotated.Threw? { RevokeFamily(familyId, now, revokes); }
    }

    /** The refresh grant: the token delivered to the client, or None for an error response.
        `signs` says whether the access token can be signed, `revokes` whether a compensating
        revoke reaches the store. */
    method Refresh(raw: string, clientId: string, random: string, now: int, fault: Fault, signs: bool, revokes: bool)
      returns (delivered: Option<string>)
      modifies store
      ensures var end := RefreshSteps(cfg, old(store.Contents()), RotationEvent(raw, clientId, random, now, fault), signs, revokes);
        store.Contents() == end.store && end.returned == Only(delivered)
      ensures RefreshLaw(cfg, old(store.Contents()), store.Contents(), delivered, raw, clientId, random, now, fault, signs, revokes)
    {
      hide RefreshLaw, RefreshSteps, DoRotate, DoRevoke, GenerateRefreshToken, ParseRefreshFamilyId, UsableClock, RefreshChecks, Only;
      NoOne();
      RefreshIsLawful(cfg, store.Contents(), raw, clientId, random, now, fault, signs, revokes);
      RefreshInTwoParts(cfg, store.Contents(), raw, clientId, random, now, fault, signs, revokes);
      if !UsableClock(cfg, now) { return None; }
      var family := ParseRefreshFamilyId(raw);
      if family.None? { return None; }
      var nextRaw := GenerateRefreshToken(family.value, random);
      var previousHash := Sha256(raw);
      var next := TokenWrite(
        Token(Sha256(nextRaw), family.value, Some(previousHash), clientId, "", "", [], now + cfg.refreshTtlMs, None),
        Some(cfg.resource), Omitted);
      var rotated := RotateRefreshTokenSnapshot(previousHash, next, now, ExpectedGeneration(cfg), Some(cfg.resource),
                                                family.value, fault, revokes);
      if rotated.Threw? || rotated.value.None? { return None; }
      var row := rotated.value.value;
      var ok := PrepareResponse(row, nextRaw, clientId, family.value, now, signs);
      if !ok {
        RevokeFamily(family.value, now, revokes);
        return None;
      }
      return Some(nextRaw);
    }

    /** The inner try block of the refresh: whether a response came out of it. */
    method PrepareResponse(row: Token, successor: string, clientId: string, familyId: string, now: int, signs: bool) returns (ok: bool)
      ensures ok == (RefreshChecks(cfg, Refreshing(row, successor, clientId, familyId, now)) && signs)
      ensures ok == (InBinding(cfg, row.generation, row.resource) && MayHave(cfg, row, clientId) && signs)
    {
      ChecksFollow(cfg, row, successor, clientId, familyId, now);
      hide MayHave;
      if (cfg.storedDcr && row.generation != ExpectedGeneration(cfg)) || row.resource != cfg.resource { return false; }
      if clientId == "" || clientId != row.clientId { return false; }
      if ReservedSubject(row.subject) { return false; }
      var scopes := StoredScopes(row.scopes);
      return scopes.Some? && signs;
    }

    method StoredScopes(value: seq<string>) returns (scopes: Option<seq<string>>)
      ensures scopes == ScopeClaim.StoredScopes(value, cfg.catalog)
    {
      scopes := ScopeClaim.SnapshotBoundedScopeList(value);
      if scopes.Some? && exists i :: 0 <= i < |value| && value[i] !in cfg.catalog { return None; }
    }

    // -------------------------------------------------------------------- exchange

    /** consumeValidCode: the code is gone whether or not the request then proves to be its owner's.
        `redirectEntryOk` is the check of the stored redirect's form. */
    method ConsumeValidCode(code: string, clientId: string, redirectUri: string, redirectEntryOk: bool, verifierMatches: bool, now: int)
      returns (record: Option<AuthCode>)
      modifies store
      ensures store.Contents() ==
        if code == "" then old(store.Contents())
        else DoConsumeCode(old(store.Contents()), Sha256(code), now, ExpectedGeneration(cfg), Some(cfg.resource)).store
      ensures record == (if Presents(cfg, old(store.Contents()), code, clientId, redirectUri, now) && redirectEntryOk && verifierMatches
                         then Some(old(store.authCodes)[Sha256(code)]) else None)
    {
      if code == "" { return None; }
      var answer := store.ConsumeAuthCode(Sha256(code), now, ExpectedGeneration(cfg), Some(cfg.resource));
      if !answer.CodeRow? || answer.code.None? { return None; }
      var row := answer.code.value;
      if (cfg.storedDcr && row.generation != ExpectedGeneration(cfg)) || row.resource != cfg.resource { return None; }
      if !redirectEntryOk { return None; }
      if clientId != row.clientId || redirectUri != row.redirectUri { return None; }
      if !verifierMatches { return None; }
      return Some(row);
    }

    /** The code grant: consume, check, prepare, save. Nothing is undone when the save throws. */
    method ExchangeAuthorizationCode(code: string, clientId: string, redirectUri: string, redirectEntryOk: bool, verifierMatches: bool,
                                     now: int, family: string, random: string, fault: Fault, signs: bool)
      returns (delivered: Option<string>)
      modifies store
      ensures var redeem := Redeem(0, code, clientId, redirectUri, redirectEntryOk && verifierMatches, now);
        var end := ExchangeSteps(cfg, old(store.Contents()), redeem, family, random, fault, signs);
        store.Contents() == end.store && end.returned == Only(delivered)
      ensures ExchangeLaw(cfg, old(store.Contents()), store.Contents(), delivered, code, clientId, redirectUri, redirectEntryOk && verifierMatches,
                          now, family, random, fault, signs)
    {
      hide ExchangeLaw, ExchangeSteps, DoConsumeCode, DoSaveToken, RedeemChecks, InBinding, ClockFits, ScopesStand, Unreserved,
        GenerateRefreshToken, UsableClock, ScopeClaim.StoredScopes, ReservedSubject, EmptyStore;
      ghost var redeem := Redeem(0, code, clientId, redirectUri, redirectEntryOk && verifierMatches, now);
      ExchangeIsLawful(cfg, store.Contents(), redeem, family, random, fault, signs);
      ExchangeInTwoParts(cfg, store.Contents(), redeem, family, random, fault, signs);
      UsableClockFits(cfg, now);
      if ClockFits(cfg, now) && code != "" { RedeemFollows(cfg, store.Contents(), redeem); }
      if !UsableClock(cfg, now) { return None; }
      var consumed := ConsumeValidCode(code, clientId, redirectUri, redirectEntryOk, verifierMatches, now);
      if consumed.None? { return None; }
      var record := consumed.value;
      ScopesStandExactly(cfg, record.scopes);
      ReservedExactly(record.subject);
      if ReservedSubject(record.subject) { return None; }
      var refreshToken := GenerateRefreshToken(family, random);
      var scopes := StoredScopes(record.scopes);
      if scopes.None? || !signs { return None; }
      if fault.ThrowsBefore? { return None; }
      var write := TokenWrite(
        Token(Sha256(refreshToken), family, None, record.clientId, record.subject, record.resource, scopes.value,
              now + cfg.refreshTtlMs, record.generation),
        Some(record.resource), Explicit(record.generation));
      GrantSteps.RefusedSaveChangesNothing(store.Contents(), write);
      var saved := store.SaveRefreshToken(write);
      if saved.Thrown? || fault.ThrowsAfter? { return None; }
      return Some(refreshToken);
    }

    // ------------------------------------------------------------------- revocation

    /** Whatever the token is, the client learns nothing; `failed` models a throw. */
    method Revoke(raw: string, now: int) returns (failed: bool)
      modifies store
      ensures store.Contents() == RevokeSteps(cfg, old(store.Contents()), raw, now).store
      ensures RevokeLaw(cfg, old(store.Contents()), store.Contents(), raw, now)
      ensures old(store.closed) && CanonicalTime(now) && raw != "" ==> failed
    {
      hide RevokeLaw, DoRevoke, DoFindToken, EmptyStore;
      RevokeIsLawful(cfg, store.Contents(), raw, now);
      ClosedLookupThrows(store.Contents(), Sha256(raw));
      if !CanonicalTime(now) { return true; }
      if raw == "" { return false; }
      var existing := store.FindRefreshToken(Sha256(raw));
      if existing.Thrown? { return true; }
      if existing.TokenRow? && existing.token.Some? && existing.token.value.resource == cfg.resource {
        var answer := store.RevokeRefreshTokenFamily(existing.token.value.familyId, now, Some(cfg.resource));
        return answer.Thrown?;
      }
      return false;
    }
  }

  lemma ClosedLookupThrows(s: Store, h: Digest)
    ensures s.closed ==> DoFindToken(s, h).answer.Thrown?
  {
  }

  // ------------------------------------------------------------------------ approval

  datatype Approval = HandedOut | Denied | Failed

  /** `xs.filter((s) => allowed.includes(s))`. */
  method FilterScopes(xs: seq<string>, allowed: seq<string>) returns (out: seq<string>)
    ensures out == Filter(xs, allowed)
  {
    out := [];
    for i := 0 to |xs|
      invariant out + Filter(xs[i..], allowed) == Filter(xs, allowed)
    {
      assert xs[i..][1..] == xs[i + 1..];
      if xs[i] in allowed { out := out + [xs[i]]; }
    }
  }

  class OAuthAuthorizeUseCase {
    const cfg: Config
    const store: MemoryStore

    constructor (cfg: Config, store: MemoryStore)
      ensures this.cfg == cfg && this.store == store
    {
      this.cfg, this.store := cfg, store;
    }

    /** readGrantedScopeSnapshot, for clients whose grants accumulate; None models a throw. */
    method ReadPriorScopes(consent: Consent, now: int) returns (prior: Option<seq<string>>)
      ensures prior == PriorScopes(cfg, store.Contents(), consent, now)
    {
      if !AccumulationAllowed(cfg, consent.clientId) { return Some([]); }
      var answer := store.FindGrantedScopes(PriorQuery(cfg, consent, now));
      return if answer.Scopes? then Some(answer.scopes) else None;
    }

    /** The scopes to commit: consented and prior ones, each once, within the signed ceiling. */
    method NarrowedScopes(consent: Consent, now: int) returns (r: Option<seq<string>>)
      ensures var prior := PriorScopes(cfg, store.Contents(), consent, now);
        r == if prior.None? then None else ApprovedScopes(cfg, consent, prior.value)
      ensures StoreInvariant.Valid(store.Contents()) ==>
        && (r.Some? <==> ListsStand(cfg, store.Contents(), consent, now))
        && (r.Some? ==> NoDuplicates(r.value))
        && (r.Some? ==> forall x :: x in r.value <==> ToCommit(cfg, store.Contents(), consent, now, x))
    {
      if StoreInvariant.Valid(store.Contents()) { ApprovedListExactly(cfg, store.Contents(), consent, now); }
      hide PriorScopes, AppendNew, Filter, StoreInvariant.Valid, ListsStand, ToCommit;
      var consented := ScopeClaim.StoredScopes(consent.scopes, cfg.catalog);
      if consented.None? || !CeilingOk(consent.ceiling) {
        return None;
      }
      var read := ReadPriorScopes(consent, now);
      if read.None? { return None; }
      var prior := ScopeClaim.StoredScopes(read.value, cfg.catalog);
      if prior.None? { return None; }
      var scopes := PushMissing([], consented.value + prior.value);
      if consent.ceiling.Some? { scopes := FilterScopes(scopes, consent.ceiling.value); }
      return Some(scopes);
    }

    /** The approval of a consent token, with its two clock readings. A denial leaves the consent unspent. */
    method Approve(consent: Consent, verified: bool, gates: ApproveGates, approved: bool, now: int, commitNow: int, code: string)
      returns (approval: Approval)
      modifies store
      ensures var end := ApproveSteps(cfg, old(store.Contents()), consent, verified && Open(gates) && approved, now, commitNow, code);
        && store.Contents() == end.store
        && end.approvals == (if approval.HandedOut? then map[Sha256(code) := consent] else map[])
      ensures StoreInvariant.Valid(old(store.Contents())) ==>
        ApproveLaw(cfg, old(store.Contents()), store.Contents(), approval.HandedOut?, consent, verified && Open(gates) && approved, now, commitNow, code)
      ensures approval.Denied? <==> !approved && Open(gates) && Presentable(cfg, old(store.Contents()), consent, verified, now)
    {
      hide ApproveLaw, ApproveSteps, DoCommitApproval, PriorScopes, ApprovedScopes, StoreInvariant.Valid;
      var passed := verified && Open(gates) && approved;
      if StoreInvariant.Valid(store.Contents()) { ApproveIsLawful(cfg, store.Contents(), consent, passed, now, commitNow, code); }
      ApproveInThreeParts(cfg, store.Contents(), consent, passed, now, commitNow, code);
      if !CanonicalTime(now) || !gates.originAllowed { return Failed; }
      if !verified || consent.expiresAt <= now { return Failed; }
      if consent.resource != cfg.resource { return Failed; }
      if consent.instanceId != store.storeInstanceId { return Failed; }
      if !gates.cimdGate || !gates.redirectEntry || !gates.redirectCurrent { return Failed; }
      if !approved { return Denied; }
      var scopes := NarrowedScopes(consent, now);
      if scopes.None? { return Failed; }
      if !CanonicalTime(commitNow) || !CanonicalTime(commitNow + cfg.codeTtlMs) || commitNow < now { return Failed; }
      if consent.expiresAt <= commitNow { return Failed; }
      var commit := store.CommitConsentApproval(consent.instanceId, consent.jti, consent.expiresAt, CodeWrite(
        AuthCode(Sha256(code), consent.clientId, consent.subject, consent.redirectUri, consent.resource, scopes.value,
                 consent.codeChallenge, commitNow + cfg.codeTtlMs, None),
        "S256", Explicit(ExpectedGeneration(cfg))));
      return if commit == Commit(Stored) then HandedOut else Failed;
    }
  }
}
