# What this project models

A self-contained OAuth bridge and authorization server: what it stores about a grant, how it
resolves client metadata documents, and a few self-contained algorithms it relies on. The model
is written in Dafny 4.11; `dafny verify dfyconfig.toml` checks all of it.

The modules build on each other as follows.

* **The grant lifecycle.** `GrantStore` says what every store operation answers and which store
  it leaves behind. `MemoryStores` is the in-process store as a class that updates its maps in
  place, each method proved against `GrantStore`. `StoreLaws` says by the fields of the rows who is
  answered what and what is left, without the functions `GrantStore` is built from. `StoreInvariant`, `FamilyChains`, `ConsentJti`
  and `SweepInvisible` prove properties of all runs of store calls; `ExpiryLifecycle` adds the
  clocks of several sharers, and `SweepNoticed` holds the runs in which one of them notices a
  sweep. `FlowCallback` is the upstream callback, interleaved over the store. `GrantSystem` is the use-cases as a transition system in which any
  number of requests interleave, one store call at a time. Saving and rotating a token may throw
  before or after they took effect; for the other calls that is the same as a request that ends
  there. `GrantSteps`, `GrantProvenance`, `GrantAccounting`, `ConsentBinding` and
  `RefreshAtomicity` prove invariants of all its runs; `StrandedRoot` is one run in full. `GrantRules`
  states the rules of the token and authorize endpoints on the rows' fields, and proves that one
  request from start to end follows them; `GrantRequests` leads everything that an interleaving
  hands out back to the request that was entitled to it. `UseCases` is the same requests as
  imperative methods over the store class, with their compensation. `RefreshText` and `ScopeClaim`
  are the token text and the scope claim.
* **Client metadata documents.** `CacheControl` is the header scanner, `Freshness` the age
  arithmetic, `SuccessCache` the bounded cache, and `SingleFlight` the resolver as a protocol of
  arriving, settling and resuming callers; `DocumentLife` is what becomes of a fetched document.
* **Self-contained algorithms.** `ScopeGraph`, `IpText`, `IpSpelling`, `CidrRange` (over `Bits`),
  `SecretRemoval`, `JsonlAudit` and `IsoTime` (over `Clock`). `Prelude` and `Text` hold shared
  values, strings and digits.

## How the source is read

* A time is an integer number of milliseconds. `IsoTime` justifies this: on the canonical range
  comparing the stored texts is comparing the times.
* A SHA-256 digest is known by the text it was computed from, so hashing is injective. Codes,
  token texts, family ids and JTIs drawn at random are fresh. Signed consents form a set that
  only preparation extends, so they cannot be forged.
* Each method of the in-process store runs without an intervening await and is one atomic step.
  A use-case is several steps, and steps of other requests may come between any two of them.
* A document handed out by the resolver carries the facts of its fetch (header fields, clock
  before and after), so that freshness can be stated about it. Callers of a settled fetch may
  resume in any order.
* Ages are exact integers. In the source `age * 1000` may round as a double, but only far above
  every lifetime the cap allows, where the result is null either way.
* The access-token, PKCE and signing checks and the form of a stored redirect appear as the truth
  values `verifierMatches`, `signs` and `redirectEntryOk`; the origin, metadata-document and
  redirect gates of an approval as `ApproveGates`. The matches of the redaction patterns are arbitrary.
* JavaScript's `&`, `|`, `<<` and `>>>` on bytes are recursive functions on natural numbers, and
  their arithmetic meaning is proved.

## What the proofs found

* `exchangeAuthorizationCode` (src/token.ts:97-104) has no compensation: when the store commits
  the root token and the port call then throws, a live refresh token exists that no client was
  given. `RefreshAtomicity.ExchangeStrandsExactlyOnLateFault` says that this is exactly when it
  happens in one step, `RefreshAtomicity.UndeliveredExactlyAfterLateFault` says it of whole runs,
  and `StrandedRoot.LateFaultStrandsARoot` is such a run. Refresh itself has the property
  (`RefreshAtomicity.RefreshIsAllOrNothing`).
* docs/contracts/12-store-conformance-contract.md:94 says that collection never outruns a bridge
  that can still accept a signed artifact. Three kinds of runs of the code disagree. An approval
  reads its clock (src/authorize.ts:193), awaits the client policy, and only then asks for prior
  grants at that reading, so a sweep in between removes a grant it would have found
  (`SweepNoticed.OvertakenQuery`). The upstream callback checks the expiry of its flow, awaits the
  client store, and then consumes the flow's JTI, so a sweep in between turns its first use into a
  replay (`SweepNoticed.OvertakenFlow`). A bridge that binds a clock behind the earlier sweeps has
  unexpired JTIs refused (`SweepNoticed.LateClock`).
  `SweepInvisible.SweepsShowExactlyWhenAffected` says for every run when sweeps can be noticed at
  all, `ExpiryLifecycle.AffectedCallsAreDelayed` that it takes one of these three situations, and
  `ExpiryLifecycle.NoSharerSeesSweeps` that nothing is noticed outside them.
* docs/contracts/12-store-conformance-contract.md:70 says that a sweep one millisecond after a
  JTI's expiry permits a fresh insertion. The code refuses it through the sweep watermark
  (src/store/memory.ts:87), as line 98 of the same document asks. The model follows the code, and
  `SweepInvisible.ExpiredConsentTellsThemApart` states when a sweep can be noticed this way.
* A sink opened on a file that does not end in a line end joins its first record to what is there
  (`JsonlAudit.FirstRecordStandsAlone`). docs/audit-deployment.md:45 leaves that to the operator.
* A cache built with `maxEntries` below one still holds one entry
  (`SuccessCache.SizeWithinMaximum`). The resolver uses the default of 256.

## Model

| member | source | states |
|---|---|---|
| MemoryStores.MemoryStore.CommitConsentApproval | src/store/memory.ts:45-63 | answer and whole new store are those of the specification: refused when closed or malformed, else binding mismatch, replay (tombstone or watermark), or tombstone and code stored together |
| MemoryStores.MemoryStore.SaveAuthCode | src/store/memory.ts:65-69 | answer and new store: the code is filed under its hash, nothing else changes |
| MemoryStores.MemoryStore.ConsumeAuthCode | src/store/memory.ts:71-81 | answer and new store: a resource mismatch leaves the code, any other lookup removes it, and only an unexpired code of the expected generation is returned |
| MemoryStores.MemoryStore.ConsumeConsentJti | src/store/memory.ts:83-90 | answer and new store: true, with a tombstone, exactly when neither tombstone nor watermark refuses |
| MemoryStores.MemoryStore.SaveRefreshToken | src/store/memory.ts:92-110 | answer and new store, with both refusals (hash taken, family of another binding) |
| MemoryStores.MemoryStore.RotateRefreshToken | src/store/memory.ts:112-142 | answer and new store in every branch; by fields: on success the presented row is consumed now, and the new one is unconsumed, names it as its predecessor, expires when the caller said, and has its family, client, subject, scopes and binding; another generation or resource than the row's own changes nothing |
| MemoryStores.MemoryStore.RevokeRefreshTokenFamily | src/store/memory.ts:144-151 | the first revocation of a matching family is recorded, every other store is unchanged |
| MemoryStores.MemoryStore.FindRefreshToken | src/store/memory.ts:153-159 | the stored row, consumed or not |
| MemoryStores.MemoryStore.FindGrantedScopes | src/store/memory.ts:161-177 | the loop collects scopes in map order, each once; by fields: exactly those held by an unconsumed, unexpired row of an unrevoked family of that subject, client, generation and resource |
| MemoryStores.MemoryStore.SweepExpired | src/store/memory.ts:179-197 | the loops delete exactly the expired codes and tombstones, the rows of families without a valid member, and empty families, and raise the watermark |
| MemoryStores.MemoryStore.RotateStoreInstanceId | src/store/memory.ts:39-43 | a new instance id and nothing else |
| StoreInvariant.ApplyKeepsValid | src/store/memory.ts:45-197 | every operation keeps: rows filed under their own hash, well formed, bound as their family is, listed once in map order |
| StoreInvariant.RotationCannotHalfFail | src/store/memory.ts:132-141 | on a valid store the successor write cannot fail once the predecessor is consumed: a well-formed rotation either changes no row or consumes one and adds its successor |
| StoreInvariant.RotationByCase | src/store/memory.ts:112-142 | a case split: on a valid store a well-formed rotation misses, replays or rotates, with the exact outcome of each and no half-done one |
| StoreInvariant.GrantedExactly | src/store/memory.ts:161-177 | a scope is reported if and only if some unconsumed, unexpired row of an unrevoked family of that subject, client and binding holds it |
| StoreLaws.SubjectsAreTrimmed | src/identity-boundary.ts:16-30 | a subject is accepted if and only if it is 1 to 384 characters that trimming leaves alone, without a replacement character |
| StoreLaws.CodeIsHandedOutExactly | src/store/memory.ts:71-81 | by fields: who gets a code, when it is used up, and that nothing else changes |
| StoreLaws.ApprovalIsStoredExactly | src/store/memory.ts:45-63 | by fields: when an approval is stored, that tombstone and code are written together or not at all, and every field of the code |
| StoreLaws.JtiIsAcceptedExactly | src/store/memory.ts:83-90 | a JTI is accepted if and only if it is new and not behind the sweeps, and only then recorded |
| StoreLaws.SavedRowByFields | src/store/memory.ts:92-110 | every field of a saved row and of its family, and that nothing else changes |
| StoreLaws.SaveIsAcceptedExactly | src/store/memory.ts:92-110 | a save is accepted if and only if it is well formed, its hash is new, and its family is new or of the same binding |
| StoreLaws.RotatesExactly | src/store/memory.ts:112-142 | a token is rotated if and only if its row is live and of the expected binding, which its family shares, and the successor is well formed, new, names it and stays in its family |
| StoreLaws.SuccessorByFields | src/store/memory.ts:132-141 | every field of both rows after a rotation, and that every other row, family and code stays |
| StoreLaws.ForeignBindingChangesNothing | src/store/memory.ts:119-126 | presenting a token, consumed or not, for another generation or resource answers null and is no replay |
| StoreLaws.ReplaysExactly | src/store/memory.ts:127-136 | on a valid store a rotation that does not rotate changes the store if and only if a consumed token of an unrevoked family was presented to its own binding, and then revokes just that family |
| StoreLaws.RevokesExactly | src/store/memory.ts:144-151 | a revocation marks the one family, the first time, and only for its own resource |
| StoreLaws.RebindsExactly | src/store/memory.ts:39-43 | a new instance id replaces the old one and nothing else |
| StoreLaws.ReportsExactly | src/store/memory.ts:161-177 | a query reports, each once, exactly the scopes of the rows with those fields |
| StoreLaws.SweepKeepsUnexpired | src/store/memory.ts:179-184 | a sweep keeps exactly the codes and tombstones not expired before it and raises the watermark |
| StoreLaws.SweepKeepsWholeFamilies | src/store/memory.ts:185-197 | it keeps exactly the families with a member not expired before it, all their tokens, consumed or not, in their order |
| ConsentJti.AcceptedAtMostOnce | src/store/memory.ts:45-63 | over any run of store calls, with sweeps at arbitrary, even backward, times, a JTI presented with its signed expiry is accepted at most once; not at all once spent |
| ConsentJti.AcceptedExactlyOnce | src/store/memory.ts:83-90 | the bound is met: if one well-formed consumption reaches an open store whose watermark has not passed the expiry, the run accepts the JTI exactly once |
| FlowCallback.OneExchangePerFlowCookie | src/adapters/upstream-flow.ts:184-202 | in every interleaving of callbacks, each in several steps, with any other store calls, one signed flow cookie causes at most one upstream exchange |
| FamilyChains.EveryFamilyIsOneChain | src/store/memory.ts:92-142 | in every run with fresh roots each family is one chain linked by previous hashes, equally bound throughout, in which only the last member is unconsumed |
| FamilyChains.RotationExtendsChain | src/store/memory.ts:131-141 | a successful rotation presented the end of the chain and appends exactly its successor |
| FamilyChains.OneLiveMember | src/store/memory.ts:92-142 | two unconsumed rows of one family are the same row |
| FamilyChains.ReplayRevokesFamily | src/store/memory.ts:127-130 | presenting a consumed member to its resource and generation answers null and leaves the family revoked |
| FamilyChains.DeadForever | src/store/memory.ts:112-197 | a revoked or swept family stays so in every later run |
| FamilyChains.ReplayEndsFamily | src/store/memory.ts:112-177 | after a replay and any later run no member of the family rotates and none contributes scopes (section 4.14.2 of RFC 9700) |
| SweepInvisible.StepAgrees | src/store/memory.ts:45-197 | for one call on a swept store and its unswept twin: the answers differ if and only if the call is affected (it misses a swept code, token or grant still unexpired at the time it goes by, or its JTI is refused by the watermark alone), and otherwise the two stores stay alike |
| SweepInvisible.SweepsShowExactlyWhenAffected | src/store/memory.ts:179-197 | a run with fresh hashes and families, lookups included, answers as the run without its sweeps does if and only if none of its calls is affected |
| SweepInvisible.SweepingIsInvisible | src/store/memory.ts:179-197 | forward simulation: in every run whose calls come at or after the earlier sweep times, with unexpired JTIs and fresh hashes and families, every call but a sweep and a bare lookup answers the same, scope lists in the same order, with the sweeps as without them |
| SweepInvisible.ExpiredConsentTellsThemApart | src/store/memory.ts:83-90 | a sweep is visible to a consumption right after it if and only if the JTI had expired before it |
| ExpiryLifecycle.StoreExpiryLifecycle.Start | src/store/expiry-lifecycle.ts:30-40 | a clock is bound once, in order, and not at all when the scheduler cannot be made |
| ExpiryLifecycle.StoreExpiryLifecycle.EarliestNowMs | src/store/expiry-lifecycle.ts:47-54 | the loop returns the least reading minus the lag, and no time at all unless every bound clock can be read |
| ExpiryLifecycle.AffectedCallsAreDelayed | src/store/expiry-lifecycle.ts:30-54 | in every run of bindings, sweeps at the earliest bound clock and calls that may wait between clock reading and store: an affected call goes by a reading behind the sweeps, and either its clock was behind them when bound, or it is a prior-grant query or flow consumption that a sweep overtook while it waited |
| ExpiryLifecycle.NoSharerSeesSweeps | src/store/expiry-lifecycle.ts:30-54 | hence where no clock is bound behind the sweeps and no sweep overtakes a waiting call, every call but a bare lookup answers as if the store were never swept, however far the clocks are apart and whenever they are bound |
| SweepNoticed.OvertakenQuery | src/authorize.ts:193-214 | a possible run in which a sweep overtakes the prior-grant read of an approval, which then misses a grant it finds without the sweep |
| SweepNoticed.OvertakenFlow | src/adapters/upstream-flow.ts:156-185 | a possible run in which a sweep overtakes a callback between its expiry check and its consumption, whose first use is then refused |
| SweepNoticed.LateClock | src/store/expiry-lifecycle.ts:30-54 | a possible run in which a sharer binds a clock behind the earlier sweeps and has an unexpired JTI refused |
| GrantSteps.OneCallPerStep | src/token.ts:85-145 | every step of the interleaved use-cases is at most one atomic store call |
| GrantSteps.StepKeepsBase | src/token.ts:85-145 | every step of every interleaving keeps valid rows, one chain for each family, and rows whose token text names their family |
| GrantProvenance.ApprovedExactly | src/authorize.ts:211-218 | an approval commits the consented and the prior scopes that the signed ceiling allows, and no others |
| GrantRules.PreparesExactly | src/authorize.ts:107-160 | a consent is signed if and only if the subject is named and unreserved, the scopes are of the catalog, and a ceiling leaves some of them; it names request and instance, with the requested scopes inside the ceiling in their order |
| GrantRules.ApprovedListExactly | src/authorize.ts:211-218 | the list an approval comes to holds, each once, exactly the scopes that the ceiling allows and that are in the consent or granted before |
| GrantRules.SchemeExactly | src/cimd/registration.ts:22-31 | a client id counts as scheme-shaped if and only if it begins with a letter, then letters, digits, "+", "." or "-", then "://" |
| GrantRules.ExchangeDeliversExactly | src/token.ts:85-109 | the rule of the code grant: a token goes out if and only if the stored code, its client, redirect, binding, verifier, owner, scopes and save all pass |
| GrantRules.ExchangeLeaves | src/token.ts:85-109 | what an exchange leaves: the code gone if it was found, and the root's row exactly where the save was reached and accepted |
| GrantRules.ApproveCommitsExactly | src/authorize.ts:191-247 | the rule of an approval on a valid store: when a code is handed out, its row and the spent consent, and no change otherwise |
| GrantRules.ChecksFollow | src/token.ts:127-133 | the checks after a rotation, for a row from any store: this binding, the presenting client, an unreserved subject, scopes that stand |
| GrantRules.CodeChecksFollow | src/token.ts:207-217 | the checks after a consumption, for a code from any store: this binding, the presenting client and redirect, a matching verifier, an unreserved subject, scopes that stand |
| GrantRules.RefreshDeliversExactly | src/token.ts:110-145 | the rule of the refresh grant for the family a text names: its one answer, given if and only if the row is live, of this binding, the presenting client's, and nothing fails |
| GrantRules.RotatedRefreshLeaves | src/token.ts:110-145 | what a refresh whose token could be rotated leaves, whatever fails: both rows, and the family revoked where no response went out and the revoke reaches the store |
| GrantRules.RefusedRefreshLeaves | src/token.ts:110-145 | what any other refresh leaves on a valid store: at most revocations, of the family the text names and of the family of the row behind it |
| GrantRules.ReplayedRefreshLeaves | src/token.ts:110-145 | on a valid and open store a refresh with a consumed token of this binding leaves the family revoked, and any other token that cannot be rotated changes nothing unless a call fails |
| GrantProvenance.PriorWasConsented | src/authorize.ts:213-215 | a prior grant is a scope that the same subject consented to for the same client |
| GrantProvenance.EveryScopeWasConsented | src/authorize.ts:211-237 | in every interleaving each scope of each stored code and token was in a consent approved for that subject and client |
| GrantProvenance.NothingLeavesTheCeiling | src/authorize.ts:211-237 | in every interleaving a code, and every token of the family it became, stays inside the ceiling of the consent it came from |
| GrantAccounting.RedeemedAtMostOnce | src/token.ts:85-109 | in every interleaving a code is redeemed at most once, also when the request that redeemed it fails afterwards (section 4.1.2 of RFC 6749) |
| GrantAccounting.LiveTokensNeverOutnumberApprovals | src/authorize.ts:224-240 | from the empty store: each code is redeemed at most once and serves at most one family, each consent gives at most one code, and live refresh tokens never outnumber approved consents |
| GrantRequests.EveryRequestWasBegun | src/token.ts:85-145 | in every interleaving each request in progress goes back to its own first event and to what the store held then: a redeemed code to its client, redirect and matching verifier, a rotated token to the client that presented it, an approval to the consent and the grants read for it |
| GrantRequests.EveryTokenWasEarned | src/token.ts:85-145 | in every interleaving each delivered token was requested by the client its presented row names, or belongs to a code redeemed by its client at its redirect with its verifier and saved as that grant |
| GrantRequests.EveryApprovalWasConsented | src/authorize.ts:191-240 | in every interleaving each approval was checked, read for and committed by one request before its expiry, for the store's instance, and its code carries exactly what was read |
| ConsentBinding.RebindingEndsConsents | src/store/memory.ts:39-57 | once the store instance is changed, no interleaving approves a consent signed for another instance |
| RefreshAtomicity.RefreshIsAllOrNothing | src/token.ts:110-145 | whatever throws and however requests interleave, when no refresh is in progress a live token produced by a refresh was delivered; the undelivered live tokens are exactly the stranded roots |
| RefreshAtomicity.ExchangeStrandsExactlyOnLateFault | src/token.ts:97-104 | code exchange lacks that property: for every step that issues tokens to a redeemed code, its root is left live and undelivered if and only if the store accepts the write and the call throws after it committed |
| RefreshAtomicity.UndeliveredExactlyAfterLateFault | src/token.ts:85-145 | in every run, when no refresh is in progress: some live token was never delivered if and only if a redeemed code's root was saved by a call that then threw, and that root is still live |
| StrandedRoot.LateFaultStrandsARoot | src/token.ts:97-104 | for every usable configuration a run from the empty store, of one consent, approval, exchange and late fault, that ends at rest with a live undelivered token |
| RefreshText.ParseGenerated | src/crypto.ts:64-73 | the family id is read back from every generated token |
| RefreshText.ParsedShape | src/crypto.ts:68-73 | a text is parsed only if it has the three parts, and then yields its middle one |
| RefreshText.ParsesExactly | src/crypto.ts:68-73 | a text is parsed as a family id if and only if it is "rt", that id of at least 16 base64url characters and a random part, separated by dots |
| RefreshText.GenerateInjective | src/crypto.ts:64-66 | different families or random parts give different tokens |
| UseCases.OAuthTokenUseCase.RotateRefreshTokenSnapshot | src/port-result.ts:42-62 | a throw before or after the store committed, or an unreadable answer, revokes the family and is thrown on; otherwise the store's answer |
| UseCases.OAuthTokenUseCase.Refresh | src/token.ts:110-145 | a new token goes out if and only if the text is a token of some family, the store holds a live row for it of this binding, the row names the presenting client, its subject is unreserved, its scopes stand, and nothing fails; a token that could be rotated is consumed for a successor with the full lifetime, and where no response went out its family is revoked if the revoke reaches the store |
| UseCases.OAuthTokenUseCase.ConsumeValidCode | src/token.ts:201-217 | the code is consumed before its owner is checked; the record is returned if and only if it is unexpired, of this client, redirect, resource and generation, and the verifier and the redirect's form pass |
| UseCases.OAuthTokenUseCase.ExchangeAuthorizationCode | src/token.ts:85-109 | a refresh token goes out if and only if such a code is stored for this client and redirect, its verifier matches, the owner is unreserved, the scopes stand, and the save is accepted and does not throw; the root's row has the full lifetime, no predecessor and the code's identity, and the code is gone whoever presented it |
| UseCases.OAuthTokenUseCase.Revoke | src/token-revoke.ts:17-39 | the family of a recognized token of this resource is marked, the first time, and nothing else changes |
| UseCases.OAuthAuthorizeUseCase.NarrowedScopes | src/authorize.ts:211-218 | dedupe and filter loops compute a list exactly where every list stands; on a valid store it holds, each once, exactly the scopes that the ceiling allows and that are in the consent or, for stored clients whose id has no scheme, in a live grant of that subject, client and binding |
| UseCases.OAuthAuthorizeUseCase.Approve | src/authorize.ts:191-247 | on a valid store a code is handed out if and only if the consent is genuine, behind open gates, approved, unexpired at both readings, for this resource and instance, unused, with lists that stand; its row has the consent's fields and exactly the scopes of NarrowedScopes; otherwise nothing changes; a denial is answered exactly to a presentable consent behind open gates |
| IsoTime.TextOrderIsTimeOrder | src/ports/clock.ts:9-10 | for canonical times the lexicographic order of the 24-character texts is the numeric order of the times, and equal texts are equal times |
| IsoTime.RangeIsYears0To9999 | src/ports/clock.ts:9-10 | the two constants are the first millisecond of year 0 and the last of year 9999 (section 5.1 of RFC 3339) |
| IsoTime.DaysOfMonth | src/ports/clock.ts:9-10 | the calendar the texts go by has months of 30, 31 and 28 or 29 days (section 5.7 of RFC 3339) |
| IsoTime.AcceptedExactlyInRange | src/ports/store.ts:179-186 | the text of a time has the form the stores accept if and only if the time is canonical |
| IsoTime.AcceptedReadingsAreWritable | src/ports/clock.ts:32-40 | a clock snapshot with an offset is accepted if and only if every time from it to its offset can be written |
| ScopeClaim.SnapshotBoundedScopeList | src/scopes.ts:103-125 | the running byte count refuses no list that the entry limits admit |
| ScopeClaim.ClaimRoundTrip | src/scopes.ts:22-37 | parsing the claim of any admissible list returns that list sorted |
| ScopeClaim.AcceptedClaimRejoins | src/scopes.ts:22-30 | an accepted claim is the join of its own entries, byte for byte |
| ScopeClaim.ClaimFits | src/scopes.ts:17-19 | the joined length never exceeds the claim limit |
| ScopeClaim.ClaimIgnoresOrder | src/scopes.ts:73-75 | the claim depends on the entries and not on their order |
| ScopeClaim.LexExactly | src/scopes.ts:73-75 | the order of the claim is the order of texts: a beginning before its continuation, and else the smaller character at the first difference |
| SuccessCache.CimdSuccessCache.Get | src/cimd/cache.ts:63-74 | answer and new entries: cleared on a bad reading, expired entry removed, hit moved to the end |
| SuccessCache.CimdSuccessCache.Set | src/cimd/cache.ts:76-85 | new entries: the eviction loop keeps the newest and the new entry is last |
| SuccessCache.CimdSuccessCache.Observe | src/cimd/cache.ts:90-98 | a backward or non-finite reading clears the cache and resets the observation |
| SuccessCache.HitsAgree | src/cimd/cache.ts:52-99 | after every run each hit is the answer of the unbounded map under the same clock rule, and an answer differs from it only for an entry not held |
| SuccessCache.SizeWithinMaximum | src/cimd/cache.ts:76-85 | the size stays within maxEntries in every run if and only if maxEntries is at least one |
| SuccessCache.SizeBound | src/cimd/cache.ts:76-85 | keys are unique and at most max(1, maxEntries) are held |
| SuccessCache.OrderIsRecency | src/cimd/cache.ts:61-85 | in every run the entries stand in the order of their last uses |
| SuccessCache.EvictionNeedsOthers | src/cimd/cache.ts:76-85 | an entry that is neither cleared nor found expired leaves only after maxEntries distinct other keys were used since its last use |
| SuccessCache.RecentAndFreshIsServed | src/cimd/cache.ts:61-85 | a stored value is served until its expiry as long as the clock goes forward and fewer than maxEntries other keys were used |
| SuccessCache.BadReadingEmpties | src/cimd/cache.ts:90-98 | after a backward or non-finite reading nothing can be served |
| Freshness.ExpiryIsEndOfFreshness | src/cimd/cache.ts:104-122 | from its receipt on, a response is before its computed expiry if and only if corrected initial age plus resident time is below its capped lifetime (sections 4.2 and 4.2.3 of RFC 9111) |
| Freshness.StoredExactlyWhenFreshOnReceipt | src/cimd/cache.ts:104-122 | an expiry is computed if and only if the response is fresh on receipt |
| Freshness.ServedExactlyWhileFresh | src/cimd/cache.ts:63-74 | composed with the cache: a lookup serves a document if and only if it holds it under that key and it is fresh |
| Freshness.VaryStarIsAMember | src/cimd/cache.ts:208-211 | a printed list of field names counts as a star if and only if one of its members, trimmed, is the star |
| Freshness.VaryStarInAnyField | src/cimd/cache.ts:208-211 | the star counts in any occurrence of the field |
| Freshness.AgeReadsBack | src/cimd/cache.ts:213-222 | a printed age is read back, and refused beyond the safe integers |
| Freshness.AgeExactly | src/cimd/cache.ts:213-222 | an age is read if and only if there is exactly one field, a run of digits within the safe integers; a missing field is zero |
| CacheControl.SplitDirectives | src/cimd/cache.ts:28-39 | the index loop computes the pieces between unquoted commas, and joining them gives the header back |
| CacheControl.JoinPieces | src/cimd/cache.ts:28-39 | joining the pieces of any text gives the text back, from either quoting state |
| CacheControl.PiecesOfJoin | src/cimd/cache.ts:28-39 | splitting a comma-join of texts closed under quoting gives exactly those texts back |
| CacheControl.ScanPrinted | src/cimd/cache.ts:28-45 | splitting a printed list of well-formed directives, quoted strings with commas and escapes included, finds exactly those directives with their own names and values |
| CacheControl.ReadsExactlyTheDirectives | src/cimd/cache.ts:141-163 | a piece is accepted if and only if it is blank or a spelling, in any case and with white space around it and behind its name, of a well-formed directive that does not restrict caching, and it then means what that directive means (section 5.2 of RFC 9111) |
| CacheControl.ParseMaxAge | src/cimd/cache.ts:135-169 | the loop with its early exits and occurrence counters returns the lifetime that the meanings of all pieces give |
| CacheControl.LifetimeIsGiven | src/cimd/cache.ts:135-169 | that lifetime is n if and only if a statement about which meanings occur, and how often, allows n |
| CacheControl.SharedLifetimeWins | src/cimd/cache.ts:164-168 | a header stating one lifetime, or one for all caches and one for shared ones, gives the shared one if there is one, and none below a minute or beyond the safe integers |
| CacheControl.LifetimeByDirectives | src/cimd/cache.ts:135-169 | a header of well-formed directives has lifetime n if and only if none is no-store, no-cache or private, each of max-age and s-maxage occurs at most once and as a safe integer, and n, at least a minute, is the shared one or, without one, the other |
| CacheControl.OrderDoesNotMatter | src/cimd/cache.ts:135-169 | the lifetime does not depend on the order of the directives |
| SingleFlight.WaiterCounts.TryAcquire | src/cimd/waiters.ts:24-29 | a slot is taken exactly below the cap, and a refusal changes nothing |
| SingleFlight.WaiterCounts.Release | src/cimd/waiters.ts:33-37 | one slot less, and no entry at zero |
| SingleFlight.CimdResolver.RegistrationFor | src/cimd/resolve.ts:211-226 | the stretch before the first await: hit, joined fetch, started fetch or overload, with the new cache, registry and counts |
| SingleFlight.CimdResolver.FetchAndCache | src/cimd/resolve.ts:234-248 | a document fresh on receipt is held under its id after a good reading; any other leaves cache and clock alone |
| SingleFlight.CimdResolver.LeaderSettles | src/cimd/resolve.ts:227-231 | the finally block removes the id from the registry |
| SingleFlight.CimdResolver.FollowerSettles | src/cimd/resolve.ts:219-223 | the finally block releases one slot |
| SingleFlight.OneFetchPerClient | src/cimd/resolve.ts:211-232 | in every interleaving: one outstanding fetch for a raw id, at most maxInFlight in all, followers of an id within their cap |
| SingleFlight.WaitersAreBounded | src/cimd/options.ts:25-30 | callers waiting on outstanding fetches never exceed maxInFlight x (maxWaitersPerFetch + 1) |
| SingleFlight.RefusedExactlyWhenFull | src/cimd/resolve.ts:211-226 | a caller is refused if and only if its fetch has its full number of followers, or it has none and the registry is full |
| SingleFlight.SettleRemovesOnlyItsOwn | src/cimd/resolve.ts:227-231 | a settling leader removes the registration of its own fetch and no other |
| SingleFlight.CallersGetTheirOwn | src/cimd/resolve.ts:219-231 | a resuming caller gets the outcome of a fetch of its own id |
| SingleFlight.NothingLeaks | src/cimd/waiters.ts:24-37 | once nobody waits, no registration, no count and no fetch is left |
| SingleFlight.ServedFromCache | src/cimd/resolve.ts:211-248 | over every interleaving an arriving caller is served without a fetch if and only if the document held under its id is fresh, and that document was fetched for that id |
| DocumentLife.FetchedIsServed | src/cimd/resolve.ts:211-248 | in every interleaving, after a fetch brought a document that is fresh on receipt, and any steps in which the clock goes forward and fewer than maxEntries other documents are served or brought fresh, an arrival for it is served exactly that document if and only if it is still fresh |
| DocumentLife.StaleIsNotHeld | src/cimd/resolve.ts:234-248 | a fetch that fails or brings a document that is not fresh on receipt leaves the held documents as they were |
| IpText.ParseIpv4 | src/cimd/blocklist.ts:43-55 | the loop fills the array with the four values, or refuses |
| IpText.V4Exact | src/cimd/blocklist.ts:43-55 | the accepted texts are exactly the printed addresses without leading zeros, each read as itself |
| IpText.ParseIpv6 | src/cimd/blocklist.ts:57-87 | rewriting the dotted tail, splitting at the one "::" and filling the array compute the specified bytes |
| IpSpelling.SpellingsParse | src/cimd/blocklist.ts:57-94 | every spelling of eight words (any zero run as "::", leading zeros, either case, dotted tail) parses to their sixteen bytes (section 2.2 of RFC 4291) |
| IpSpelling.V6Exact | src/cimd/blocklist.ts:57-94 | a text parses to given bytes if and only if it is a spelling of them |
| CidrRange.Contains | src/cimd/blocklist.ts:108-117 | the byte-and-mask test holds if and only if the two addresses agree after integer division by 2^(width - prefix) |
| CidrRange.ParseIpExact | src/cimd/blocklist.ts:19-26 | dotted texts are read as IPv4, spellings as IPv6, neither as the other, and nothing else is read |
| CidrRange.BlockedIsNumeric | src/cimd/blocklist.ts:28-36 | an address is blocked if and only if its number lies in a block of its family, the loopback allowance aside |
| CidrRange.AllowedExactlyOutside | src/cimd/blocklist.ts:38-41 | a text passes if and only if it denotes an address outside every block of its family, or, where loopback is allowed, one of 127.0.0.0/8 or the IPv6 address with the number 1 |
| Bits.AndMask | src/cimd/blocklist.ts:115-116 | masking off the last bits of a number subtracts them |
| ScopeGraph.HierarchyImplies | src/scope-hierarchy.ts:82-100 | the worklist search ends on every graph, cyclic or not, and answers true if and only if the required scope is reachable from a granted one |
| ScopeGraph.CycleCheck.Visit | src/scope-hierarchy.ts:105-112 | an error means a cycle; otherwise the scope and all it implies are finished and the visits under way are as before |
| ScopeGraph.CycleCheck.AssertAcyclic | src/scope-hierarchy.ts:102-114 | a graph is accepted if and only if it has no directed cycle |
| ScopeGraph.ImplicationIsPartialOrder | src/scope-hierarchy.ts:82-114 | among accepted policies implication is reflexive, transitive and antisymmetric |
| ScopeGraph.ImpliedIsMonotone | src/scope-hierarchy.ts:82-100 | grants that imply more scopes never lose an implied one |
| SecretRemoval.RemoveExactSecrets | src/audit/util.ts:119-126 | the fixpoint loop ends, its result is a subsequence of the input in which no secret occurs, even one formed by a deletion, and an input free of secrets is unchanged |
| SecretRemoval.WithoutDeletes | src/audit/util.ts:123 | one split and join deletes characters only, and changes nothing if and only if the secret does not occur |
| SecretRemoval.CoverSecret | src/audit/util.ts:100-105 | the search covers the start of every occurrence, overlapping ones included, and only places of occurrences |
| SecretRemoval.RedactSecretsAndExact | src/audit/util.ts:86-117 | the output is the source without the covered places: every match of a pattern, the start of every secret, and no place without such a reason |
| SecretRemoval.SafeErrorForStderr | src/audit/util.ts:64-80 | on every return path no configured secret, nor its single-line form, and no control character occurs in the diagnostic; a harmless message comes out as the first 200 characters of its single line, trimmed; of any other only matches, covered places and leftover secrets are missing |
| SecretRemoval.SecretsAreLongestFirst | src/audit/util.ts:65-68 | the list of secrets holds every value and its single-line form but empty ones, each once, the longest first |
| SecretRemoval.RunBecomesSpace | src/audit/util.ts:133 | a run of line breaks becomes one space, and the texts around it are read on their own |
| JsonlAudit.WriteCompleteLine | src/audit/jsonl-file.ts:188-202 | the loop over short writes appends exactly the counted prefix of the line and reports whether it is all, some or none |
| JsonlAudit.RollbackPartialLine | src/audit/jsonl-file.ts:206-215 | true if and only if the truncation was done and both stats succeeded |
| JsonlAudit.JsonlFileAudit.AppendEvent | src/audit/jsonl-file.ts:94-131 | file and disabled flag after one event, for every pattern of failures |
| JsonlAudit.AppendByOutcome | src/audit/jsonl-file.ts:94-131 | by what the system does: nothing is written unless a regular file opens without following a link, a full line lands, and a part of one is taken back or disables the sink |
| JsonlAudit.FileHoldsRecords | src/audit/jsonl-file.ts:83-131 | after every sequence of events the file is its initial content, the lines of the events that landed, in order, and at most the fragment of the one event that disabled the sink |
| JsonlAudit.DisabledIsFinal | src/audit/jsonl-file.ts:94-95 | a disabled sink never writes again |
| JsonlAudit.NoRecordJoinsAFragment | src/audit/jsonl-file.ts:188-215 | over any initial content, splitting the file at its line ends gives the old pieces and then the records, each on its own line, with a fragment only behind the last; only the last old piece is joined to what follows it |
| JsonlAudit.FirstRecordStandsAlone | src/audit/jsonl-file.ts:94-131 | the first record stands alone on its line if and only if the file was empty or ended in a line end |

## Left out

- Framework adapters, HTML pages, cookies and headers, the init command and its templates: input and output only.
- JWT signing and verification, SHA-256, PKCE hashing and timing-safe comparison: foreign code, taken as unforgeable consents, injective digests and truth values.
- The SQL and Redis stores: their atomicity is the database's.
- Identity providers, discovery, JWKS, DNS and TLS transport: a metadata fetch is one arbitrary outcome.
- URL parsing and the redirect grammar: their parser is not part of this model.
- HTTP-date parsing: a Date field is absent, malformed, or a time in milliseconds.
- The regular expressions of src/audit/util.ts other than the line-break class: their matches are arbitrary spans.
- Accessor, proxy and prototype defences, configuration validation and the emission of audit events.
- Console pairing, machine clients and fixed-window limiters: smaller state machines.
- The concrete address ranges of src/cimd/blocklist.ts:132-145: the ranges are a parameter.
- Legacy rows without a resource or with a malformed generation: the in-process store never writes them, so a resource is always text.
- Timestamps that have the accepted form but name no real date, such as month 13: every stored time is the text of a time.
- Closing the store inside an interleaved run, and two bridges with different resources over one store: `GrantSystem` has one configuration. The store-level results cover closing.
- Preparing a consent (src/authorize.ts:107-190) as a method: it is a step of `GrantSystem`; what is displayed and audited is not modelled.
- Log rotation between two audit events, and a second writer on the same file: `JsonlAudit` follows one file with one writer.
- The one-shot notification of a disabled audit sink.
- SweepInvisible.SweepingIsInvisible: does not cover findRefreshToken, which tells every swept row from a stored one; SweepInvisible.SweepsShowExactlyWhenAffected covers it.
- SingleFlight.WaitersAreBounded: counts callers of outstanding fetches; callers of a settled fetch that have not resumed yet are not waiting on it.
- UseCases.OAuthTokenUseCase.RotateRefreshTokenSnapshot: does not say which error is thrown on, only that one is.
