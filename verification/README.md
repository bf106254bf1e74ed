# x402-validator-tools: verification

This project models the stateful core of the x402 validator tools (the `api_server` service,
its migration script and three of its client examples) and proves what those components
promise over whole runs.  Each module follows one source component.  Where the source updates
objects, dictionaries or deques in place, the model is a class or a method with a loop, proved
against a specification function; what the component promises is then proved about that
function, over every run and every interleaving.

| module | component |
|---|---|
| `RateLimit` | the sliding-window limiter, against the full history of attempts |
| `AuditCache` | the bounded TTL cache, against an unbounded last-write map |
| `KeyRotation` | versioned signing keys and verification at a past moment |
| `Nonces` | issue, validate, mark used, clean up |
| `Database`, `Webhook` | the tables with their constraints and transactions; Stripe deliveries, step by step, interleaved with everything else |
| `Quota` | the monthly quota with requests in flight |
| `JsonStore`, `Migration`, `AfterMigration` | the JSON key store with crash points; copying it into the database; deliveries on tables that were filled that way |
| `Surcharge` | the reuse surcharge tiers |
| `ColdProbe` | the retry loop |
| `Base64`, `Challenge` | the encoded payment challenge and its decoding |
| `BatchSettlement` | the batch-settlement checker, against declarative rules |
| `FacilitatorEvents`, `FacilitatorReuse`, `FacilitatorBuckets`, `FacilitatorReport`, `FacilitatorFigures` | deduplication, reuse counters, breakdowns, merging, balances, the report; its figures read off the inputs |
| `Wrappers`, `Text`, `Json`, `JsonText`, `Wires`, `Sorting`, `Arithmetic` | Option and Result, ASCII strings and decimal numerals, JSON values, a codec and an encoding that meet the hypotheses on JSON text, Python's stable sort and folds, powers and products |

## Assumptions

Each is a parameter or a precondition of the theorems that need it.

- Clocks never run backwards and limiter calls are serial (`RateLimit`, `AuditCache`, `KeyRotation`, `Nonces`).
- Random tokens and nonces are not drawn twice: `Nonces.FreshNonces`, and a token not yet in
  the key table where a theorem says that a sale succeeds.  A token that does repeat is a
  uniqueness violation, which the steps of `Webhook` cover.
- What a JSON printer prints is read back (`Json.Faithful`), text is decoded as it was encoded,
  and reading a numeral of more than 4300 digits fails (`Wires.Undoes`).  JSON numbers are the
  integers Python converts to and from text and the floats it reads, so this can be met:
  `JsonText.FaithfulCodecsExist` and `Wires.WiresExist` construct a codec and a wire that do.
- How the database takes values that are not text is a parameter of the migration (`Migration.Driver`).
- Replies of the network, random draws, and the moment at which a crash or a database fault
  strikes are arbitrary.

## Where the code differs from what is said about it

- The webhook is described as idempotent (`api_server/app.py:3659-3662`).  It is while the
  claim lives; once the key of a session has been revoked the claim is gone with it, and the
  next delivery of the same event sells another key (`Webhook.RevokedSessionSellsAgain`).
  `Webhook.SalesAreConserved` says exactly how many sales there can be.
- `revoke_key` does not look at the state, so a second revocation moves `revoked_at` and changes
  answers about the past (`KeyRotation.RevokingAgainRewritesThePastIff` says for which moments,
  `RunChangesPastIff` for which runs).
- `cleanup_expired` never changes whether a nonce is accepted, but it does change the stated
  reason (`Nonces.ReasonDiffersIffDropped`, `ForgottenIffCleanedLate`).
- The cache evicts before it looks whether the key is already stored, so refreshing a key can
  drop another live entry (`AuditCache.RefreshLosesLiveIff` says exactly when,
  `AuditCache.RefreshExample` and `TieExample` give caches); with a capacity below 1, `set` fails with ValueError.
- The batch-settlement evaluator raises TypeError when an `assetTransferMethod` is a list or an
  object, because it is looked up in a frozenset, and ValueError when a `withdrawDelay` is a
  numeral of more than 4300 digits, because `int` refuses it (`BatchSettlement.Evaluate`,
  `TypeErrorExample`, `ValueErrorExample`).
- The URL-safe fallback of the token decoder is reached only when the lenient decoder fails.  A
  URL-safe token whose '-' and '_' can be dropped without leaving an incomplete group is decoded
  to something shorter instead (`Base64.UrlSafeRoundTripIff`, `Base64.UrlSafeTokenIsLost`).
- A probe that runs out of attempts reports status 0 whatever the last answer was, and an early
  exception is still reported beside a later 402 (`ColdProbe.Probe`, `ErrorSurvivesIff`).
- A transaction with an unnamed endpoint shows (1, 1) instead of its row in the reuse table
  (`FacilitatorReport.TransactionShowsItsRowIff`, `UnnamedEndpointExample`), and one whose wallet
  only the chain names shows (1, 1) without having a row (`DerivedWalletExample`).
- A key store file that is not JSON loads as empty, but loading fails when reading it raises
  anything else (it is not UTF-8, has an over-long numeral, or nests too deeply), and when its
  `keys` or `claims` is there but not an object (`JsonStore.LoadFailsIff`, `LongNumeralExample`,
  `MisshapenExample`).

## Model

| member | source | states |
|---|---|---|
| RateLimit.SlidingWindowBound | api_server/ratelimit.py:45-58 | In any history the limiter can produce with limits up to L, no closed interval as long as the window admits more than L requests |
| RateLimit.WholeRunBound | api_server/ratelimit.py:40-74 | The same for every serial run of allow, remaining and reset calls over all keys, with limits that vary from call to call; a reset forgets, so the bound covers the attempts since the last reset of the key |
| RateLimit.VerdictsAreReadOff | api_server/ratelimit.py:40-74 | Read off the calls: the history of a key is one attempt for each call of allow since its last reset, admitted or not, and a call is admitted exactly when fewer calls than its limit lie in its window before it |
| RateLimit.RunsAreDisciplined | api_server/ratelimit.py:45-58 | Every run leaves, per key, a time-ordered history in which a request was admitted exactly when the attempts before it left room |
| RateLimit.KeysAreIndependent | api_server/ratelimit.py:50-57 | What a key is answered depends only on the calls that concern that key |
| RateLimit.RoomIffLimitBackIsOld | api_server/ratelimit.py:53-58 | Rejected attempts count: there is room exactly when fewer than L attempts were made or the attempt L calls back has left the window |
| RateLimit.KeptDropFront | api_server/ratelimit.py:40-43 | Popping an old front entry loses no entry of the window |
| RateLimit.KeptAll | api_server/ratelimit.py:40-43 | Once the front of the ordered deque is recent, all of it is, so the trimming loop may stop |
| RateLimit.TrimmedBucket | api_server/ratelimit.py:40-52 | On access the trimmed bucket is exactly the attempts of the window, whatever was trimmed before, and every other bucket stays faithful |
| RateLimit.AllowedBucket | api_server/ratelimit.py:45-58 | After a call to allow every bucket still tracks its history, admitted or rejected |
| RateLimit.BucketIsFilteredHistory | api_server/ratelimit.py:45-58 | With a window that is not negative the deque after allow is the full history filtered to the window |
| RateLimit.IpRateLimiter.constructor | api_server/ratelimit.py:29-38 | A new limiter has an empty history |
| RateLimit.IpRateLimiter.Trim | api_server/ratelimit.py:40-43 | The loop keeps exactly the entries not older than the cutoff |
| RateLimit.IpRateLimiter.Allow | api_server/ratelimit.py:45-58 | Admits exactly when the window has fewer attempts than the limit; one attempt is added to the history of the key, with its time, limit and answer, either way |
| RateLimit.IpRateLimiter.Remaining | api_server/ratelimit.py:60-66 | Positive exactly when an allow at that instant would succeed; trims but records nothing |
| RateLimit.IpRateLimiter.Reset | api_server/ratelimit.py:68-74 | Forgets one key and leaves every other bucket tracked |
| RateLimit.IpRateLimiter.ResetAll | api_server/ratelimit.py:68-72 | Forgets everything |
| AuditCache.CacheRefinesLastWrites | api_server/audit_cache.py:94-132 | After any run every stored entry is the last write of its key, and the size is within max_entries |
| AuditCache.HitIsLatestWrite | api_server/audit_cache.py:94-128 | Read off the calls: a hit was stored by an earlier set of that key with that payload, no storing call of the key and no clear came in between, and the time of the get is less than the time of that set plus its lifetime |
| AuditCache.StoringMeans | api_server/audit_cache.py:112-116 | A call stores exactly when it is a set, caching is on, and its own lifetime, if it has one, is positive |
| AuditCache.StoreMeans | api_server/audit_cache.py:117-128 | A set that stores puts in its payload, to expire after its lifetime; with room left it drops nothing; else it drops all that have expired, and if those left still fill the cache one more, which expires first |
| AuditCache.PlacesAreKept | api_server/audit_cache.py:128 | While there is room a set keeps every place in the order of insertion |
| AuditCache.TiesGoToTheFirst | api_server/audit_cache.py:125 | Everything inserted before the entry that min finds expires later |
| AuditCache.LiveLossIsOldest | api_server/audit_cache.py:119-127 | A live entry is lost to another key only when no expired entry is left, the cache is still full, and nothing expires sooner; all else stays |
| AuditCache.FullRoom | api_server/audit_cache.py:119-127 | What set leaves of a cache that is full without its expired entries: all of those but one that expires first, and the new entry |
| AuditCache.NewKeyLosesLiveIff | api_server/audit_cache.py:119-127 | Storing under a new key loses a live entry exactly when the cache is full of live ones |
| AuditCache.AfterIsStep | api_server/audit_cache.py:94-132 | What the cache does, keeping the order of insertion, is one of the steps the theorems about runs allow |
| AuditCache.AfterAllRuns | api_server/audit_cache.py:94-132 | So the states of every run of the cache are a run in their sense |
| AuditCache.FirstOldest | api_server/audit_cache.py:125 | The first inserted of the entries that expire first |
| AuditCache.FullAfter | api_server/audit_cache.py:119-127 | A set on a cache full of live entries drops the one that min finds, and then stores |
| AuditCache.RefreshLosesLiveIff | api_server/audit_cache.py:119-127 | Refreshing a key loses another live entry exactly when the cache is full of live entries and the key itself is not the one that min finds |
| AuditCache.TieExample | api_server/audit_cache.py:125 | Of two entries that expire together the first inserted goes: refreshing the second loses the first, refreshing the first loses nothing |
| AuditCache.RefreshExample | api_server/audit_cache.py:119-127 | A full cache of two entries: refreshing the younger leaves only that one |
| AuditCache.OverwriteAtCapacityShrinks | api_server/audit_cache.py:119-127 | Refreshing a key of a full live cache, if it is not the first to expire, also leaves the cache one smaller |
| AuditCache.EntriesComeFromSets | api_server/audit_cache.py:111-128 | Whatever is stored was put there by a set call of that key, with that payload and expiry |
| AuditCache.EntryStays | api_server/audit_cache.py:119-127 | An undisturbed entry stays stored while fewer than max_entries sets follow it, and at most that many entries expire later |
| AuditCache.Retention | api_server/audit_cache.py:94-128 | Until it expires, an entry is returned as long as fewer than max_entries set calls have followed it |
| AuditCache.MadeRoomShrinks | api_server/audit_cache.py:119-126 | Making room only removes entries and leaves a free place |
| AuditCache.AuditResponseCache.constructor | api_server/audit_cache.py:83-92 | A new cache is empty |
| AuditCache.AuditResponseCache.Get | api_server/audit_cache.py:94-109 | Answers the stored payload exactly when there is one under the key whose expiry is still to come; removes that entry, and only that, when it has expired |
| AuditCache.AuditResponseCache.Pop | api_server/audit_cache.py:104-123 | Removes the given keys and keeps the order of the others |
| AuditCache.AuditResponseCache.Set | api_server/audit_cache.py:111-128 | Skipped without change when caching is off or the lifetime is not positive; ValueError, with nothing left, from an empty minimum; else the payload is stored to expire after its lifetime, and what went is what making room takes, order of insertion included |
| AuditCache.AuditResponseCache.Store | api_server/audit_cache.py:118-128 | The part under the lock: room is made, then the entry is assigned |
| AuditCache.AuditResponseCache.Assign | api_server/audit_cache.py:128 | A key that is there keeps its place |
| AuditCache.AuditResponseCache.MakeRoom | api_server/audit_cache.py:119-126 | Drops expired entries first, then one with the earliest expiry, and only as far as needed |
| AuditCache.AuditResponseCache.FindOldest | api_server/audit_cache.py:125 | The minimum by expiry, the first inserted of several |
| AuditCache.AuditResponseCache.Clear | api_server/audit_cache.py:130-132 | Empties the cache |
| KeyRotation.NewestUsable | examples/key_rotation.py:168-191 | The answer for a moment is the newest version created by then and not rotated, revoked or expired by then, or none if there is none |
| KeyRotation.NewestUsableUnique | examples/key_rotation.py:169-189 | That version is the only one with this description |
| KeyRotation.ApplyCoherent | examples/key_rotation.py:41-134 | Every update keeps state names and timestamps in agreement |
| KeyRotation.SameUsableSameAnswer | examples/key_rotation.py:169-191 | Answers depend only on which versions are usable at the moment |
| KeyRotation.OneStepKeepsPast | examples/key_rotation.py:41-134 | Adding, rotating, and revoking what is not revoked change no answer about an earlier moment, and never the material of a version |
| KeyRotation.HistoryIsStable | examples/key_rotation.py:41-191 | The same over every run with a clock that does not run backwards |
| KeyRotation.RevokingAgainRewritesThePastIff | examples/key_rotation.py:113-134 | Revoking again changes the answer for a past moment exactly when the version was unusable then only because it was already revoked |
| KeyRotation.StepChangesPastIff | examples/key_rotation.py:113-134 | One step changes the answer for an earlier moment exactly when it revokes again such a version, and then the answer moves to a newer version |
| KeyRotation.RunChangesPastIff | examples/key_rotation.py:41-191 | Over any run the answer for a moment before it changes exactly when some step does so; a changed answer never changes back, and material never changes |
| KeyRotation.DoubleRevocationExample | examples/key_rotation.py:126-131 | A concrete key, revoked at 10 and at 20, that answers again for 15 |
| KeyRotation.UsableMeans | examples/key_rotation.py:168-189 | Usable at a moment: created by then, and no deadline (rotation, revocation, expiry) has come |
| KeyRotation.HitVersionStopsAnswering | examples/key_rotation.py:80-134 | From a successful rotation or a revocation on, the version it hit answers for no moment; what is left to answer are the versions before it |
| KeyRotation.UnhitStays | examples/key_rotation.py:41-134 | No update changes a version it does not hit |
| KeyRotation.RotatedStaysUnusable | examples/key_rotation.py:80-191 | Over any later run a rotated version keeps the time of its rotation and answers for no moment from then on |
| KeyRotation.RevokedStaysUnusable | examples/key_rotation.py:113-191 | Over any later run a revoked version answers for no moment from its last revocation on |
| KeyRotation.ReceiptStillVerifies | examples/key_rotation.py:41-220 | A receipt signed after a key was added, before it expires and before the next update, is verified with that very key for ever, whatever additions, rotations and revocations (repeated ones too) follow |
| KeyRotation.KeyVersion.constructor | examples/key_rotation.py:20-31 | The fields are those of the version |
| KeyRotation.KeyStore.constructor | examples/key_rotation.py:37-39 | A new store is empty |
| KeyRotation.KeyStore.AddKey | examples/key_rotation.py:41-78 | Appends a new valid version with the given material and expiry, created now and neither rotated nor revoked, returns that very object, changes no other key, and logs it |
| KeyRotation.KeyStore.RotateKey | examples/key_rotation.py:80-111 | Succeeds exactly when both keys have versions and the newest of the old key is valid; then that version is rotated, at this time, with its successor; no other object changes; logged on success |
| KeyRotation.KeyStore.RevokeKey | examples/key_rotation.py:113-134 | Succeeds exactly when the key has versions, in whatever state; then the newest is revoked, at this time, for this reason; no other object changes; logged on success |
| KeyRotation.KeyStore.OthersUntouched | examples/key_rotation.py:120-131 | Overwriting one version object changes one place of the store, since no object is shared |
| KeyRotation.KeyStore.Log | examples/key_rotation.py:247-253 | Appends one entry to the history |
| KeyRotation.KeyStore.GetKeyAt | examples/key_rotation.py:167-191 | The backward scan returns the newest version that was created by the moment and whose rotation, revocation and expiry are all still to come, or none if there is none |
| KeyRotation.KeyStore.GetKeyNow | examples/key_rotation.py:159-165 | Without a time only the newest version counts, and only if it is valid |
| KeyRotation.KeyStore.ExportKeystore | examples/key_rotation.py:222-232 | Exports the fields of every version of every key, the history and the time |
| KeyRotation.KeyStore.ImportKeystore | examples/key_rotation.py:234-245 | Data without a keystore entry is refused; otherwise imported keys are bound to new objects with the imported fields and replace what was there, other keys stay, and an imported history replaces the old one |
| KeyRotation.KeyStore.Bind | examples/key_rotation.py:238-242 | Binding one key to other objects changes the store at that key only |
| Nonces.TrackedWasIssued | examples/nonce_helpers.py:42-60 | Whatever is tracked was issued, with the lifetime of the manager |
| Nonces.SuccessWasIssuedInTime | examples/nonce_helpers.py:62-95 | A successful mark consumes a nonce issued earlier and not past its expiry |
| Nonces.ConsumedStaysConsumed | examples/nonce_helpers.py:82-107 | After a successful mark the nonce is used or forgotten for ever |
| Nonces.SingleUse | examples/nonce_helpers.py:82-95 | Over every run no nonce is successfully marked twice |
| Nonces.StepShadows | examples/nonce_helpers.py:97-107 | One step keeps the cleaned table equal to the complete one up to expired nonces, and answers alike |
| Nonces.RunShadows | examples/nonce_helpers.py:97-107 | The same over every run |
| Nonces.CleanupIsInvisible | examples/nonce_helpers.py:97-107 | Runs that differ only in where cleanup is called accept and refuse the same requests |
| Nonces.IssuedStaysTracked | examples/nonce_helpers.py:42-60 | Without cleanup everything issued stays tracked |
| Nonces.ReasonDiffersIffDropped | examples/nonce_helpers.py:62-80 | The stated reason differs exactly for a nonce that was issued and is tracked no more: "not found" instead of "expired" |
| Nonces.ForgottenIffCleanedLate | examples/nonce_helpers.py:97-107 | An issued nonce is tracked no more exactly when a cleanup ran after its expiry |
| Nonces.ReasonDiffersExample | examples/nonce_helpers.py:68-75 | A concrete run in which the reason differs |
| Nonces.VerdictIsReadOff | examples/nonce_helpers.py:62-107 | Read off the calls: an issued nonce is accepted up to and including its expiry as long as nobody asked to mark it, is called used from then on, is expired after its expiry, and not found exactly when a cleanup ran after it |
| Nonces.NeverIssuedIsUnknown | examples/nonce_helpers.py:68-70 | A nonce that was never issued is not found |
| Nonces.NonceRecord.constructor | examples/nonce_helpers.py:20-27 | A new record is unused |
| Nonces.NonceManager.constructor | examples/nonce_helpers.py:33-40 | A new manager tracks nothing |
| Nonces.NonceManager.GenerateNonce | examples/nonce_helpers.py:42-60 | Tracks a new unused record that expires after the lifetime |
| Nonces.NonceManager.ValidateNonce | examples/nonce_helpers.py:62-80 | Accepts exactly a tracked nonce that is not past its expiry and not used; existence, then expiry, then single use decide the reason |
| Nonces.NonceManager.MarkNonceUsed | examples/nonce_helpers.py:82-95 | Succeeds exactly when validation does, and then that record is used, with the time; no other record changes |
| Nonces.NonceManager.CleanupExpired | examples/nonce_helpers.py:97-107 | Removes exactly the records whose expiry has passed, and counts them |
| Database.PurchaseSucceedsIffUnclaimed | api_server/dbkeystore.py:47-55 | With an unused token, recording a purchase succeeds exactly when the session has no claim (and, for linking, the account exists) |
| Database.IssueIsConsistent | api_server/dbkeystore.py:164-187 | Issuing keeps foreign keys intact and every claim in agreement with the plan, and the customer, of its key |
| Database.LinkIsConsistent | api_server/auth.py:293-321 | Linking a purchase does too |
| Database.KeyDeletionIsConsistent | api_server/dbkeystore.py:189-195 | Deleting a key does too, because its claims go with it |
| Database.DeletedKeyIsGone | api_server/dbkeystore.py:189-195 | A deleted key is gone and so are the claims on it; every other key, every other claim and all users are unchanged |
| Database.PurchaseIsRecorded | api_server/auth.py:293-321 | What a purchase puts into the tables, and nothing else: the key with plan, customer and owner, the claim on it, and the upgraded account |
| Database.Tables.constructor | api_server/dbkeystore.py:37-71 | The tables start empty |
| Database.Tables.ExecInsertKey | api_server/dbkeystore.py:173-178 | The insert obeys the primary key and the owner reference, or changes nothing |
| Database.Tables.ExecInsertClaim | api_server/dbkeystore.py:180-186 | The insert obeys the primary key and the key reference, or changes nothing |
| Database.Tables.Issue | api_server/dbkeystore.py:164-187 | Key and, for a checkout, its claim, both or neither: exactly when the token is new and the session unclaimed; no other row changes |
| Database.Tables.LinkPurchase | api_server/auth.py:293-321 | Key, claim and plan upgrade, all or none: exactly when the token is new, the account exists and the session is unclaimed; a known customer id survives a missing one |
| Database.Tables.Revoke | api_server/dbkeystore.py:189-195 | Afterwards the key is gone, no claim on it is left, every other key and claim and all users are as before; says whether it existed |
| Database.Tables.RevokeByKid | api_server/auth.py:263-279 | Deletes a key, with its claims, exactly when the user owns one with that id; every other row is as before |
| Database.Tables.ClaimBySession | api_server/dbkeystore.py:199-216 | The claim of the session, if it has one |
| Database.Tables.Claim | api_server/dbkeystore.py:218-225 | Stamps an existing claim |
| Webhook.ResolvePlan | api_server/app.py:3689-3699 | The metadata plan if known, else the paid plan with that price, else none |
| Webhook.StartInv | api_server/app.py:3653-3735 | The empty store satisfies the invariant |
| Webhook.StepInv | api_server/app.py:3679-3731 | Every step of any delivery, with faults before or after a commit, and every revocation, key issue, view and sign-up keeps the invariant |
| Webhook.RunsKeepInv | api_server/app.py:3679-3731 | So does every interleaving |
| Webhook.KeyChanges | api_server/dbkeystore.py:164-195 | Only an insertion of its token creates a key, only a revocation of it takes one away, and no step rewrites a key |
| Webhook.KeyStaysUntilRevoked | api_server/dbkeystore.py:164-195 | Over every interleaving a key stays, with its row, until it is revoked |
| Webhook.LiveKeyWasInserted | api_server/dbkeystore.py:164-195 | Over every interleaving, a live key that was not there before was inserted by some step, and no later step has revoked it |
| Webhook.DroppedKeyIsGone | api_server/dbkeystore.py:189-195 | A sold key that was revoked is live again only if a step after the revocation inserts the same token once more |
| Webhook.RevokedKeyIsGone | api_server/dbkeystore.py:189-195 | A revoked key is gone from every later state unless a later step inserts its token |
| Webhook.ResolveDecides | api_server/app.py:3684-3729 | A look at Stripe that fails or names no plan ends the delivery without a key; else it goes on with the resolved plan and the customer, and to the account named exactly if there is such a user |
| Webhook.StepTold | api_server/app.py:3684-3729 | Every step keeps: a delivery about to sell carries the plan, customer and account of what its own look at Stripe said |
| Webhook.RunTold | api_server/app.py:3684-3729 | So does every interleaving |
| Webhook.EverySaleIsWhatStripeSaid | api_server/app.py:3684-3731 | Every claim that ever appears, in whatever interleaving and with whatever faults, is of the plan, customer and session Stripe reported to the delivery that made it, on a new key of that plan and customer; its owner, if any, is the account named, upgraded; nothing else changes |
| Webhook.AsideWrites | api_server/dbkeystore.py:164-225 | What the other steps write: a key for whoever asks, a stamp, a new user, and nothing else |
| Webhook.FaultsLoseTheAnswer | api_server/app.py:3718-3729 | A lost answer loses nothing else: the tables are as if it had arrived, and the delivery goes on as after a failure |
| Webhook.TablesFitIff | api_server/app.py:3679-3731 | Tables are those of a state that satisfies the invariant exactly when foreign keys hold, claims show the plans of their keys, and no key is shown twice |
| Webhook.OneLiveKeyPerSession | api_server/app.py:3679-3731 | In every reachable state a session has at most one live key; its claim points to it and shows its plan |
| Webhook.ClaimsPointToLiveKeys | api_server/dbkeystore.py:47-55 | In every reachable state a claim points to a live key of the same plan, sold in this session |
| Webhook.SalesAreConserved | api_server/app.py:3679-3731 | The sales of a session are its revoked keys plus its live claim, so at most one more delivery than there were revocations reports a mint |
| Webhook.MintedAtMostOnce | api_server/app.py:3677-3682 | Without a revocation at most one delivery of a session ever reports minted=True |
| Webhook.MintedMeansClaimed | api_server/app.py:3707-3731 | The step at which a delivery comes to report minted=True leaves a claim on a new live key of the resolved plan and customer, owned by the upgraded account if linked |
| Webhook.FailedLinkLosesNothing | api_server/app.py:3713-3731 | A link that does not commit leaves no key, claim or plan change, and the fallback then mints unless somebody else claimed the session |
| Webhook.ClaimedSessionIsSettled | api_server/app.py:3677-3682 | While a session is claimed none of its deliveries changes a table or reports a mint |
| Webhook.AloneMintsIffUnclaimed | api_server/app.py:3653-3735 | A delivery on its own mints exactly when the plan resolves and no claim is live |
| Webhook.AloneSellsWhatStripeSaid | api_server/app.py:3684-3731 | What it then sells is what Stripe said, to the account named exactly if there is such a user, and else nothing changes |
| Webhook.RevokedSessionSellsAgain | api_server/app.py:3659-3682 | After the key of a session is revoked the next delivery sells again, where before it did not |
| Webhook.StripeWebhook | api_server/app.py:3653-3735 | The handler, undisturbed: mints exactly when the session has no claim and the plan resolves; then the claim has the resolved plan, the new token, the customer Stripe gave and this time, the key row the same plan and customer and as owner the account named if there is such a user, who gets the plan and keeps a known customer id if none is given; everything else is unchanged |
| Webhook.SellInv | api_server/app.py:3726-3731 | A committed sale keeps the invariant |
| Webhook.RevokeInv | api_server/dbkeystore.py:189-195 | A revocation keeps the invariant |
| Quota.UsageSinceIsIn | api_server/dbkeystore.py:289-297 | With no row from the future, "since the start of the month" counts this month |
| Quota.UsageIsCount | api_server/dbkeystore.py:289-297 | Usage is the number of rows of the caller since the start of the month |
| Quota.StepMeans | api_server/app.py:3308-3397 | A request takes off exactly when its plan is not listed or the usage is below the plan; only the end of an audit writes a row of its caller; a request stays in flight until it ends |
| Quota.StepBounded | api_server/app.py:3308-3397 | Each step keeps recorded usage plus requests in flight below the bound |
| Quota.RunsBounded | api_server/app.py:3308-3397 | So does every run |
| Quota.QuotaUnderConcurrency | api_server/app.py:3308-3397 | With at most C requests of a key in flight no month records more than quota - 1 + C of its audits, across failures, cache hits, lost rows and month rollovers |
| Quota.QuotaBoundIsReached | api_server/app.py:3308-3397 | For every plan and every C of at least 1 some run reaches that bound |
| Quota.AuditLog.constructor | api_server/dbkeystore.py:57-68 | The log starts empty |
| Quota.AuditLog.RecordAudit | api_server/dbkeystore.py:246-287 | Appends one row or, on a database error, nothing |
| Quota.AuditLog.UsageThisMonth | api_server/dbkeystore.py:289-297 | Counts the rows of the caller since the start of the month |
| Quota.AuditLog.QuotaAllows | api_server/dbkeystore.py:299-304 | True for an unlisted plan, else exactly while usage is below the limit |
| Quota.MonthlyLimit | api_server/models.py:38-59 | The monthly audits of the three listed plans, and no limit for any other |
| JsonStore.MigrateReadsBack | api_server/keystore.py:44-69 | Migration is the identity on what a save writes |
| JsonStore.MigrateIsIdempotent | api_server/keystore.py:44-69 | Migrating twice is migrating once |
| JsonStore.MigrateKeeps | api_server/keystore.py:44-69 | Of a file with objects under keys and claims the entries of the right type are kept, of a flat file of strings all of it, as keys; any other value counts as empty |
| JsonStore.EffectMeans | api_server/keystore.py:119-175 | Issuing writes the plan under the token and, for a checkout, a claim of exactly five fields; revoking takes the key and the claims on it and leaves every other key and claim as it was; marking writes the time into that claim |
| JsonStore.SalesSurvive | api_server/keystore.py:119-175 | From the return of an issue on, over every run with any number of crashes, the file holds the key with its plan and the claim with its buyer, as long as no operation on that token or session replaces them or takes them back |
| JsonStore.LoadFailsIff | api_server/keystore.py:44-80 | Loading fails exactly when reading the file is refused (not UTF-8, an over-long numeral, too deep) or it is an object whose keys or claims is there and not an object; a missing file and one that is not JSON load as empty |
| JsonStore.MisshapenExample | api_server/keystore.py:58-69 | The file {"keys": null} makes loading fail |
| JsonStore.LongNumeralExample | api_server/keystore.py:76-79 | A file with a number of 4301 digits makes loading fail |
| JsonStore.SaveThenLoad | api_server/keystore.py:72-87 | A finished save followed by a load gives the saved store |
| JsonStore.CrashIsAllOrNothing | api_server/keystore.py:83-87 | Wherever an operation stops, the next start sees the store before it, or after it exactly when the rename happened |
| JsonStore.AfterKeepsClaimsBound | api_server/keystore.py:119-175 | Every operation keeps each claim on a present key |
| JsonStore.NothingHandedOutIsLost | api_server/keystore.py:119-175 | From any file that loads, over every run with any number of crashes, the file stays loadable, tokens handed out and not revoked are still there, and claims refer to present keys |
| JsonStore.RedeliverySellsOnce | api_server/app.py:3677-3731 | However often a checkout is redelivered and wherever each attempt crashes, the store ends with the key and claim of the first durable attempt and with no other; a session claimed before gets nothing |
| JsonStore.FirstDurable | api_server/keystore.py:83-87 | The first attempt that lived to rename its file |
| JsonStore.AfterKeys | api_server/keystore.py:119-175 | Issuing adds one key, revoking removes one, marking changes none |
| JsonStore.KeyStore.constructor | api_server/keystore.py:93-97 | A store started on a file that loads mirrors it |
| JsonStore.KeyStore.WriteFile | api_server/keystore.py:83-87 | The file actions of a save, cut off at any of them |
| JsonStore.KeyStore.IssueKey | api_server/keystore.py:119-143 | Disk and memory after issuing, stopped anywhere; when it returns, the key has the plan and the claim the five fields, and nothing else has changed |
| JsonStore.KeyStore.RevokeKey | api_server/keystore.py:145-157 | Disk and memory after revoking: the key and the claims on it are gone, all others are as before; an unknown key changes nothing |
| JsonStore.KeyStore.MarkSession | api_server/keystore.py:167-175 | Disk and memory after marking: the time is in the claim and nothing else has changed; a missing or empty claim changes nothing |
| Migration.MigratesIff | scripts/migrate_keystore_to_db.py:69-88 | The migration goes through exactly when no token or plan contains NUL, no api_key is unhashable, and every claim that is not dangling has a plan, a customer if any, and a session its columns take, and absent or readable times |
| Migration.MigrationPreservesAnswers | scripts/migrate_keystore_to_db.py:58-90 | Into an empty database, from a store whose claims refer to present keys and fit the columns, it succeeds and every key and claim is answered as before |
| Migration.ColumnsMean | scripts/migrate_keystore_to_db.py:69-88 | Text goes into a column as it is unless it contains NUL, null becomes NULL, and a timestamp is read by the clock of the driver |
| Migration.PlainRow | scripts/migrate_keystore_to_db.py:69-88 | The row of a claim as the service writes them, field by field |
| Migration.MigratedRowsSay | scripts/migrate_keystore_to_db.py:58-90 | Row by row, on any database: a new key comes with its plan, without customer or owner; a new claim comes to the letter if it is plain, with the time of the run if it had no issue time; a dangling one does not come |
| Migration.WrittenStoresAreReady | api_server/keystore.py:119-175 | Every store that issue, revoke and mark_claimed can produce from an empty one has only such claims |
| Migration.WrittenStoresMigrate | scripts/migrate_keystore_to_db.py:58-90 | So every such store migrates, and every answer survives |
| Migration.SecondRunChangesNothing | scripts/migrate_keystore_to_db.py:58-90 | A second run, whenever it happens, changes nothing |
| Migration.ExistingRowsStay | scripts/migrate_keystore_to_db.py:59-90 | On a database in use no row changes, foreign keys still hold, and only rows of the JSON store are added |
| Migration.ClaimAgreesWithKeyIff | scripts/migrate_keystore_to_db.py:60-64 | A migrated claim shows its key's plan exactly when the database did not already hold that key under another plan |
| Migration.VerdictIgnoresTime | scripts/migrate_keystore_to_db.py:69-87 | Whether a claim is inserted, skipped or fatal does not depend on the time of the run |
| Migration.Migrate | scripts/migrate_keystore_to_db.py:58-90 | The script: the merged tables and exact counts of inserted and skipped rows, or an error and no change |
| Migration.InsertKeys | scripts/migrate_keystore_to_db.py:58-65 | The first loop adds exactly the missing keys and counts them, or fails exactly when a token or plan contains NUL |
| Migration.InsertClaims | scripts/migrate_keystore_to_db.py:67-88 | The second loop adds exactly the missing linked claims, counts them and the dangling ones, and fails exactly when some claim cannot be stored |
| Migration.OfferKey | scripts/migrate_keystore_to_db.py:60-65 | ON CONFLICT DO NOTHING for keys |
| Migration.OfferClaim | scripts/migrate_keystore_to_db.py:74-88 | ON CONFLICT DO NOTHING for claims |
| Migration.Advance | scripts/migrate_keystore_to_db.py:69-88 | One iteration of the second loop |
| AfterMigration.WrittenStoresAreSold | api_server/keystore.py:119-175 | In every store the service writes, with tokens that are never drawn twice, claims show the plans of their keys and no two show the same key |
| AfterMigration.KeysWereIssued | api_server/keystore.py:119-157 | Every key of such a store was issued |
| AfterMigration.MigratedTablesAreFit | scripts/migrate_keystore_to_db.py:58-90 | So after its migration the tables are fit to run deliveries on |
| AfterMigration.ServiceAfterMigration | scripts/migrate_keystore_to_db.py:58-90 | From those tables the invariant holds over every interleaving of deliveries, revocations and the rest |
| Surcharge.TiersCharge | api_server/facilitator_policy.py:51-89 | Refused exactly when the number, a gas estimate or the policy is out of range; else free before the first threshold, a share of the own gas up to the second, and beyond it a share of the median gas for every step above the first |
| Surcharge.DefaultTiers | api_server/facilitator_policy.py:14-38 | The default tiers and alert, call by call |
| Surcharge.FeeMonotoneIff | api_server/facilitator_policy.py:51-79 | The fee never falls from one call to the next exactly when the soft tier is not dearer than the first escalated call (or the multiplier is 0) |
| Surcharge.TotalClosedForm | api_server/facilitator_policy.py:69-79 | The cumulative fee of calls 1..N is linear in the soft tier and quadratic beyond it |
| Surcharge.DefaultBreaksEvenAtSix | docs/facilitator_reuse_compensation.md:24-37 | With the defaults and one positive gas price the surcharges stay below the gas of N calls exactly for N up to 5 |
| Surcharge.UnitsAgainstCalls | docs/facilitator_reuse_compensation.md:93-108 | The same in units of the gas price |
| Surcharge.AlertIsOnlyAFlag | api_server/facilitator_policy.py:81-89 | N_max moves the alert flag and never the fee, and no valid call is refused |
| ColdProbe.BasesGrow | examples/cold_probe_client.py:67-75 | Exponential waits start at the initial one and double, linear ones grow by it, random ones run from it to the cap |
| ColdProbe.JitterSays | examples/cold_probe_client.py:76-78 | The jitter adds or takes at most its share of the base; no wait is negative |
| ColdProbe.NoJitter | examples/cold_probe_client.py:76-78 | Without a jitter factor a wait is its base |
| ColdProbe.WaitIsCapped | examples/cold_probe_client.py:76-78 | The base of a wait is capped |
| ColdProbe.FinalMeans | examples/cold_probe_client.py:88-102 | Tried again are 408, 429 and every server error, and nothing else |
| ColdProbe.OutcomeMeans | examples/cold_probe_client.py:126-166 | What is found comes from the last response, whatever its status, and the error from the last exception, with its attempt counted from 1 |
| ColdProbe.RequestsStopRightly | examples/cold_probe_client.py:123-166 | Every answer before the last was to be tried again, and the last was not, unless no attempts were left |
| ColdProbe.Requests | examples/cold_probe_client.py:123-146 | Requests go on up to the first answer that is not to be retried, or to the limit |
| ColdProbe.Probe | examples/cold_probe_client.py:104-166 | For every sequence of answers: the number of requests, one sleep fewer, the waits, what is returned, and is_402 exactly when the last request was answered 402 |
| ColdProbe.RequestsStop | examples/cold_probe_client.py:141-146 | Once a final answer has come, allowing more attempts makes no difference |
| ColdProbe.BackoffBound | examples/cold_probe_client.py:67-78 | A wait is never negative and at most its capped base plus the jitter share |
| ColdProbe.TotalSleepBound | examples/cold_probe_client.py:67-78 | The total sleep is at most the number of sleeps times max_backoff*(1+jitter) |
| ColdProbe.ExponentialSleepBound | examples/cold_probe_client.py:70-71 | For the exponential strategy it is also at most initial*(2^sleeps - 1)*(1+jitter) |
| ColdProbe.ProbeIsBounded | examples/cold_probe_client.py:104-166 | At most max_retries requests and max_retries - 1 sleeps, with both bounds on the total |
| ColdProbe.ErrorSurvivesIff | examples/cold_probe_client.py:153-163 | An error is reported exactly when some attempt raised, whatever came later |
| Base64.AlphabetIs | api_server/x402_paywall.py:150-152 | A to Z, a to z, 0 to 9, + and /, one after the other |
| Base64.BitsOf | api_server/x402_paywall.py:150-152 | Every group of characters spells the bits of its three bytes, missing bytes counting as zeros and characters without bits as pads |
| Base64.RoundTrip | api_server/x402_paywall.py:150-159 | Every byte string survives encoding and lenient decoding |
| Base64.ScanReadsBack | api_server/x402_paywall.py:155-159 | The lenient decoder reads an encoded string after any output already produced |
| Base64.EncodedShape | api_server/x402_paywall.py:150-152 | An encoded string is ASCII, a multiple of four long, with padding in its last two places at most |
| Base64.RepadRepairs | api_server/x402_paywall.py:157 | A token that has lost any number of its trailing = is repaired to what was sent |
| Base64.EncodedData | api_server/x402_paywall.py:150-152 | An encoded string is four thirds of its padded input: alphabet characters, then the pads |
| Base64.TokenRoundTrip | api_server/x402_paywall.py:155-161 | Whatever padding a token has lost, it decodes to the encoded bytes |
| Base64.LenientOnUrlSafe | api_server/x402_paywall.py:158-159 | What the lenient decoder makes of a URL-safe token: it fails on an incomplete group, else it gives something shorter |
| Base64.UrlSafeRoundTripIff | api_server/x402_paywall.py:155-161 | A URL-safe token of n data characters, d of them - or _, and p pads, with any padding lost, decodes to what was encoded exactly when d = 0, or (n-d)%4 is 1, or it is 2 and p < 2, or it is 3 and p = 0; otherwise to something shorter |
| Base64.OneGroup | api_server/x402_paywall.py:155-161 | A token of one full group comes through unless all its characters are dropped |
| Base64.UrlSafeTokenComesThrough | api_server/x402_paywall.py:158-161 | ab-d fails leniently and is then decoded to its three bytes |
| Base64.UrlSafeCharactersAreDropped | api_server/x402_paywall.py:158-159 | Of a token that consists of - and _ the lenient decoder leaves nothing |
| Base64.UrlSafeTokenIsLost | api_server/x402_paywall.py:158-161 | ---- is decoded to nothing, although it spells three bytes |
| Challenge.TokenRoundTrip | api_server/payment_required.py:25-35 | A token that lost any of its trailing = decodes to what was encoded |
| Challenge.UrlSafeTokenRoundTrip | api_server/payment_required.py:25-35 | A challenge in the URL-safe spelling is recovered when its token comes through |
| Challenge.LastHeaderWins | api_server/payment_required.py:19-22 | The value looked up is that of the last header of the name, in any casing |
| Challenge.HeaderFoundIff | api_server/payment_required.py:19-22 | A header is found under a name exactly when some header has that name in some casing |
| Challenge.TokenMeans | api_server/payment_required.py:25-35 | A token decodes to an object exactly when its bytes are the text of that object |
| Challenge.ResponseMeans | api_server/payment_required.py:56-73 | What any response says: the object in its body; else the one in its payment-required header; else the one in its x-payment-required header; else none |
| Challenge.NothingInBody | api_server/payment_required.py:38-53 | No body, a blank one, and bytes that are no text say nothing |
| Challenge.ChallengeRoundTrip | api_server/payment_required.py:56-73 | A challenge in either header is recovered under any casing and with any padding lost, when the sources before it yield nothing |
| Challenge.BodyTakesPrecedence | api_server/payment_required.py:62-64 | A decodable body object wins over every header, with blanks around it or not |
| Challenge.CasingIsIrrelevant | api_server/payment_required.py:19-73 | Changing the case of header names changes no answer |
| Challenge.ServerChallengeRoundTrip | api_server/x402_paywall.py:111-181 | What the server sends in its headers is what a client reads back; its payTo is always a well-formed address and it offers no batch settlement |
| Challenge.ChallengeSays | api_server/x402_paywall.py:111-147 | Version 2, payment to the configured address, trimmed, if it is one and else to a placeholder, which the error says; and the configured terms |
| Challenge.EitherHeaderSuffices | api_server/x402_paywall.py:168-181 | Either of the two headers alone is enough for a client; the third forbids caching |
| JsonText.FaithfulCodecsExist | api_server/keystore.py:72-87 | A printer whose output its parser reads back exists, prints objects in braces, and refuses over-long numerals |
| Wires.WiresExist | api_server/keystore.py:72-87 | With an encoding that its decoding undoes |
| Wires.WriteReadsBack | api_server/keystore.py:72-87 | What is written as bytes reads back as the value |
| BatchSettlement.AddressMeans | api_server/batch_settlement.py:69-104 | An address is 0x and forty hexadecimal digits, large or small |
| BatchSettlement.AcceptsMeans | api_server/batch_settlement.py:375-398 | The list is that of accepts, or empty when the field is missing or null; any other payload or field has none |
| BatchSettlement.IsBatchIff | api_server/batch_settlement.py:331-337 | A batch entry is an object with that scheme, give or take blanks around it |
| BatchSettlement.FindingsAreInOrder | api_server/batch_settlement.py:129-328 | The findings of an entry come in the order of its checks, each at most once |
| BatchSettlement.BatchCountIsSet | api_server/batch_settlement.py:400-411 | The number of entries is that of the batch entries |
| BatchSettlement.EntryErrorIff | api_server/batch_settlement.py:107-126 | ValueError exactly for a delay that is the numeral of more than 4300 digits, else TypeError exactly for a transfer method that is a list or an object |
| BatchSettlement.DelayIsCanonicalNumeral | api_server/batch_settlement.py:107-126 | The delay parser accepts exactly JSON integers and canonical numerals, with their value |
| BatchSettlement.NetworkDecides | api_server/batch_settlement.py:149-158 | The network check passes exactly for eip155 and the numeral of a positive number |
| BatchSettlement.AmountDecides | api_server/batch_settlement.py:161-170 | The amount check passes exactly for the numeral of a positive number |
| BatchSettlement.AddressDecides | api_server/batch_settlement.py:69-104 | The address check passes exactly for a non-zero address |
| BatchSettlement.PayToDecides | api_server/batch_settlement.py:182-235 | The payTo check passes exactly for a non-zero address that the alias does not contradict |
| BatchSettlement.DelayDecides | api_server/batch_settlement.py:260-289 | The delay check passes exactly for a number in range |
| BatchSettlement.ExtraDecides | api_server/batch_settlement.py:237-326 | The checks of extra pass exactly when its rules hold |
| BatchSettlement.EntryDecides | api_server/batch_settlement.py:129-328 | Nothing is found exactly when the entry conforms |
| BatchSettlement.EntryCodes | api_server/batch_settlement.py:129-328 | Each rule has its own findings, and they appear exactly when that rule is broken |
| BatchSettlement.ExtraCodes | api_server/batch_settlement.py:250-326 | The same for the rules about extra |
| BatchSettlement.EntryIsBounded | api_server/batch_settlement.py:129-328 | At most ten findings an entry, all carrying its index |
| BatchSettlement.FindingsPointAtViolations | api_server/batch_settlement.py:404-408 | The indices reported are exactly those of batch entries that do not conform |
| BatchSettlement.NoFindingsIffAllConform | api_server/batch_settlement.py:404-408 | Nothing is found in a list exactly when all its batch entries conform |
| BatchSettlement.FindingsConcat | api_server/batch_settlement.py:404-408 | Findings of two lists in a row are those of the first, then those of the second with indices shifted |
| BatchSettlement.AtMostTenEach | api_server/batch_settlement.py:404-411 | The uncapped total is at most ten per batch entry |
| BatchSettlement.BatchCountIff | api_server/batch_settlement.py:404-410 | The number of entries is positive exactly when there is a batch entry |
| BatchSettlement.ValidateEntry | api_server/batch_settlement.py:129-328 | The findings of one entry and the alias list it extends, or ValueError exactly for an overlong delay and else TypeError exactly for an unhashable transfer method |
| BatchSettlement.Collect | api_server/batch_settlement.py:400-411 | The loop collects counts, findings and aliases of the whole list, or fails with the error of the first entry that raises |
| BatchSettlement.Evaluate | api_server/batch_settlement.py:340-446 | PASS, FAIL and applicable exactly as the declarative rules say; the first 20 findings and the uncapped total; errors for undecodable input; raises exactly when some batch entry does |
| BatchSettlement.FirstErrorIff | api_server/batch_settlement.py:404-408 | There is a first error exactly when some batch entry raises |
| BatchSettlement.FirstErrorStays | api_server/batch_settlement.py:404-408 | Entries after the first one that raises do not matter |
| BatchSettlement.RaisersNeverConform | api_server/batch_settlement.py:271-318 | What makes the checker raise is itself a violation |
| BatchSettlement.TypeErrorExample | api_server/batch_settlement.py:316-318 | A batch entry whose transfer method is a list raises TypeError |
| BatchSettlement.ValueErrorExample | api_server/batch_settlement.py:113-125 | A batch entry whose delay has 4301 digits raises ValueError |
| FacilitatorEvents.HashIsNormal | api_server/facilitator_metrics.py:62-70 | A normalised hash is in lower case, starts with 0x, and is normalised already |
| FacilitatorEvents.HashSpellings | api_server/facilitator_metrics.py:62-70 | There is no hash exactly when there is nothing but blanks; surrounding blanks and upper case make no difference |
| FacilitatorEvents.MissingPrefix | api_server/facilitator_metrics.py:62-70 | Nor does a missing 0x |
| FacilitatorEvents.SameKeyIff | api_server/facilitator_metrics.py:130-138 | Two events have the same key exactly when they have the same hash; or, having none, the same id; or, having neither, the same wallet, endpoint and timestamp |
| FacilitatorEvents.DedupeKeepsTheLast | api_server/facilitator_metrics.py:401-406 | Every kept event is the last of its key in the input, keys are kept once, in the order in which they were first seen |
| FacilitatorEvents.EveryKeyIsKept | api_server/facilitator_metrics.py:401-406 | Every key of the input is kept |
| FacilitatorEvents.ByTimeIsStable | api_server/facilitator_metrics.py:912 | Sorting by time keeps the order of events of one moment |
| FacilitatorEvents.DictIsWellFormed | api_server/facilitator_metrics.py:401-406 | The dict holds every key once, under its own key |
| FacilitatorEvents.LatestIsLast | api_server/facilitator_metrics.py:401-406 | Each key carries the last event written under it |
| FacilitatorEvents.OrderIsFirstSeen | api_server/facilitator_metrics.py:401-406 | Keys appear in the order in which they were first seen |
| FacilitatorEvents.DedupeAbsorbs | api_server/facilitator_metrics.py:401-406 | dedupe(dedupe(a) + b) = dedupe(a + b) |
| FacilitatorEvents.DedupeRepeat | api_server/facilitator_metrics.py:401-406 | dedupe(a + a) = dedupe(a) |
| FacilitatorEvents.DedupeTwice | api_server/facilitator_metrics.py:401-406 | Deduplication is idempotent |
| FacilitatorEvents.ByTimeIsSorted | api_server/facilitator_metrics.py:912 | Sorting by time orders the events and keeps them all |
| FacilitatorEvents.DedupeAfterSort | api_server/facilitator_metrics.py:908-915 | Sorting deduplicated events leaves nothing to deduplicate |
| FacilitatorEvents.DedupeEvents | api_server/facilitator_metrics.py:401-406 | The loop computes the deduplicated list |
| FacilitatorReuse.RowCountsCalls | api_server/facilitator_metrics.py:737-788 | Every row counts the calls of its wallet to its endpoint in the hour and in the day up to its anchor, which is now or, without a call in the last day, the latest call; its label goes by the hour if that has two calls, else by the day |
| FacilitatorReuse.RowListsCalls | api_server/facilitator_metrics.py:770-785 | A row lists the keys of the calls its day counts, by time |
| FacilitatorReuse.RowIsSound | api_server/facilitator_metrics.py:757-787 | Every row, anchored or not, has 1 <= count_24h, count_1h <= count_24h, and is "reused" exactly when count_24h >= 2 |
| FacilitatorReuse.SortedKeysCover | api_server/facilitator_metrics.py:746-757 | The sorted groups are exactly the endpoint and wallet pairs that occur, each once |
| FacilitatorReuse.ReuseTableIsCorrect | api_server/facilitator_metrics.py:737-788 | Every row belongs to an event, no two rows share endpoint and wallet, and each row is sound |
| FacilitatorReuse.EveryWalletHasARow | api_server/facilitator_metrics.py:737-788 | Every event with a wallet has a row |
| FacilitatorReuse.ReuseIsShiftInvariant | api_server/facilitator_metrics.py:737-788 | Moving all timestamps and now by a constant changes no count and no label |
| FacilitatorReuse.ReuseIgnoresOrder | api_server/facilitator_metrics.py:917-918 | The table of time-sorted, deduplicated events has the rows of the raw input, with the same counts and labels |
| FacilitatorReuse.LabelIsSound | api_server/facilitator_metrics.py:724-734 | The label is "reused" exactly from two calls on, "first seen" exactly at one |
| FacilitatorReuse.ComputeReuseRows | api_server/facilitator_metrics.py:737-788 | The loops compute the table |
| FacilitatorReuse.CollectGroups | api_server/facilitator_metrics.py:746-751 | Grouping keeps the order of first occurrence and every event of a group |
| FacilitatorBuckets.BucketsConserve | api_server/facilitator_metrics.py:962-1001 | The buckets add up to what went into them, and no name has two |
| FacilitatorBuckets.BucketHoldsItsOwn | api_server/facilitator_metrics.py:962-1008 | Each bucket holds the count and gas of its own items, and each entry of its table what the last of them said |
| FacilitatorBuckets.OverlayShowsRows | api_server/facilitator_metrics.py:1011-1020 | The overlay changes no count, gas or name, and an entry exactly when the reuse table has a row for it: then it says what the row says |
| FacilitatorBuckets.OverlayRows | api_server/facilitator_metrics.py:1011-1020 | The overlay loop |
| FacilitatorReport.AllPeriodIsComplete | api_server/facilitator_metrics.py:835-847 | The period "all" leaves no transaction out |
| FacilitatorReport.BalancesNest | api_server/facilitator_metrics.py:820-881 | Counts of 1h, 24h and all are nested, and all covers every transaction with its gas and income |
| FacilitatorReport.GroupingConserves | api_server/facilitator_metrics.py:959-1001 | In either grouping, counts and gas add up to the transaction list, and no name occurs twice |
| FacilitatorReport.BucketsCountTheirOwn | api_server/facilitator_metrics.py:962-1001 | In either grouping each bucket holds the count and the gas of its own transactions |
| FacilitatorReport.ReportConserves | api_server/facilitator_metrics.py:930-1052 | In a report both groupings and the balance over everything agree with the transaction list on count and gas |
| FacilitatorReport.ReportIgnoresRepetition | api_server/facilitator_metrics.py:930-1052 | A report is unchanged by repeating its input or by deduplicating part of it first |
| FacilitatorReport.QualityCountsAddUpIff | api_server/facilitator_metrics.py:1022-1047 | pending_rpc + source_b_enriched = source_a_count exactly when no event is given an enrichment that carries gas while it says pending or not found |
| FacilitatorReport.FetchedCountsAddUp | api_server/facilitator_metrics.py:470-602 | With enrichments that come from fetching they always add up |
| FacilitatorReport.FetchedIsPriced | api_server/facilitator_metrics.py:554-602 | With fetched enrichments a transaction's cost is gas used times price, in wei and native, and only if mined or reverted |
| FacilitatorReport.ReportedGasIsCharged | api_server/facilitator_metrics.py:930-1052 | With fetched enrichments the gas of the balance and of both groupings is exactly the wei charged for the listed transactions |
| FacilitatorReport.TransactionShowsItsRowIff | api_server/facilitator_metrics.py:791-812 | Every transaction: without a wallet it says so; with one, event's own or named by the chain, its endpoint and wallet have a row exactly when some event names both; without a row it says (1, 1, first seen); with one it shows it exactly when the endpoint is named or the group has had just one event of late |
| FacilitatorReport.RowOfGroup | api_server/facilitator_metrics.py:757-787 | The row of an endpoint and wallet is computed from the events of that group |
| FacilitatorReport.NoRowWithoutGroup | api_server/facilitator_metrics.py:746-757 | An endpoint and wallet that no event names have no row |
| FacilitatorReport.DerivedWalletExample | api_server/facilitator_metrics.py:639-643 | A transaction whose wallet the chain names: no row, a named endpoint, and (1, 1, first seen) |
| FacilitatorReport.DrillDown | api_server/facilitator_metrics.py:962-1020 | The drill-down tables: under an endpoint a wallet has what the reuse table says, or else what its last transaction there shows; under a wallet an endpoint has what the last transaction shows |
| FacilitatorReport.SaidIffPresent | api_server/facilitator_metrics.py:975-1008 | An entry is there exactly when some transaction of the bucket writes it |
| FacilitatorReport.UnnamedEndpointExample | api_server/facilitator_metrics.py:798-810 | Two calls to an unnamed endpoint: the row says (2, 2), the transaction does not |
| FacilitatorReport.StoreMatchesReport | api_server/facilitator_metrics.py:889-1052 | A report on the list the store keeps, against one on the raw input: the same transactions rearranged, the same rows, counts and labels of reuse, and equal balances |
| FacilitatorReport.SortedBalance | api_server/facilitator_metrics.py:820-881 | A balance of time-sorted events is that of the events as they came |
| FacilitatorReport.StoreBalanceMatchesReport | api_server/facilitator_metrics.py:914-927 | The balance of the store, which sorts first, is that of a report on everything appended, in the order of appending |
| FacilitatorReport.BuildReport | api_server/facilitator_metrics.py:930-1052 | The pipeline computes the report that the statements here and those of FacilitatorFigures are about |
| FacilitatorReport.Tabulate | api_server/facilitator_metrics.py:959-1028 | The loop computes both groupings with their tables, and the quality counts |
| FacilitatorReport.MetricsStore.constructor | api_server/facilitator_metrics.py:892-894 | A new store is empty |
| FacilitatorReport.MetricsStore.Append | api_server/facilitator_metrics.py:896-897 | Appending is idempotent by key: the store is the dict of everything appended |
| FacilitatorReport.MetricsStore.AppendMany | api_server/facilitator_metrics.py:899-901 | Appending many is appending each |
| FacilitatorReport.MetricsStore.PutRpc | api_server/facilitator_metrics.py:903-906 | Enrichments are kept by normalised hash; one without a hash is dropped |
| FacilitatorReport.MetricsStore.ListEvents | api_server/facilitator_metrics.py:908-912 | The kept events from a moment on, by time |
| FacilitatorReport.MetricsStore.ReuseTable | api_server/facilitator_metrics.py:917-918 | The rows of the raw input, up to the order of hashes |
| FacilitatorReport.MetricsStore.BalanceOf | api_server/facilitator_metrics.py:914-927 | The matching balance of a report on everything appended |
| FacilitatorFigures.EnrichmentIsByHash | api_server/facilitator_metrics.py:708-716 | An event is enriched by what is stored under its normalised hash, and by nothing else |
| FacilitatorFigures.TransactionTells | api_server/facilitator_metrics.py:610-690 | Transaction i of a report carries the endpoint, timestamp, role, chain, income, gas limit and source of event i; with an enrichment under its hash all gas fields, dollars included, are those of the enrichment, and without one none is there; complete, in conflict or awaiting exactly as the gas used says |
| FacilitatorFigures.ChainAlone | api_server/facilitator_metrics.py:610-690 | Without an event, what the chain says is all there is |
| FacilitatorFigures.BalanceAddsUp | api_server/facilitator_metrics.py:820-881 | The balance of records that tell their events is the sum over the events of its period; deficit or surplus by the sign of what is left, unknown without a price |
| FacilitatorFigures.ReportAddsUp | api_server/facilitator_metrics.py:930-1052 | The three balances of a report are the sums over the deduplicated events of the last hour, the last day and all time: income as the app said it, gas and dollars as the chain said them, and their number; the last one leaves none out |
| FacilitatorFigures.BucketOfRecords | api_server/facilitator_metrics.py:959-1008 | In either breakdown a bucket has the count and gas of the records filed under its name, and each entry is what the last record naming it shows |
| FacilitatorFigures.AnalysisMoment | api_server/facilitator_metrics.py:941-950 | The windows end now, or at the latest event of a synthetic batch |
| FacilitatorFigures.QualityCounts | api_server/facilitator_metrics.py:1022-1028 | source_b_enriched counts the events the chain has named the gas of, pending_rpc those without gas or with an enrichment that says pending or not found |
| FacilitatorFigures.FetchSays | api_server/facilitator_metrics.py:470-602 | Fetched is settled (mined, or reverted if the status is 0) exactly when the transaction is in a block and its receipt was read; then it carries what the receipt said, at the effective price or else that of the transaction; missing is pending for a quarter of an hour |
| FacilitatorFigures.UniqueHashesAreEvents | api_server/facilitator_metrics.py:1048-1050 | The number of unique hashes is that of the kept events with a hash, and one more if some event gives a blank one |
| Text.SpacesAre | api_server/facilitator_metrics.py:62-70 | The ASCII characters that strip removes |
| Text.StripIff | api_server/facilitator_metrics.py:62-70 | Stripping leaves a text exactly when it was that text between blanks |
| Text.LowerMeans | api_server/facilitator_metrics.py:62-70 | No capital is left, each became the small letter in its place, and nothing else changed |
| Json.EqualityIs | api_server/batch_settlement.py:186-205 | Numbers are equal by value whatever their kind, texts letter by letter; every value but NaN equals itself |

## Left out

Parts of the repository:

- HTML, CSS, JavaScript, dashboards and marketing pages: presentation.
- HTTP, Stripe, JSON-RPC, the facilitator's verify and settle calls, the external conformance engine and the AI advisor: their answers are arbitrary inputs.
- Hashing, signatures and passwords (`receipt_utils.py`, argon2, the hash functions of `nonce_helpers.py`), user sessions and account creation: no property here depends on them.
- JSON text, UTF-8 and ISO timestamps: abstract values and integer times, with read-back as a hypothesis; SQL text: tables with their key and foreign-key constraints.
- Floating-point rounding: money, gas costs and waits are reals.
- Threads racing on the limiter's clock reading, several processes sharing one JSON file, clocks that run backwards: the stated guarantees do not hold there.
- `_aggregate_check_results`, the visibility, classifier, detector and linter tables, plan limits from the environment, cache-key normalisation and the cache's skip predicates: one reading settles them.
- CSV and JSON-lines loaders and the export writers; `discover_manifest` and `probe_endpoints`, which only call `probe`.
- `list_keys` of the key-rotation store.

Parts of what is modelled:

- Text.Strip: knows ASCII white space only, and Text.Lower only ASCII letters.
- BatchSettlement.DelayIsCanonicalNumeral: an overlong numeral has its value here; that reading it raises is in BatchSettlement.ValidateEntry.
- JsonText.FaithfulCodecsExist: lone surrogates in strings, and values nested beyond Python's recursion limit, are not JSON values here; a text nested too deeply is refused.
- BatchSettlement.Evaluate: the message texts of findings and reports are not modelled.
- AuditCache.AuditResponseCache.Get: payloads are values, so the shallow copy handed out is not modelled.
- Webhook.ResolvePlan: the account id in client_reference_id comes already parsed.
- JsonStore.CrashIsAllOrNothing: a save that fails with OSError without the process stopping, after which memory is ahead of the file, is not modelled.
- Migration.MigratesIff: what a TEXT column receives for a value that is not text is a parameter; it does not differ from column to column.
- FacilitatorReport.BuildReport: records are values: where the code sets the reuse fields of a merged record in place, a new record is built.
- FacilitatorReport.StoreMatchesReport: merging with live fetching is not modelled; what fetching can return is.
- FacilitatorReport.MetricsStore.ListEvents: the dict is kept as its key order and a map, as is the dict of the cache.
- Challenge.UrlSafeTokenRoundTrip: says nothing about tokens that do not come through, whose shorter bytes may or may not be JSON.
- KeyRotation.KeyStore.GetKeyNow: no agreement with the answer at a given time is claimed; the code treats the two differently.
