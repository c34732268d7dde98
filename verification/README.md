# Verified model of the storm OpenID Connect library

This project models the stateful core of the repository, a Go OpenID Connect provider and relying-party
library with an example server, and proves what its operations keep over whole runs.
`dafny verify dfyconfig.toml` checks everything.

| files | what they model |
|---|---|
| `RateLimiter.dfy` | the in-memory limiter: buckets compacted in place, the background sweep, and a reference limiter that never forgets |
| `KeyMatching.dfy`, `RemoteKeySet.dfy`, `KeySetProtocol.dfy` | key search; the relying party's key cache; any interleaving of verifiers and updater goroutines around the single in-flight fetch |
| `StoreModel.dfy`, `Storage.dfy` | the example server's tables: what each locked section does to them, and the same sections as an object with the loops written out |
| `StoreRuns.dfy`, `CodeRuns.dfy`, `TokenRuns.dfy`, `RotationRuns.dfy`, `ReplayRuns.dfy` | runs of the store: life of a code, life of a token, refresh-token rotation with its lock sections interleaved, and a replayed code from end to end |
| `LoginChallenge.dfy`, `LoginRuns.dfy` | completing authorization requests: the shared records, and handlers interleaved at lock granularity |
| `Devices.dfy` | the device-authorization store with its two indexes |
| `SigningKeys.dfy` | key rotation against key lookup |
| `Bytes.dfy`, `CbcContent.dfy`, `Base64Url.dfy`, `JweDir.dfy` | AES-CBC-HS content encryption, base64url, and JWE compact form with direct encryption |
| `TokenTimes.dfy` | the rounding arithmetic of the time checks |

State that the Go code changes in place is a class here. Each method of such a class is proved equal to a
function on plain values (`Join`, `Publish`, `AllowStep`, `Redeem`, `Revoke`, ...). The theorems over runs
use those same functions as their steps, so a changed method body breaks the method and a changed
function breaks the theorems.

## What is taken as given

- UUIDs, authorization codes and device codes are fresh. Where the code does not need freshness (saving a
  device record) the exact effect of a clash is stated instead.
- Clock readings of one run do not decrease. Times are unbounded nanosecond counts.
- The block cipher is a keyed permutation of 16-byte blocks, the MAC a function of the right output
  length, the AEAD primitives (for a key and a nonce of the right length) and the JSON header codec undo
  themselves. `Lawful`, `LawfulAead` and `ReadsItsHeaders` say this and nothing more.
- Go's AES-GCM panics on a nonce that is not 12 bytes long.
- `jwk.Import` refuses the SM2 key type of the gmsm library, so that `Key()` sets parameters on a nil key
  (`example/storm-server/storage/storage.go:139-144`). For SM9 keys `Key()` returns nil outright.
- The signature library is an arbitrary function to a pair of a possibly nil payload and a possibly nil
  error. `Config.Lawful` (a payload exactly when there is no error) is assumed only where a lemma says so.
- A JWS that parses has a signature, so its first protected header can be read.

## Where the code differs from its documentation, or a natural claim fails

- `pkg/storm/ratelimit.go:9` calls the limiter a token bucket. The code keeps a log of allowed instants
  over a sliding window, and that is what is modelled.
- `pkg/client/rp/jwks.go:121-130` says that the cached path reports an error only when ids match exactly.
  For SM2/SM9 keys a failed signature is final also when the token has no key id
  (`GMRejectionIsAlwaysFinal`). So a token without an id that the current key signed is rejected while an older key is cached
  (`GMTokenWithoutIdIsRejected`).
- A cache equal to the published keys is transparent for exactly those tokens on which the signature
  library does not contradict itself (`CachedPathAgreesExactly`, failing inputs in
  `ContradictionSeparatesPaths`).
- A verifier joins a fetch that is not yet *published*, but the HTTP request may already have ended
  (`JoinedFetchMayHaveEnded`). It has not ended if and only if no updater stands between its fetch and its
  publication (`JoinedFetchIsRunning`); the record joined is open in every case (`JoinsAnUnpublishedFetch`).
- Ending a session does not reach an access token whose refresh token is still to be created: that second
  lock section makes the id active again (`LoggedOutTokenComesBack`). A logged-out token stays inactive if
  and only if it is not half issued in this way (`TerminationIsFinal`); reuse of a code and revocation of an
  access token have the same exception (`ReuseIsFinal`, `RevokedAccessIsFinal`).
- Revoking an access token leaves it active exactly while a refresh record is linked to it
  (`RevokedAccessStaysActiveWhileLinked`). Introspection also fills `nbf` from the expiration.
- A replayed code misses a token that is issued for it and not tracked yet (`ReplayBeforeTracking`,
  `ReplayKillsExactlyTheTracked`).
- Creation of a refresh token does not ask whether the presented one is still live. Two rotations of one
  token leave two live tokens (`OverlapLeavesTwo`). As long as nothing is revoked, a family at rest has one
  live token if and only if no token of it was presented twice (`OneLiveTokenExactly`); revocation can only
  leave fewer (`FamilyHasOneLiveToken`). Rotations of a live token that no other rotation holds are safe
  (`WithoutOverlapOneLives`).
- Lookup of a signing key by id works exactly while the server has no SM2 or SM9 key, because conversion
  ends at a nil `jwk.Key` for those (`SignedTokensKeepTheirKey`, failing inputs in `GMKeyStopsLookup` and
  `RsaKeyNextToGMKey`).
- A tag over an empty ciphertext opens, to the empty plaintext, although sealing always emits a padded
  block (`BareTagOpens`). This is the only non-canonical input that opens (`SealInvertsOpen`).
- With the default providers the CBC algorithms never encrypt in `dir` mode, since the framing draws a
  12-byte IV (`CbcNeverEncryptsInDirMode`).
- `DecryptJWE` does not return an error for every malformed text: for AES-GCM an IV that is not 12 bytes
  long ends in a panic (`DecryptPanicsExactly`, `WrongNoncePanics`). The SM4 modes return an error.
- The decoder accepts texts that the encoder never produces: line breaks (`LineBreakDecodes`) and a nonzero
  tail (`NonzeroTailDecodes`), and no others (`EncodeInvertsDecode`).
- The answer of `FindMatchingKey` depends on the order of the keys exactly when two different keys match
  the header exactly (`FindIgnoresOrder`, `OrderMattersOtherwise`).
- A completed request cannot be rejected (`NoRejectAfterDone`), but a rejected one can still be accepted,
  because a reject leaves no mark on the request (`RejectedAndAccepted`).
- `CheckUsernamePassword` does not test `done`, so a login form of another user changes the subject of a
  completed request (`LoginFormChangesSubject`), and nothing else does (`CompletedSubjectIsKept`).

## Model

| member | source | states |
|---|---|---|
| RateLimiting.Bucket.Compact | pkg/storm/ratelimit.go:63-70 | filtering in the same buffer keeps exactly the instants after the cutoff, in order |
| RateLimiting.LiveOfOne | pkg/storm/ratelimit.go:65-69 | compaction keeps an instant exactly if it is after the cutoff |
| RateLimiting.LiveOfPieces | pkg/storm/ratelimit.go:64-70 | and works piece by piece, so that the order stays and nothing is repeated |
| RateLimiting.Bucket.Enter | pkg/storm/ratelimit.go:63-77 | the per-bucket part of a call: the instant is recorded if and only if the call is allowed |
| RateLimiting.Bucket.IsExpired | pkg/storm/ratelimit.go:110-117 | true exactly when no instant is after the cutoff |
| RateLimiting.RateLimiter.Allow | pkg/storm/ratelimit.go:50-78 | creates the bucket on first use, answers, and changes the bucket of that key only |
| RateLimiting.RateLimiter.Sweep | pkg/storm/ratelimit.go:108-122 | removes exactly the buckets with nothing left in the window, in whatever order the map is ranged over |
| RateLimiting.SweptBuckets | pkg/storm/ratelimit.go:109-121 | after a sweep exactly the buckets with an instant after the cutoff are left, unchanged |
| RateLimiting.BucketsAgreeWithHistory | pkg/storm/ratelimit.go:50-122 | in every run, what a bucket and the never-forgetting history hold inside any current or later window is the same |
| RateLimiting.AnswersMatchFullHistory | pkg/storm/ratelimit.go:50-122 | refinement: every answer is that of a limiter which keeps all allowed requests and counts those newer than now - window |
| RateLimiting.AnswersCountTheWindow | pkg/storm/ratelimit.go:50-78 | in every run a request passes if and only if fewer than `rate` requests of its key passed in (now - window, now] |
| RateLimiting.HistoryRecordsAnswers | pkg/storm/ratelimit.go:72-77 | an instant enters the history of a key exactly when the running limiter said yes to that key |
| RateLimiting.AtMostRatePerWindow | pkg/storm/ratelimit.go:50-122 | in every run, for every key and every instant t, at most `rate` requests were allowed in (t - window, t] |
| RateLimiting.DeniedCallsLeaveNoTrace | pkg/storm/ratelimit.go:72-74 | with any continuation appended, the history of every key is the one without the denied call or sweep |
| RateLimiting.DeniedCallsAndSweepsDoNotCount | pkg/storm/ratelimit.go:72-74 | every later answer of the running limiter, in any continuation, is the one it would have given without a denied call or a sweep |
| KeyMatching.FindMatchingKey | pkg/protocol/keyset.go:104-129 | by the positions of the list: the first usable key under the header's id wins; otherwise the result is a key exactly if it is at the one position that is usable and where it or the header has no id, "none" exactly if there is no such position, "multiple" exactly if there are two |
| KeyMatching.OnlyFindAnswers | pkg/protocol/keyset.go:104-129 | these conditions leave one answer for every header and list |
| KeyMatching.FoundFits | pkg/protocol/keyset.go:104-143 | a found key is in the list, has a fitting usage and type, and an id that does not contradict the header |
| KeyMatching.AlgorithmFamilies | pkg/protocol/keyset.go:131-143 | the key type that goes with an algorithm, told from the characters of its name |
| KeyMatching.FindByKid | pkg/protocol/keyset.go:115-117 | with distinct ids a usable key is found under its own id, wherever it stands |
| KeyMatching.FindIgnoresOrder | pkg/protocol/keyset.go:104-129 | if at most one key matches the header exactly, every permutation of the list gives the same answer |
| KeyMatching.DistinctKidsIgnoreOrder | pkg/protocol/keyset.go:104-129 | in particular, with pairwise distinct non-empty ids the order never matters, for any header |
| KeyMatching.OrderMattersOtherwise | pkg/protocol/keyset.go:115-117 | for every other list some permutation gives a different answer |
| RemoteKeySets.FindGMKeepsKid | pkg/crypto/jwk.go:267-274 | an SM2/SM9 key that is found has the algorithm asked for and, if the header has an id, that id |
| RemoteKeySets.FindGMIsFirst | pkg/crypto/jwk.go:267-274 | the key found is the first that fits, and none is found only if none fits |
| RemoteKeySets.CachedAcceptsExactly | pkg/client/rp/jwks.go:131-180 | the cached path accepts exactly what the deciding key yields, a payload without error or, for standard keys, any payload; the key is given by list positions and the algorithm by header or default |
| RemoteKeySets.RemoteAcceptsExactly | pkg/client/rp/jwks.go:198-238 | the cache-free path accepts exactly if the fetch succeeded and the deciding key yields no error |
| RemoteKeySets.CachedPathAgreesExactly | pkg/client/rp/jwks.go:99-238 | with the cache equal to the remote set, cached and cache-free verification give the same verdict if and only if the library's answer is not self-contradictory under the key picked |
| RemoteKeySets.ContradictionSeparatesPaths | pkg/client/rp/jwks.go:177-188 | for a payload with an error, and for neither under an exact match, a configuration in which the two paths answer differently |
| RemoteKeySets.CacheIsTransparent | pkg/client/rp/jwks.go:99-238 | with a library that keeps its promise they always agree, for standard and SM2/SM9 keys |
| RemoteKeySets.CachedVerdictIsRemoteVerdict | pkg/client/rp/jwks.go:131-189 | a verdict reached without fetching is the one the cache-free path gives on the cached keys |
| RemoteKeySets.AcceptedIsVouchedFor | pkg/client/rp/jwks.go:198-238 | a token is accepted only if a fitting signature key of the fetched set verifies it |
| RemoteKeySets.StandardRejectionNeedsExactMatch | pkg/client/rp/jwks.go:177-196 | for standard keys the cached path rejects if and only if the picked key fails and ids are equal and non-empty, or both empty with `skipRemoteCheck` |
| RemoteKeySets.GMRejectionIsAlwaysFinal | pkg/client/rp/jwks.go:140-156 | for SM2/SM9 keys it rejects if and only if a key is found and fails, key id or not |
| RemoteKeySets.GMTokenWithoutIdIsRejected | pkg/client/rp/jwks.go:140-156 | a token without key id that the cache-free path accepts is rejected while another SM2 key is cached |
| RemoteKeySets.TornReadIsHarmless | pkg/client/rp/jwks.go:131-133 | a verdict uses only one of the two cached fields, which are read under two locks |
| RemoteKeySets.Inflight.Done | pkg/client/rp/jwks.go:87-92 | records the result and closes the channel; the caller owes that it is still open |
| RemoteKeySets.RemoteKeySet.EnterRemote | pkg/client/rp/jwks.go:254-270 | joins the record in the slot, or makes one and reports that an updater is to be started |
| RemoteKeySets.RemoteKeySet.PublishKeys | pkg/client/rp/jwks.go:288-298 | one section: caches a successful result, completes the record, frees the slot |
| KeySetProtocol.StepKeepsInv | pkg/client/rp/jwks.go:240-299 | every step of every thread keeps the protocol invariant |
| KeySetProtocol.RunKeepsInv | pkg/client/rp/jwks.go:240-299 | hence it holds after every interleaving of any number of verifiers and updaters |
| KeySetProtocol.OneFetchAtATime | pkg/client/rp/jwks.go:254-298 | at most one fetch runs, the slot is taken exactly while it does, every record is completed exactly once, and no updater finds a nil slot or a closed channel |
| KeySetProtocol.WaiterGetsItsFetch | pkg/client/rp/jwks.go:273-278 | the result a waiter reads is what the fetch started for its record returned |
| KeySetProtocol.JoinsAnUnpublishedFetch | pkg/client/rp/jwks.go:258-270 | at the moment of joining the record is open |
| KeySetProtocol.JoinedFetchIsRunning | pkg/client/rp/jwks.go:258-288 | in every run the fetch a verifier joins has not ended if and only if no updater stands between its fetch and its publication |
| KeySetProtocol.JoinedFetchMayHaveEnded | pkg/client/rp/jwks.go:286-288 | a concrete run in which the joined fetch has already returned, whatever it returned |
| KeySetProtocol.NoWaiterIsOrphaned | pkg/client/rp/jwks.go:258-298 | while a waiter's record is open, the updater of that very record is alive |
| KeySetProtocol.WaiterCanFinish | pkg/client/rp/jwks.go:273-298 | from every reachable state a waiter is at most one fetch result, one publication and one own step from its answer |
| KeySetProtocol.CacheFollowsSuccessfulFetches | pkg/client/rp/jwks.go:286-298 | in every run the cache holds the keys of the latest successful fetch, and failed fetches leave it alone |
| KeySetProtocol.DecidesExactly | pkg/client/rp/jwks.go:107-119 | one step decides a verification exactly by a verdict found in the cache or by the return from a fetch that succeeded, with that verdict; it gives up exactly when cancelled while waiting or when the fetch failed |
| KeySetProtocol.VerdictsAreLinearizable | pkg/client/rp/jwks.go:99-299 | every verdict is the cache-free verdict on the key sets that were current at some instant between call and return |
| KeySetProtocol.AcceptedUnderFetchedKeys | pkg/client/rp/jwks.go:99-299 | every accepted token verifies under a fitting key that some successful fetch returned |
| SigningKeys.KeyStore.AddAtStartUp | example/storm-server/storage/storage.go:187-293 | a known algorithm name appends one key of the right kind, an unknown one nothing |
| SigningKeys.KeyStore.RotateSigningKey | example/storm-server/storage/storage.go:436-451 | a new RS256 key goes in front, the old keys stay |
| SigningKeys.RotationPutsNewKeyInUse | example/storm-server/storage/storage.go:401-451 | after a rotation the new key is the default and the RS256 choice, and lookup by its id finds it if and only if no older key is an SM2/SM9 key |
| SigningKeys.KeyStore.SigningKeyByAlg | example/storm-server/storage/storage.go:416-424 | the first key with the algorithm |
| SigningKeys.ChosenKeyIsInTheList | example/storm-server/storage/storage.go:416-424 | a chosen key is in the list and has the algorithm; none is chosen only when none has it |
| SigningKeys.FirstOfItsAlgorithmIsChosen | example/storm-server/storage/storage.go:416-424 | of several keys with an algorithm the first is chosen |
| SigningKeys.FirstKnownAlgorithmIsTheDefault | example/storm-server/storage/storage.go:187-293 | until the first rotation the default key is that of the first known algorithm in the configuration |
| SigningKeys.KeyStore.ExportKeys | pkg/protocol/verifier.go:703-712 | the adapter's conversion loop: all keys as `jwk.Key` values, or the nil dereference |
| SigningKeys.ExportIsPointwise | pkg/protocol/verifier.go:703-712 | the conversion succeeds exactly if every key has a jwx form, and each result carries its key's id, material and type and the usage "sig" |
| SigningKeys.GeneratedKeysAreWellTyped | example/storm-server/storage/storage.go:187-293 | exactly twelve names make a key, which carries its name, id and material; an RSA, EC or Ed25519 key has the one type that `algToKeyType` asks of the name, and SM2 and SM9 keys are made for their own names only |
| SigningKeys.IdsStayDistinct | example/storm-server/storage/storage.go:436-451 | in every run key ids are pairwise distinct |
| SigningKeys.KeysAreNeverDropped | example/storm-server/storage/storage.go:436-451 | no rotation removes a key |
| SigningKeys.SignedTokensKeepTheirKey | pkg/protocol/verifier.go:693-718 | after any further rotations, lookup by the id of an RSA, EC or Ed25519 key ever held finds that same key, if and only if the list holds no SM2/SM9 key |
| SigningKeys.GMKeyStopsLookup | example/storm-server/storage/storage.go:139-149 | an SM2 or SM9 algorithm configured at any point makes the conversion fail in every continuation |
| SigningKeys.RsaKeyNextToGMKey | example/storm-server/storage/storage.go:139-149 | an RS256 server whose keys convert, and the same server with an SM2/SM9 algorithm added, whose keys do not |
| Storages.Storage.SaveAuthCode | example/storm-server/storage/auth.go:89-100 | the three code tables after a save; refused for an unknown request |
| Storages.Storage.AuthRequestByCode | example/storm-server/storage/auth.go:49-87 | all five outcomes with the tables each leaves behind |
| Storages.Storage.DeleteAuthRequest | example/storm-server/storage/auth.go:102-115 | the request goes, and an open code of it becomes a used code |
| Storages.Storage.TrackTokenForAuthRequest | example/storm-server/storage/auth.go:119-123 | the token joins the request's list |
| Storages.Storage.DeleteLinkedRefreshTokens | example/storm-server/storage/auth.go:137-143 | the inner loop removes exactly the refresh tokens linked to one access token |
| Storages.Storage.DeleteTracked | example/storm-server/storage/auth.go:134-144 | the nested loops remove the listed access tokens and every refresh token linked to one of them |
| Storages.Storage.RevokeTokensForUsedCode | example/storm-server/storage/auth.go:127-151 | for a used code the tracked tokens, the linked refresh tokens and the list go; for any other code nothing changes |
| Storages.Storage.CreateAccessToken | example/storm-server/storage/token_store.go:54-77 | one access token with the grant's owner, scopes, binding and claims request, good for an hour |
| Storages.Storage.CreateRefreshToken | example/storm-server/storage/token_store.go:142-170 | one refresh token naming the access token twice, with the DPoP thumbprint of the binding if it has one, and two clock readings |
| Storages.Storage.CreateAccessAndRefreshTokens | example/storm-server/storage/token_store.go:32-52 | the three sections one after the other, each with its own clock readings: both tokens appear and the presented refresh token goes |
| Storages.Storage.SetTokenCNF | example/storm-server/storage/token_store.go:91-101 | rebinds a live access token, else fails |
| Storages.Storage.RevokeToken | example/storm-server/storage/revocation.go:18-45 | an owner's revocation of either kind; refused for others; success without effect for unknown tokens |
| Storages.Storage.TerminateSession | example/storm-server/storage/session.go:35-68 | sessions of the user, and tokens and client session of the user at the client, are removed and nothing else |
| Storages.Storage.RemoveClientSession | example/storm-server/storage/session.go:95-104 | the client leaves the user's list, an emptied list is dropped |
| Storages.Storage.SetIntrospectionFromToken | example/storm-server/storage/userinfo.go:18-60 | answers from the access table, else from any refresh record naming the id, else "not found" |
| CodeRuns.RunKeepsCodeInv | example/storm-server/storage/auth.go:49-151 | in every run live codes and creation times have one domain, live and used codes are disjoint, and each code entry points back |
| CodeRuns.RedemptionMatchesHistory | example/storm-server/storage/auth.go:49-87 | refinement: redemption succeeds if and only if the code was saved at most 60 s ago, was never redeemed, and its request is not deleted; the request returned is the one saved for; a redeemed code answers "already used" |
| CodeRuns.EveryAnswerMatchesHistory | example/storm-server/storage/auth.go:49-87 | all five answers, each if and only if: not found (never saved, or answered as expired before), already used (redeemed, or closed with its request), expired, request deleted, redeemed |
| CodeRuns.CodeLivesForAMinute | example/storm-server/storage/auth.go:47-87 | a code saved and presented after a pause is redeemed for its request up to 60 s, expired after that, and then not found |
| CodeRuns.DeletionUsesUpTheCode | example/storm-server/storage/auth.go:102-115 | deleting a request uses up the code saved for it last |
| CodeRuns.CodeIsSingleUse | example/storm-server/storage/auth.go:49-87 | after one success, in every continuation, the next attempt is told "already used" |
| CodeRuns.SavesAreInTheRun | example/storm-server/storage/auth.go:89-100 | the history's entry for a code is an actual save in the run, at that time |
| CodeRuns.RedeemedInTimeForItsRequest | example/storm-server/storage/auth.go:47-87 | a success comes at most 60 s after a save of that code and returns the request of that save |
| TokenRuns.StepKeepsTokenInv | example/storm-server/storage/token_store.go:32-170 | every store operation keeps the token invariant, including the three sections of a pair interleaved with anything |
| TokenRuns.RunKeepsTokenInv | example/storm-server/storage/token_store.go:32-170 | in every run: `Token` equals `AccessToken` in each refresh record, id spaces are disjoint, links are distinct, linked owners agree |
| TokenRuns.IntrospectionIsUnique | example/storm-server/storage/userinfo.go:22-39 | in a reachable state the map-range order cannot change the answer |
| TokenRuns.ReuseRevokesExactlyTracked | example/storm-server/storage/auth.go:127-151 | reuse of a code silences exactly the tracked ids and removes exactly the refresh tokens linked to them; every other introspection is unchanged |
| TokenRuns.RevokingRefreshCascades | example/storm-server/storage/revocation.go:33-42 | an owner's revocation of a refresh token silences it and its access token, and nothing else |
| TokenRuns.RevokedAccessStaysActiveWhileLinked | example/storm-server/storage/revocation.go:22-31 | an access token revoked alone stays active if and only if a refresh record is linked to it |
| TokenRuns.OnlyTheOwnerRevokes | example/storm-server/storage/revocation.go:18-45 | refusal exactly for a live token of another client, and then nothing changes |
| TokenRuns.TerminationSilencesExactlyTheOwner | example/storm-server/storage/session.go:35-68 | introspection fails for exactly the user's ids at the client; other answers, sessions of others and other logout entries are unchanged |
| TokenRuns.EmptiedListsAreDropped | example/storm-server/storage/session.go:95-104 | a user's list goes with its last client, and no other user's list changes |
| TokenRuns.PairIntrospectsAsGranted | example/storm-server/storage/userinfo.go:22-58 | a fresh pair introspects as granted; after the access token alone is revoked the refresh record answers with its own expiration and no binding |
| TokenRuns.ConfirmationShows | example/storm-server/storage/token_store.go:91-101 | a new binding shows in that token's introspection and in no other |
| TokenRuns.DeadStaysDead | example/storm-server/storage/userinfo.go:22-39 | no operation reactivates an inactive id that is no longer fresh and is not between the first two sections of a pair |
| TokenRuns.DeadForEver | example/storm-server/storage/userinfo.go:22-39 | nor does any continuation, under the same condition |
| TokenRuns.SilentExactlyWhenDead | example/storm-server/storage/userinfo.go:22-39 | an id is inactive in every continuation if and only if it is inactive, no longer fresh and not half issued |
| TokenRuns.ReuseIsFinal | example/storm-server/storage/auth.go:127-151 | after a detected reuse a tracked id is inactive in every continuation if and only if it was issued and is not half issued |
| TokenRuns.RevocationIsFinal | example/storm-server/storage/revocation.go:18-45 | after an owner's revocation of a refresh token neither token of the pair is usable in any continuation |
| TokenRuns.RevokedAccessIsFinal | example/storm-server/storage/revocation.go:22-31 | after an owner's revocation of an access token it is inactive in every continuation if and only if no refresh record is linked to it and it is not half issued |
| TokenRuns.TerminationIsFinal | example/storm-server/storage/session.go:35-68 | after a session ends an id the user had at that client is inactive in every continuation if and only if it is not between the first two sections of a pair |
| TokenRuns.LoggedOutTokenComesBack | example/storm-server/storage/token_store.go:33-41 | the run in which a logged-out access token is active again once its refresh token is created |
| TokenRuns.KillsExactly | example/storm-server/storage/userinfo.go:22-39 | one operation makes an active id inactive for exactly four causes: reuse of the code it is tracked for, an owner's revocation that leaves no link, the end of its owner's session, and deletion of the last record that stood in for it |
| TokenRuns.InactiveExactlyWhenKilled | example/storm-server/storage/userinfo.go:22-39 | over any run, an active id that is not half issued ends inactive if and only if one of these causes struck |
| TokenRuns.PairTradesRefreshTokens | example/storm-server/storage/token_store.go:32-52 | rotation removes the presented refresh token, adds a linked pair with the grant's owner, and touches no other record |
| RotationRuns.RunKeepsRotationInv | example/storm-server/storage/token_store.go:32-52 | in every run, sections interleaved: each family of refresh tokens has an untraded one, has two exactly if a token was presented twice, and a traded token that still lives is about to be deleted |
| RotationRuns.FamilyHasOneLiveToken | example/storm-server/storage/token_store.go:32-52 | in every run a family with no rotation between its second and third section has at most one live token unless a token of it was presented twice |
| RotationRuns.OneLiveTokenExactly | example/storm-server/storage/token_store.go:32-52 | where nothing is revoked such a family has a live token, and only one if and only if no token of it was presented twice |
| RotationRuns.WithoutOverlapOneLives | example/storm-server/storage/token_store.go:32-52 | in every run in which each rotation begins with a token that is live and that no other rotation holds, every family at rest has at most one live token |
| RotationRuns.OverlapLeavesTwo | example/storm-server/storage/token_store.go:41-49 | from every reachable state two overlapping rotations of one live token leave two live tokens in a family at rest |
| RotationRuns.RotationConserves | example/storm-server/storage/token_store.go:32-52 | with nothing in between, the three sections are `CreateAccessAndRefreshTokens`, keep the number of live refresh tokens, and stay in the family |
| RotationRuns.RotatedTokenIsRefused | example/storm-server/storage/token_store.go:44-88 | a presented token, once deleted, is refused by `TokenRequestByRefreshToken` in every continuation |
| ReplayRuns.ReplayKillsTheTokensOfTheCode | pkg/storm/plugins/token/token.go:349-353 | a code is redeemed, a token is tracked, anything happens, the code is presented again: it is refused, and after the revocation the token and every refresh token linked to it are dead for ever |
| ReplayRuns.ReplayKillsExactlyTheTracked | example/storm-server/storage/auth.go:127-151 | right after the revocation an issued token is silent for ever if and only if it was tracked for the code's request, or inactive already |
| ReplayRuns.ReplayBeforeTracking | pkg/storm/plugins/token/token.go:349-438 | the run in which a replay strikes between issue and tracking, and both tokens stay |
| LoginChallenge.LoginStore.CreateAuthRequest | example/storm-server/storage/auth.go:22-31 | adds an open request |
| LoginChallenge.LoginStore.CompleteAuthRequest | example/storm-server/storage/session.go:276-295 | succeeds exactly for an existing open request, whose record then holds the given subject, authentication time and session and the first requested acr; otherwise nothing changes |
| LoginChallenge.LoginStore.CheckUsernamePassword | example/storm-server/storage/session.go:237-270 | a matching account completes an existing request, completed before or not, with its user, the time and the first requested acr, and opens a session for the request's client |
| LoginRuns.RunKeepsInv | pkg/storm/plugins/authorization/handler.go:331-659 | the handler invariant holds after every interleaving of lock sections and unlocked reads |
| LoginRuns.CompletedAtMostOnce | example/storm-server/storage/session.go:276-295 | at most one `CompleteAuthRequest` succeeds per request, in every interleaving |
| LoginRuns.CompletedRecordHoldsTheWinnersData | example/storm-server/storage/session.go:287-293 | in every run a completed record holds its winner's session, and its subject and authentication time unless a later login form brought its own |
| LoginRuns.OneAcceptWins | pkg/storm/plugins/authorization/handler.go:519-574 | of any number of accept calls for one request at most one is answered with the redirect |
| LoginRuns.AcceptStep | pkg/storm/plugins/authorization/handler.go:519-574 | one step ends an accept call in each of its four answers if and only if: not stored, done when read, completed by this call, or not completable any more |
| LoginRuns.CallbackStep | pkg/storm/plugins/authorization/handler.go:417-469 | one step ends a callback in the response iff it reads a done record without error, in "interaction required" iff it reads one that is not done without error, in the error redirect iff it carries an error |
| LoginRuns.AutoStep | pkg/storm/plugins/authorization/handler.go:337-356 | the auto-completing branch is answered with the response iff it fetches the completed request while that is stored; it goes on to fetching when it completed the request |
| LoginRuns.FirstStep | pkg/storm/plugins/authorization/handler.go:337-337 | a handler goes on with a stored request, and the auto-completing branch creates an open one with its subject and a session of its own |
| LoginRuns.DeletedRequestIsNotFound | example/storm-server/storage/auth.go:102-115 | a deleted request is found by no handler that looks for it afterwards, while its record stays readable |
| LoginRuns.CallbackIsAnswered | pkg/storm/plugins/authorization/handler.go:461-468 | a run in which a callback after a login gets the response |
| LoginRuns.AutoIsAnswered | pkg/storm/plugins/authorization/handler.go:383-394 | a run in which the auto-completing branch gets it, with its own data in the record |
| LoginRuns.BothMayPassTheTest | pkg/storm/plugins/authorization/handler.go:532-556 | two accept calls can both pass the unlocked `Done()` test |
| LoginRuns.DoneIsForEver | example/storm-server/storage/session.go:237-295 | a request that is done stays done in every continuation |
| LoginRuns.RejectStep | pkg/storm/plugins/authorization/handler.go:634-659 | one step answers a reject call with the redirect if and only if that call reads a record that is not done |
| LoginRuns.RejectedWhileOpen | pkg/storm/plugins/authorization/handler.go:634-659 | every reject redirect was answered from a state in which the request was not done |
| LoginRuns.NoRejectAfterDone | pkg/storm/plugins/authorization/handler.go:634-643 | a completed request can no longer be rejected, in any continuation |
| LoginRuns.RejectedAndAccepted | pkg/storm/plugins/authorization/handler.go:634-659 | the run in which one request is answered with both redirects, the reject first |
| LoginRuns.ResponseNeedsCompletion | pkg/storm/plugins/authorization/handler.go:345-468 | an authorization response is produced only for a done request, by the callback and by the auto-completing branches |
| LoginRuns.CompletedSubject | pkg/storm/plugins/authorization/handler.go:556-574 | in every run the subject of an accepted request is the accepted one, or that of the last login form after it |
| LoginRuns.SubjectStep | example/storm-server/storage/session.go:237-270 | one step keeps the subject of a completed request if and only if it is no login form of another user for a request in the store |
| LoginRuns.CompletedSubjectIsKept | pkg/storm/plugins/authorization/handler.go:556-574 | the winner's subject is kept throughout a continuation if and only if no such login form comes in |
| LoginRuns.LoginFormChangesSubject | example/storm-server/storage/session.go:246-248 | the run in which an accept is answered with the redirect and a login form then changes the subject |
| Devices.DeviceAuthStore.StoreDeviceAuthorization | example/storm-server/storage/device.go:39-52 | the same new record, undecided and never polled, goes into both indexes; they stay consistent if and only if both codes are new or replace the same pair |
| Devices.DeviceAuthStore.GetDeviceAuthorizationState | example/storm-server/storage/device.go:54-73 | the record of a device code |
| Devices.DeviceAuthStore.GetDeviceAuthorizationByUserCode | example/storm-server/storage/device.go:75-94 | finds a record if and only if the table by device code has one with that user code, and returns it |
| Devices.DeviceAuthStore.UpdateDeviceAuthorizationPoll | example/storm-server/storage/device.go:96-105 | changes the last poll of one record, seen through both indexes |
| Devices.DeviceAuthStore.UpdateDeviceAuthorizationInterval | example/storm-server/storage/device.go:107-116 | adds to the interval of one record |
| Devices.DeviceAuthStore.ApproveDeviceAuthorization | example/storm-server/storage/device.go:118-128 | an approval by user code appears in the table by device code |
| Devices.DeviceAuthStore.DenyDeviceAuthorization | example/storm-server/storage/device.go:130-139 | so does a denial |
| Devices.DeviceAuthStore.CleanupExpired | example/storm-server/storage/device.go:142-152 | removes exactly the expired records, from both indexes |
| Devices.PollSeesApproval | example/storm-server/storage/device.go:54-152 | in every continuation that does not reuse the codes, the record is there until a cleanup after its expiry, approved with that subject |
| Devices.PollSeesDenial | example/storm-server/storage/device.go:54-152 | the same for a denial, which no later approval takes back |
| Devices.PollAndSlowDownAreRecorded | example/storm-server/storage/device.go:96-116 | each is recorded for its own grant and no other |
| Devices.ApproveAndDenyChangeOneGrant | example/storm-server/storage/device.go:118-139 | what each changes in the record of its user code, and that records under other user codes stay as they are |
| Bytes.XorByteCancels | pkg/crypto/provider/std/content.go:127-129 | exclusive or with the same byte twice is the identity |
| Bytes.XorByteDigits | pkg/crypto/provider/std/content.go:127-129 | it is the one byte in which a digit is 1 iff exactly one of the two digits is |
| CbcContent.CbcDecryptInverts | pkg/crypto/provider/std/content.go:213-215 | CBC decryption undoes CBC encryption, for every number of blocks and every IV |
| CbcContent.EveryBlockChains | pkg/crypto/provider/std/content.go:127-129 | every ciphertext block deciphers to its plaintext block combined digit by digit with the block before, the IV for the first |
| CbcContent.SealHasItsForm | pkg/crypto/provider/std/content.go:100-155 | a sealed value byte by byte: padding, chaining under the second half of the key, and the front of the MAC over additional data, IV, ciphertext and length; sealing succeeds exactly for 32, 48 or 64 key bytes by algorithm and a 16-byte IV |
| CbcContent.OpenRefusesExactly | pkg/crypto/provider/std/content.go:159-231 | each way of refusing a value, if and only if; bad padding means that the value seals no plaintext at all |
| CbcContent.OtherDataIsRefused | pkg/crypto/provider/std/content.go:181-208 | under another IV or other additional data a sealed value is a tag mismatch if and only if the truncated MACs of two certainly different inputs differ |
| CbcContent.CbcEncryptInverts | pkg/crypto/provider/std/content.go:127-129 | and the other way round |
| CbcContent.UnpadInvertsPad | pkg/crypto/provider/std/content.go:217-230 | unpadding undoes padding, for every length |
| CbcContent.PadInvertsUnpad | pkg/crypto/provider/std/content.go:217-230 | only the canonical padding is accepted |
| CbcContent.LengthFieldDecodes | pkg/crypto/provider/std/content.go:132-141 | the eight bytes written are the bit length in big-endian order |
| CbcContent.MacInputIsUnambiguous | pkg/crypto/provider/std/content.go:143-149 | two sealings with the same MAC input have the same IV, ciphertext and additional data |
| CbcContent.WriteLengthField | pkg/crypto/provider/std/content.go:132-141 | the eight stores fill the buffer with the length field of 8 * len(aad) |
| CbcContent.PadBuffer | pkg/crypto/provider/std/content.go:119-125 | the copied and filled buffer is the plaintext and then, up to the next multiple of 16, bytes that give their own number |
| CbcContent.ComputeTag | pkg/crypto/provider/std/content.go:131-149 | the tag is the truncated MAC, of full tag size |
| CbcContent.StripPadding | pkg/crypto/provider/std/content.go:217-230 | the checking loop accepts exactly the canonical paddings and removes them |
| CbcContent.AESCBCEncrypt | pkg/crypto/provider/std/content.go:100-155 | every branch and buffer of sealing, within bounds; a result has the form above, and each error has its one cause |
| CbcContent.AESCBCDecrypt | pkg/crypto/provider/std/content.go:159-231 | every branch of opening, in the order of the code, within bounds |
| CbcContent.OpenInvertsSeal | pkg/crypto/provider/std/content.go:100-231 | opening what was sealed returns the plaintext, for every algorithm, key, IV, length and additional data |
| CbcContent.SealInvertsOpen | pkg/crypto/provider/std/content.go:159-231 | an accepted value is what sealing its plaintext yields if and only if it is longer than the tag |
| CbcContent.BareTagOpens | pkg/crypto/provider/std/content.go:181-219 | for every valid key and IV the tag over the empty ciphertext opens, and sealing never yields it |
| CbcContent.SealSucceeds | pkg/crypto/provider/std/content.go:100-155 | sealing fails exactly for an unknown algorithm, a wrong key length or a wrong IV length; the length of its result |
| Base64Url.DecodeInvertsEncode | pkg/crypto/provider/std/jwe_dir.go:61-64 | decoding undoes encoding, for every byte string |
| Base64Url.LetterCodes | pkg/crypto/provider/std/jwe_dir.go:61-64 | the letters are Table 2 of RFC 4648, by character code |
| Base64Url.GroupsWriteTheSameNumber | pkg/crypto/provider/std/jwe_dir.go:61-64 | each group of up to three bytes and its letters write the same number, filled up with zero bits at the end |
| Base64Url.DecodableExactly | pkg/crypto/provider/std/jwe_dir.go:77-90 | without line breaks exactly the texts of letters decode whose length is not one more than a multiple of four |
| Base64Url.DecodeIgnoresBreaks | pkg/crypto/provider/std/jwe_dir.go:77-90 | a carriage return or line feed anywhere makes no difference |
| Base64Url.EncodeInvertsDecode | pkg/crypto/provider/std/jwe_dir.go:77-90 | encoding undoes decoding if and only if the text has no line break and a zero tail |
| Base64Url.LineBreakDecodes | pkg/crypto/provider/std/jwe_dir.go:77-90 | an encoding followed by a line break decodes to the same bytes |
| Base64Url.NonzeroTailDecodes | pkg/crypto/provider/std/jwe_dir.go:77-90 | each byte has sixteen two-letter texts, and only the one with a zero tail is its encoding |
| Base64Url.NoDots | pkg/crypto/provider/std/jwe_dir.go:61-64 | encodings have no dot, and no text with a dot decodes |
| JweDir.FindDot | pkg/crypto/provider/std/jwe_dir.go:118-125 | the index of the first dot, or -1 |
| JweDir.ParseCompactParts | pkg/crypto/provider/std/jwe_dir.go:103-116 | the loop cuts at the first four dots and keeps the rest whole, or fails |
| JweDir.StdEncryptDir | pkg/crypto/provider/std/jwe_dir.go:16-65 | the software encryption with its IV buffer and concatenation; what it frames was sealed by the AEAD primitive with exactly the characters of its own first part as additional data |
| JweDir.StdDecryptDirCode | pkg/crypto/provider/std/jwe_dir.go:68-101 | the software decryption with every error branch, and the panic of AES-GCM |
| JweDir.SplitInvertsCompact | pkg/crypto/jwe.go:118-119 | splitting a join of dot-free parts gives the parts back, by `strings.Split` and by the four cuts alike |
| JweDir.CutCountsDots | pkg/crypto/provider/std/jwe_dir.go:103-116 | k cuts succeed if and only if there are k dots; further dots stay in the last part; joining gives the text back |
| JweDir.FrameSplits | pkg/crypto/jwe.go:118-230 | both parsers recover the five parts of every frame |
| JweDir.OpensAnyCut | pkg/crypto/jwe.go:208-227 | wherever the sealed bytes were cut into ciphertext and tag, the decryptor puts them together again |
| JweDir.FramesDecrypt | pkg/crypto/jwe.go:118-230 | a frame cut at any place decrypts to the plaintext, through header parsing and provider dispatch |
| JweDir.DecryptInvertsEncrypt | pkg/crypto/jwe.go:88-230 | whenever encryption with `dir` succeeds, `DecryptJWE` under the same key returns the plaintext, empty or not |
| JweDir.EncryptDirSealsItsHeader | pkg/crypto/jwe.go:163-199 | what `dir` encryption hands out is a frame of header, empty key, IV, and sealed bytes with the last 16 apart, sealed under the characters of its own header by the registered provider, else by the AEAD primitive |
| JweDir.SoftwareSealsExactly | pkg/crypto/provider/std/jwe_dir.go:24-52 | the five algorithms, key lengths and nonce length for which the software mode seals |
| JweDir.ReplacedHeaderNeverDecrypts | pkg/crypto/jwe.go:118-230 | if no opener accepts the sealed bytes under other additional data, the text with any other first part never decrypts |
| JweDir.DecryptCountsDots | pkg/crypto/jwe.go:118-128 | a text is passed through if and only if it has two dots, and refused unless it has two or four |
| JweDir.OnlyFourDotsDecrypt | pkg/crypto/provider/std/jwe_dir.go:68-116 | a text with more than four dots passes the parser but never decrypts |
| JweDir.DefaultRegistryOpensWhatItSeals | pkg/crypto/registry.go:418-431 | with the default providers and the software fall-back, every algorithm opens what it seals |
| JweDir.CbcNeverEncryptsInDirMode | pkg/crypto/jwe.go:172-186 | with the default providers `dir` encryption fails for every CBC algorithm |
| JweDir.DecryptPanicsExactly | pkg/crypto/provider/std/content.go:37-47 | with the default providers `DecryptJWE` panics if and only if the header says AES-GCM, the key has an AES length and the decoded IV is not 12 bytes |
| JweDir.WrongNoncePanics | pkg/crypto/jwe.go:205-229 | every frame with such an IV does |
| TokenTimes.IssuedAtWindow | pkg/protocol/verifier.go:447-464 | the exact clock readings, two per call, at which an issue time passes |
| TokenTimes.IssuedAtVerdicts | pkg/protocol/verifier.go:447-464 | every answer about an issue time, each if and only if, with the zero claim and the zero maximum age |
| TokenTimes.TokenWindow | pkg/protocol/verifier.go:439-464 | the readings passing both checks form one half-open interval, with half seconds from the rounding |
| TokenTimes.AuthTimeWindow | pkg/protocol/verifier.go:482-495 | an authentication counts as recent for the maximum age plus up to half a second |
| TokenTimes.AuthTimeVerdicts | pkg/protocol/verifier.go:482-495 | every answer about an authentication time; without a maximum age a missing one passes |
| TokenTimes.RequestObjectWindow | pkg/storm/shared/requestobject.go:108-143 | the readings at which a request object passes, with and without the FAPI rules, in whole seconds of its claims |
| TokenTimes.RequestObjectVerdicts | pkg/storm/shared/requestobject.go:112-133 | every answer about a FAPI request object, each if and only if, in the order of the checks |
| TokenTimes.RequestObjectSpan | pkg/storm/shared/requestobject.go:108-133 | two readings at which the same FAPI request object passes are at most 60 min + 20 s apart |
| TokenTimes.RequestObjectSpanIsSharp | pkg/storm/shared/requestobject.go:108-133 | that bound is reached |
| TokenTimes.ProfileOnlyAddsRequirements | pkg/storm/shared/requestobject.go:112-143 | a FAPI object passes if and only if both claims are there, the lifetime is allowed and the plain rules pass |

## Left out

- CreateAccessAndRefreshTokens: the method runs its three sections without interruption; their interleaving is the subject of the runs (`BeginPair`, `EndPair`, `Retire`).
- CheckUsernamePassword: the rebuilding of extra ID-token claims is not modelled, because user claims are not.
- Conformance of the CBC tag to section 5.2.2.1 of RFC 7518: the code's MAC takes no key, so only the round trip is claimed.
- Cryptographic primitives (AES, SM2, SM3, SM4, SM9, SHA, GCM, CCM) and the JOSE library: parameters with the laws listed above.
- The JWE algorithms other than `dir`, providers registered for the algorithm name `dir` itself, and keys that are not byte strings; another `alg` in the header is reported as not served.
- HTTP parsing and redirects, JARM, logging and tracing, discovery, client registration, user claims and `SetUserinfoFromToken`: input and output or simple copying.
- The handlers of the authorization plugin are step functions over lock sections and unlocked reads, not methods, because the property is about their interleaving.
- Recording and looking up sessions; the session tables are modelled as far as a login fills them and `TerminateSession` empties them.
- DPoP binding of authorization requests (`SetAuthRequestDPoPJKT`) and `CopyRequestObjectToAuthRequest`: field copies.
- Token records are values in the store's tables; that Go hands out pointers to them is not modelled. It matters for refresh tokens: `TokenRequestByRefreshToken` returns a wrapper around the stored record (`example/storm-server/storage/oidc.go:286-299`), and a refresh request for fewer scopes overwrites that record's scopes without the lock (`pkg/storm/plugins/token/util.go:82-92`), also for an introspection that falls back on it. Login requests and device records are heap objects here.
- Tokens minted by a later refresh are not on the list that a code reuse revokes, in the code or here.
- Overflow of Go durations and of 64-bit instants.
- The goroutine scheduler: `WaiterCanFinish` shows that an answer is always reachable, not that the scheduler gets there.
