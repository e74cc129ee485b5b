# Verified models of the compliance kit's hard parts

This project models, in Dafny, the parts of the compliance kit whose correctness spans several
functions or several processes, and proves what the kit's code and documentation promise of them
for every input, every run and every interleaving:

- **the hash-chained audit log** (`AuditEncoding`, `AuditChain`, `AuditAppend`): the canonical
  encoding, the first-break verifier and its paged walk, tamper evidence, and any number of
  concurrent appenders, with and without the advisory lock;
- **resumable tenant provisioning** (`Provisioning`, `ConnectionManager`): runs interleaving over
  the registry and the cluster, with crashes after any statement, lost lock sessions, retries and
  operators deleting rows, and the same code as one uninterrupted method;
- **the sliding-window limiter and the login throttle** (`RateLimit`, `LoginThrottle`): a trimmed,
  expiring sorted set of member ids against a plain log of accepted times, and two counters driven
  by logins;
- **the token keys** (`KeyLoading`, `KeyLifecycle`, `KeyRegistry`, `Tokens`): the pending, active,
  retiring, revoked machine, the snapshot each instance holds of it, and how long a token lives
  across rotations;
- **two text codecs** (`ClientAddress`, `JsonPointer`): an IPv6 parser that must not depend on
  spelling (sections 2.2 and 2.5.5.2 of RFC 4291) and a JSON Pointer printer over a recursive error
  tree (sections 3 and 4 of RFC 6901). `Text` holds what they share.

`dafny verify dfyconfig.toml` checks everything.

## How the source is read

- Text that is hashed is a sequence of UTF-8 octets, one `char` each, so a byte length is a length.
  SHA-256 is an arbitrary function to 32-byte strings: nothing is assumed of it, and tamper evidence
  is stated as "equal, or here is a collision". The key order of the canonical form is an arbitrary
  strict total order, of which JavaScript's is one.
- Postgres and Redis appear as the guarantees the code relies on: atomic transactions, advisory lock
  exclusion, unique indexes, atomic scripts, one non-decreasing server clock.
- A concurrent protocol is a transition system whose steps are the code's own statements. Where the
  code updates state in place on its own, a class does the same, and its methods are proved against
  the functions the theorems are about.
- Clocks, random ids, generated keys, query results and the reachability of a store are parameters;
  an exception is a value of the result type.
- Where a promise turned out to hold only under a condition, the exact condition is proved and,
  where one can be written down, a failing input given: a token issued while its keys are active can still outlive them
  (`Tokens.TokenLivesItsWholeLifeIff`, `Tokens.TokenIssuedBeforeTheCommitDiesEarly`); one issued late
  can lose up to 999 ms more than it was late (`Tokens.PlainLateBoundHoldsIff`,
  `Tokens.PlainLateBoundFails`); a marker set on a database between the read and the build is
  overwritten (`Provisioning.MarkedDatabaseIsChangedIff`,
  `Provisioning.MarkerSetAfterTheReadIsOverwritten`); database names coincide for slugs of one class
  (`Provisioning.DatabaseNamesCoincideIff`, `Provisioning.DatabaseNamesCanCollide`); the empty path
  prints like the path to the empty name (`JsonPointer.PointerInjective`) and a pointer read as a URI
  fragment can be misread (`JsonPointer.FragmentRoundTripIff`, `JsonPointer.FragmentMisread`); a chain whose head equals the genesis
  hash cannot be extended (`AuditAppend.LockedInsertSucceeds`).

## Model

| member | source | states |
|---|---|---|
| AuditEncoding.CanonicalAuditForm | packages/crypto/src/audit-hash.ts:90-116 | the two loops and the join build the form whose bytes are spelled out next |
| AuditEncoding.FormIsSpelledOut | packages/crypto/src/audit-hash.ts:90-116 | what the bytes are: the domain text, each of the eight fields on a line under its own name, as `null` or behind its byte length, in the order of the names, then each metadata entry in key order with both lengths |
| AuditEncoding.CanonicalFormIsInjective | packages/crypto/src/audit-hash.ts:90-116 | two events have the same bytes if and only if they carry the same evidence: equal scalars, equal metadata maps whatever the insertion order; no assumption on colons, newlines or digits inside values |
| AuditEncoding.HashInputIsInjective | packages/crypto/src/audit-hash.ts:129-137 | predecessor digest followed by canonical form determines both the predecessor and the evidence, and conversely |
| AuditEncoding.HashInputIsSpelledOut | packages/crypto/src/audit-hash.ts:129-137 | what is hashed: the 32 octets of the predecessor, then those bytes |
| AuditChain.VerifyAuditChain | packages/crypto/src/audit-hash.ts:173-206 | the loop returns the one correct verdict: intact exactly when every link and every hash holds, otherwise the first bad event, all earlier ones valid, with its reason, expected and actual value |
| AuditChain.VerdictExplains | packages/crypto/src/audit-hash.ts:180-203 | what a break reports: the seq of the event it stops at, which of the three reasons, the expected and the actual value, each in terms of that event and its predecessor |
| AuditChain.SoundMeans | packages/crypto/src/audit-hash.ts:129-137 | an event is sound if and only if it names its predecessor's 32-octet hash and carries SHA-256 over that and its encoding |
| AuditChain.VerdictIsUnique | packages/crypto/src/audit-hash.ts:173-206 | for a chain and a starting hash there is one correct verdict and one stopping place |
| AuditChain.ThrowsExactlyOnBadStart | packages/crypto/src/audit-hash.ts:129-135 | the width check raises during a walk exactly when the caller's starting hash has the wrong width and the first event repeats it |
| AuditChain.VerifyPaged | packages/db/src/audit/verify-chain.ts:198-242 | for every page size, over a table that may grow between the pages, the loop terminates with the break, the reason and the verified count that one walk over the rows with a positive seq gives of the table its last read saw, and never raises |
| AuditChain.NextPage | packages/db/src/audit/verify-chain.ts:100-111 | the page read after the last seen seq is the next stretch of the table, empty only at its end |
| AuditChain.WalkResumes | packages/db/src/audit/verify-chain.ts:198-242 | a walk over a stretch, started from the hash before it, stops where the whole walk stops |
| AuditChain.CompareIsJustified | packages/crypto/src/audit-hash.ts:173-206 | for any encoding: two accepted chains with the same head have the same history, or the comparison returns two distinct inputs with one hash, or an input hashing to the genesis value |
| AuditChain.SameHistoryAgrees | packages/crypto/src/audit-hash.ts:173-206 | conversely chains with the same history share their head and compare as equal |
| AuditChain.SameHeadSameEvidence | packages/crypto/src/audit-hash.ts:129-206 | tamper evidence for the canonical form: same head means the same evidence event by event, or an explicit collision, or an explicit genesis preimage |
| AuditAppend.RunKeepsInv | packages/db/src/audit/audit-writer.ts:100-171 | in every reachable state, lock or no lock: one chain, every head read is a past or present head, a drawn sequence number is still the largest unless its head read is out of date, at most one uncommitted row, and that row extends the head |
| AuditAppend.CommittedRowsVerify | packages/db/src/audit/audit-writer.ts:100-171 | in every reachable state of any number of appenders, however long an insert waited with the number it had drawn, the committed rows in seq order are one unforked chain that the verifier accepts from genesis; the unique index alone is enough |
| AuditAppend.WalkWhileAppending | packages/db/src/audit/verify-chain.ts:198-242 | a paged walk during appends sees a table that only grows, and the only correct verdict on what any of its reads sees is that the chain is intact |
| AuditAppend.TableOnlyGrows | packages/db/src/audit/audit-writer.ts:100-171 | along every run committed rows are only ever added, at the end |
| AuditAppend.StaleInsertIsRefused | packages/db/src/audit/audit-writer.ts:23-26 | with or without the lock an insert whose head read is out of date is always refused |
| AuditAppend.LockedInsertSucceeds | packages/db/src/audit/audit-writer.ts:120-164 | under the lock one appender at a time is past it, its head is current, its insert never waits, and `UNIQUE(prev_hash)` refuses it exactly when a non-empty chain's head is the genesis hash |
| AuditAppend.LockEndsWithItsTransaction | packages/db/src/audit/audit-writer.ts:104-107 | in every reachable state whoever holds the lock has neither committed nor aborted |
| AuditAppend.UninterruptedAppendCompletes | packages/db/src/audit/audit-writer.ts:100-171 | from any reachable state with the lock free and no uncommitted row, the five steps append exactly the requested row and release the lock, unless an index refuses it |
| AuditAppend.AuditTable.AppendAuditEvent | packages/db/src/audit/audit-writer.ts:100-171 | the append as written keeps one accepted chain and adds one row: every field the requested one, absent ones null, the metadata or none, the given time, the head as predecessor and the hash over both; or it throws exactly when a unique index refuses the row |
| Provisioning.DatabaseNamesAreSafe | packages/db/src/connection-manager.ts:89-95 | a derived name always passes the identifier check and exists exactly for slugs of at most 56 UTF-16 units |
| Provisioning.SafeSlugName | packages/db/src/connection-manager.ts:89-95 | a slug of safe characters names `tenant_` followed by itself |
| Provisioning.DatabaseNamesCoincideIff | packages/db/src/connection-manager.ts:89-95 | two slugs, of any characters, share a name if and only if they agree unit by unit on the letter up to case, on the digit, or on being neither |
| Provisioning.ValidSlugsHaveDistinctNames | packages/db/src/connection-manager.ts:89-95 | so two slugs of the validated form share a name only if they are equal |
| Provisioning.DatabaseNamesCanCollide | packages/db/src/connection-manager.ts:89-95 | a pair of other slugs that does share one |
| Provisioning.MarkerInjective | packages/db/src/connection-manager.ts:115-117 | a marker names one registry row |
| Provisioning.HistoryKeepsInv | packages/db/src/connection-manager.ts:228-530 | what every statement of every run and every environment event keeps: ids and names unique, a marker naming a row sits on that row's own finished database, a run about to activate has its database built |
| Provisioning.ActivatedTenantsOwnTheirDatabase | packages/db/src/connection-manager.ts:228-247 | in every history each registered row that a run made active has a database marked with its own id, seeded exactly once and shared with no other row |
| Provisioning.RunStepOnlyBuildsUnbuilt | packages/db/src/connection-manager.ts:454-530 | the only change a run makes to an existing database is the build, only when it holds no tenant tables, and that adds the schema, one seeding and the marker of its row and keeps everything else; a database it creates is its own and empty |
| Provisioning.TakenDatabasesAreNeverChanged | packages/db/src/connection-manager.ts:454-530 | in every history a database that holds tenant tables, or carries any marker while no run stands at its build, is never changed by any run |
| Provisioning.MarkedDatabaseIsChangedIff | packages/db/src/connection-manager.ts:454-530 | in every history a database that carries a marker, whoever it names, is changed by the runs that follow if and only if it holds no tenant tables and a run that was already past its marker read goes through with its build |
| Provisioning.AtBuildHasReadUnmarked | packages/db/src/connection-manager.ts:470-484 | a run at its build read, at some earlier moment, that the database carried no marker, and has stood there ever since |
| Provisioning.MarkerSetAfterTheReadIsOverwritten | packages/db/src/connection-manager.ts:470-520 | the concrete history in which a marker set between the read and the build is overwritten |
| Provisioning.ProvisioningLockExcludes | packages/db/src/connection-manager.ts:315-342 | two runs for one database never hold the lock together, and an ended run never holds it |
| Provisioning.LocksDoNotOutliveRuns | packages/db/src/connection-manager.ts:315-342 | in every history a lock is held by a run for its database that is still going: none survives its run, however that ends |
| Provisioning.UninterruptedRun | packages/db/src/connection-manager.ts:228-304 | from any state one uninterrupted run is refused while the lock is held, and otherwise ends active exactly when its row can be settled and the database is absent, unmarked without tenant tables, or its own; refusals change no database and no existing row |
| Provisioning.RetryCompletes | packages/db/src/connection-manager.ts:228-247 | from any interrupted state whose database is absent, empty of tenant objects or marked for this row, repeating the request ends active, reports resumed, and leaves the database built for that row |
| Provisioning.RetryCompletesIff | packages/db/src/connection-manager.ts:228-304 | for a registered slug a run completes if and only if the row is still provisioning under the same name and database name and the database may be adopted; a different name or a final status is told from a database conflict, and every row and database is left unchanged |
| Provisioning.NewRequestOutcome | packages/db/src/connection-manager.ts:268-304 | for a slug nobody has, a run inserts its row unless the database name is taken, completes if and only if the database may be adopted, and reports that it was not resumed |
| ConnectionManager.ConnectionManager.ProvisionTenant | packages/db/src/connection-manager.ts:228-247 | the method, left alone, gives the answer, rows, databases and locks of the transition system; when it provisions, the row is the request's, active, resumed exactly if it was there, and its database marked for it |
| ConnectionManager.ConnectionManager.RegisterOrResume | packages/db/src/connection-manager.ts:268-304 | resumes only a provisioning row of the same name and database, refuses any other row, otherwise inserts one |
| ConnectionManager.ConnectionManager.CreateDatabase | packages/db/src/connection-manager.ts:408-424 | an existing database is left alone, a missing one is created empty |
| ConnectionManager.ConnectionManager.InitializeTenantDatabase | packages/db/src/connection-manager.ts:454-530 | builds exactly the databases that may be adopted and leaves every other one as it was |
| ConnectionManager.ConnectionManager.GetTenantDb | packages/db/src/connection-manager.ts:185-196 | one client per tenant id, the same one every time, bound to the database first named, and no two tenants share a pool |
| RateLimit.MemberIdsAreUnique | services/auth/src/ratelimit/rate-limit.store.ts:136-143 | member ids are equal only for the same process and the same counter value |
| RateLimit.MemberIdFactory.Next | services/auth/src/ratelimit/rate-limit.store.ts:136-143 | each call advances the captured counter and returns the id for it |
| RateLimit.Redis.SlidingWindowScript | services/auth/src/ratelimit/rate-limit.store.ts:55-85 | the script statement by statement computes the specified reply and bucket and touches no other key |
| RateLimit.Redis.PeekWindowScript | services/auth/src/ratelimit/rate-limit.store.ts:96-112 | the same for the read-only script, which only trims |
| RateLimit.RateLimitStore.Peek | services/auth/src/ratelimit/rate-limit.store.ts:183-195 | reports the window, or allowed and degraded when Redis was not reached or its answer was lost |
| RateLimit.RateLimitStore.Consume | services/auth/src/ratelimit/rate-limit.store.ts:203-252 | draws one member id in every case; counts the event if Redis is reached, and answers by the fail-open policy if it is not or if its answer is lost |
| RateLimit.RateLimitStore.Reset | services/auth/src/ratelimit/rate-limit.store.ts:261-271 | forgets exactly that key, or nothing |
| RateLimit.ConsumeAgrees | services/auth/src/ratelimit/rate-limit.store.ts:64-84 | against the plain log: the reply is decided by the count in (now - window, now], and an accepted event adds exactly one entry to the set and one time to the log |
| RateLimit.ExpiryDropsNothingLive | services/auth/src/ratelimit/rate-limit.store.ts:80-83 | from the key's deadline on no event is inside the window any more |
| RateLimit.LimiterRefinesLog | services/auth/src/ratelimit/rate-limit.store.ts:55-112 | over every run of any number of replicas, with calls that fail, answers that are lost, expiries and resets, the trimmed expiring set answers exactly as the untrimmed log and never stores more than `limit` members |
| RateLimit.PeeksAreInvisible | services/auth/src/ratelimit/rate-limit.store.ts:96-112 | inserting a peek anywhere in a run changes no later answer |
| RateLimit.AnswersByCount | services/auth/src/ratelimit/rate-limit.store.ts:64-84 | what an answer says: allowed exactly when fewer than `limit` events were accepted in (now - window, now], with that number, counting this one if it is; a look reports the same number and the wait of a refusal |
| RateLimit.PeekedWaitIsExact | services/auth/src/ratelimit/rate-limit.store.ts:96-112 | the wait a look reports is the time until the window first holds fewer of its events, and none when it is empty |
| RateLimit.KeyExpiresOneWindowAfterLast | services/auth/src/ratelimit/rate-limit.store.ts:80-83 | a bucket's key expires one window after the last event it accepted |
| RateLimit.LimitHoldsInEveryWindow | services/auth/src/ratelimit/rate-limit.store.ts:55-85 | after any run, a stretch without a reset accepts at most `limit` events in any `window` consecutive milliseconds |
| RateLimit.ReportedWaitIsExact | services/auth/src/ratelimit/rate-limit.store.ts:67-77 | a refusal reports a wait r > 0; every consume less than r later is refused, and the first one r or more later is accepted |
| RateLimit.OnKeyProjects | services/auth/src/ratelimit/rate-limit.store.ts:203-252 | an operation on one key is, to every other key, at most the passing of time and the drawing of a member id |
| LoginThrottle.CountersAreApart | services/auth/src/auth/login-throttle.service.ts:154-166 | the account and the address counter never share a bucket |
| LoginThrottle.OneCounterPerAccount | services/auth/src/auth/login-throttle.service.ts:154-160 | two callers share an account counter if and only if their tenants and their normalised emails are equal, or the digest maps two different texts to one value |
| LoginThrottle.LoginLeavesOtherAccounts | services/auth/src/auth/login-throttle.service.ts:154-160 | so, short of a digest collision, a login leaves the counter of every other account, of another tenant say, as it was |
| LoginThrottle.OneCounterPerSource | services/auth/src/auth/login-throttle.service.ts:162-166 | two addresses, however written, feed one address counter if and only if they are one source |
| LoginThrottle.VerdictIff | services/auth/src/auth/login-throttle.service.ts:74-117 | the check, exactly: one second if a counter could not be read; passed if both were read and have room; otherwise the least number of whole seconds, at least one, that covers both waits |
| LoginThrottle.OutcomeIff | services/auth/src/auth/auth.service.ts:78-147 | a login is refused exactly when the check does not pass, and otherwise succeeds or fails with its password |
| LoginThrottle.RetryAfterSeconds | packages/common/src/index.ts:345-352 | the least whole number of seconds, at least one, that covers the wait |
| LoginThrottle.LoginThrottleService.AssertWithinLimitsNow | services/auth/src/auth/login-throttle.service.ts:74-117 | reads both counters, refuses when either is unreadable, otherwise refuses with the larger of the two waits or passes |
| LoginThrottle.LoginThrottleService.RecordFailureNow | services/auth/src/auth/login-throttle.service.ts:120-133 | counts one event on the account and one on the address, and nothing else |
| LoginThrottle.LoginThrottleService.RecordSuccessNow | services/auth/src/auth/login-throttle.service.ts:136-138 | clears the account counter and leaves the address counter alone |
| LoginThrottle.LoginTracks | services/auth/src/auth/auth.service.ts:78-147 | the log of each counter after a login, from the login's outcome alone |
| LoginThrottle.EachFailureIsRecorded | services/auth/src/auth/auth.service.ts:78-147 | in every run of logins that do not overlap, a login that reaches the password check and fails is counted on each counter exactly if Redis is reached, whether or not the answer arrives |
| LoginThrottle.AddressFailuresPerWindow | services/auth/src/auth/login-throttle.service.ts:74-138 | one address identity has at most `limit` such failures in any window over the whole run, whatever succeeds in between, plus those whose recording never reached Redis |
| LoginThrottle.AccountFailuresPerWindow | services/auth/src/auth/login-throttle.service.ts:74-138 | one account has at most `limit` such failures in any window between its successes, plus those whose recording never reached Redis |
| LoginThrottle.NothingUnrecorded | services/auth/src/auth/login-throttle.service.ts:120-133 | when every recording reaches Redis there are none of the latter, so both bounds are `limit` |
| LoginThrottle.ReportedSecondsSuffice | services/auth/src/auth/login-throttle.service.ts:102-116 | after any run, a caller refused with N seconds who returns N seconds or more later, with no failure on either counter in between, passes both |
| KeyLoading.LoadedKeyFollowsWrappedMaterial | packages/crypto/src/key-loading.ts:67-107 | rows that agree on the wrapped key load to the same key if they load: the stored public half cannot change what verifies or is published |
| KeyLoading.SigningRowLoadsIff | packages/crypto/src/key-loading.ts:67-140 | a signing row loads if and only if it is wrapped under this process's key, unwraps to a private key, and its stored JWK carries that key's public half, the row's kid, no other algorithm or use and no private member |
| KeyLoading.SigningRowLoadsTo | packages/crypto/src/key-loading.ts:81-90 | and then to the unwrapped private key, its own public half, and a JWK made of that half and the row's kid |
| KeyLoading.EncryptionRowLoadsIff | packages/crypto/src/key-loading.ts:93-104 | an encryption row loads, and to which secret, if and only if it is wrapped under this process's key and unwraps, under its own purpose and kid, to those 32 bytes |
| KeyLoading.WhyARowDoesNotLoad | packages/crypto/src/key-loading.ts:67-107 | the logged reason names the first thing wrong with the row |
| KeyLifecycle.CreatedKeysLoad | packages/db/src/keys/manage-keys.ts:47-88 | what is created, loads: a row made from a freshly wrapped key is accepted by `loadStoredKey` in every later state short of revoked |
| KeyLifecycle.OverlapDefaults | packages/db/src/keys/manage-keys.ts:40-44 | what cannot be read as a number counts as 900 seconds, or 5 |
| KeyLifecycle.KeyManager.CreatePending | packages/db/src/keys/manage-keys.ts:47-88 | adds one pending row holding the generated key, with the purpose's algorithm and public half, or fails on a duplicate kid |
| KeyLifecycle.KeyManager.Activate | packages/db/src/keys/manage-keys.ts:98-121 | retires the active key with an end counted from before the transaction, then promotes the new one |
| KeyLifecycle.KeyManager.Init | packages/db/src/keys/manage-keys.ts:123-134 | the loop skips purposes that have an active key and promotes a new key for the others, stopping where it is cut short |
| KeyLifecycle.KeyManager.Rotate | packages/db/src/keys/manage-keys.ts:136-145 | the loop promotes a new key for one or both purposes, stopping where it is cut short |
| KeyLifecycle.KeyManager.Revoke | packages/db/src/keys/manage-keys.ts:175-194 | refuses a missing or active key, leaves a revoked one alone, otherwise clears the material, records the time and the reason, and keeps all else |
| KeyLifecycle.LoopActivates | packages/db/src/keys/manage-keys.ts:123-145 | what a completed command has done: each of its purposes has, as its one active key, the key made for it, or for `init` the one it had; other purposes are as they were |
| KeyLifecycle.CommandIsSteps | packages/db/src/keys/manage-keys.ts:123-145 | every init and rotate, cut short or not, is a series of the statements the runs below are made of |
| KeyLifecycle.RunKeepsSound | packages/db/src/keys/manage-keys.ts:47-194 | over every serialised run, statement by statement and cut short anywhere: at most one active key per purpose, the CHECK constraints of the table, no end on active keys, no material on revoked ones; no row lost, states forward only, revoked rows frozen, ends never moved, and an active purpose stays active |
| KeyLifecycle.OneActiveKeyOnceInitialised | packages/db/src/keys/manage-keys.ts:123-134 | once an init completes, after whatever came before, every purpose has exactly one active key for good |
| KeyLifecycle.ActiveKeyOutlivesRotations | packages/db/src/keys/manage-keys.ts:98-121 | a key active now is, after any run that does not revoke it, still active, or was retired since and ends exactly one overlap after the clock its retirement read, which is no later than the recorded `retiringAt` and, unless an activation was already in flight, no earlier than now |
| KeyRegistry.KeyRegistryService.Install | services/auth/src/keys/key-registry.service.ts:242-291 | a failed query keeps the snapshot; otherwise the loop replaces it by the one built from the rows |
| KeyRegistry.KeyRegistryService.RefreshIfStale | services/auth/src/keys/key-registry.service.ts:225-232 | starts a reload exactly if none is in flight and the cooldown is over |
| KeyRegistry.KeyRegistryService.Serve | services/auth/src/keys/key-registry.service.ts:140-232 | the fields of the service through any run of timers, failed verifications and answered queries, and the reloads the failures start |
| KeyRegistry.SnapshotIsLastAnswer | services/auth/src/keys/key-registry.service.ts:239-291 | over every run of reloads the snapshot is built from the rows of the last query that was answered, or is the one the run began with: a query that fails changes nothing |
| KeyRegistry.SnapshotIsExact | services/auth/src/keys/key-registry.service.ts:239-314 | in whatever order the rows come, the snapshot holds exactly the active and retiring rows that load, each with its own state and end |
| KeyRegistry.EntriesHoldTheirRows | services/auth/src/keys/key-registry.service.ts:294-314 | such an entry holds the row's kid, state and end, its unwrapped material, and the public half and JWK that follow from it |
| KeyRegistry.BadRowCostsOnlyItself | services/auth/src/keys/key-registry.service.ts:270-285 | a row that does not load changes nothing but its own absence |
| KeyRegistry.ServedIsTrusted | packages/crypto/src/key-loading.ts:114-140 | whatever the queries answer, every snapshot the service ever holds lists each signing key once, with a public JWK built from its own public half and kid, one algorithm and use, and no private member |
| KeyRegistry.JwksIsWhatResolves | services/auth/src/keys/key-registry.service.ts:166-212 | at every instant the JWKS lists exactly the signing keys the resolver returns, each once, under its own kid |
| KeyRegistry.JwksKeepsRowOrder | services/auth/src/keys/key-registry.service.ts:206-212 | the JWKS lists its keys in the order of the rows they were loaded from |
| KeyRegistry.ActiveMaterialResolves | services/auth/src/keys/key-registry.service.ts:180-195 | given the lifecycle invariant there is material exactly when both purposes have an active row that loads, and it resolves in its own snapshot at every instant |
| KeyRegistry.MissesAreCooledDown | services/auth/src/keys/key-registry.service.ts:225-232 | however many verifications fail and however long the queries take, the reloads the service starts for them are a cooldown apart |
| Tokens.IssuedTokenVerifiesExactly | packages/crypto/src/tokens.ts:181-287 | an issued token is accepted, with its own claims, if and only if both kids resolve to its keys and lifetime plus tolerance is not over |
| Tokens.IssuedTokenSays | packages/crypto/src/tokens.ts:181-209 | an issued token carries the caller's own claims, each of them, under the policy's issuer, audience and lifetime, and nothing on its outside but the headers and the kid |
| Tokens.AcceptedIff | packages/crypto/src/tokens.ts:221-287 | a token, whoever made it, is accepted if and only if it is sealed with the key its outer kid resolves to, signed with the key its inner kid resolves to, both under the only algorithms, type and nesting allowed, and every required claim is there and in force; what is reported is what it carries |
| Tokens.TokenIsAcceptedUntil | packages/crypto/src/tokens.ts:262-283 | with a snapshot offering both rows a token is accepted exactly until the first of either key's end and its own expiry plus tolerance |
| Tokens.OverlapIsTheTokenLifetime | packages/db/src/keys/manage-keys.ts:40-44 | whatever the environment, if the service starts, the rotation overlap equals the lifetime plus tolerance of its tokens |
| Tokens.TokenIsAcceptedExactlyUntil | packages/crypto/src/tokens.ts:181-283 | a token issued at any time from a snapshot of any age: after any run that revokes neither key it is accepted exactly for ttl plus tolerance, less how late it was for either key or the fraction of a second its `iat` drops, whichever is most |
| Tokens.TokenLivesItsWholeLife | packages/db/src/keys/manage-keys.ts:40-121 | issued at a moment when its keys are active and no activation of their purposes has read the clock before the second of the issue, it is accepted up to expiry plus tolerance by every instance whose snapshot is no older than the issuing one, whatever is rotated, absent revocation |
| Tokens.TokenLivesItsWholeLifeIff | packages/db/src/keys/manage-keys.ts:98-121 | in general it lives its whole life if and only if each of its keys that was retired was retired by an activation that read the clock no more than that fraction of a second before the issue |
| Tokens.TokenIssuedBeforeTheCommitDiesEarly | packages/db/src/keys/manage-keys.ts:98-121 | the concrete run in which a token issued between the clock read and the commit, with both keys active, is rejected two seconds early |
| Tokens.PlainLateBoundHoldsIff | packages/crypto/src/tokens.ts:188-194 | "at least ttl plus tolerance less d", for a token issued d late, holds if and only if d is at least the fraction of a second `iat` drops |
| Tokens.PlainLateBoundFails | packages/crypto/src/tokens.ts:188-194 | a concrete run in which it does not |
| Tokens.NothingResolvesPastItsEnd | packages/crypto/src/key-loading.ts:148-155 | once a table shows a key's end, no snapshot of it or of a later table resolves the key from that end on |
| ClientAddress.ExpandIPv6 | services/auth/src/ratelimit/client-address.ts:48-67 | the loops return the groups of the parts around the double colon with the missing zeros between |
| ClientAddress.ExpandIsDenotation | services/auth/src/ratelimit/client-address.ts:48-67 | for every valid spelling (any double colon, dotted tail, zone) the result is the eight groups it denotes |
| ClientAddress.LetterCaseDoesNotCount | services/auth/src/ratelimit/client-address.ts:58-58 | a group's value does not depend on letter case |
| ClientAddress.LeadingZeroDoesNotCount | services/auth/src/ratelimit/client-address.ts:58-58 | nor on leading zeros |
| ClientAddress.RateLimitIdentity | services/auth/src/ratelimit/client-address.ts:23-41 | the method computes the identity: the address, the embedded IPv4 address, or the /64 |
| ClientAddress.SameIdentityIffSameSource | services/auth/src/ratelimit/client-address.ts:23-41 | however they are written, two addresses share an identity if and only if they are the same plain or mapped IPv4 address, or are both unmapped with the same first 64 bits |
| ClientAddress.QuadIff | services/auth/src/ratelimit/client-address.ts:29-35 | which addresses count as an IPv4 address, and as which: the address itself, and the mapped prefix followed by its two groups |
| ClientAddress.MappedFormsFold | services/auth/src/ratelimit/client-address.ts:29-35 | the three documented ways of writing a mapped address have the identity of the plain one |
| ClientAddress.NetworkTextNamesTheNetwork | services/auth/src/ratelimit/client-address.ts:37-40 | the /64 identity is four canonical lower-case groups and reads back as the network of the address |
| ClientAddress.OtherTextSharesOnlyWithItsNetwork | services/auth/src/ratelimit/client-address.ts:23-41 | a text that is not an address shares an identity with an address only by being that address's /64 text, and never with an IPv4 client |
| ClientAddress.UnknownIsApart | services/auth/src/ratelimit/client-address.ts:17-25 | the shared fallback "unknown" is counted apart from every address |
| JsonPointer.Flatten | services/auth/src/common/validation-exception.factory.ts:16-34 | the nested loops and the recursion list the problems in tree order |
| JsonPointer.EscapeRoundTrip | services/auth/src/common/validation-exception.factory.ts:40-43 | an escaped name holds no slash and unescapes, `~1` before `~0`, to itself |
| JsonPointer.PointerRoundTrip | services/auth/src/common/validation-exception.factory.ts:40-43 | the pointer of a non-empty path decodes to that path |
| JsonPointer.FragmentRoundTripIff | services/auth/src/common/validation-exception.factory.ts:40-43 | read as a URI fragment, percent-decoded first as section 6 of RFC 6901 asks, it gives the path back if and only if no name holds a percent sign and two hexadecimal digits |
| JsonPointer.FragmentMisread | services/auth/src/common/validation-exception.factory.ts:40-43 | a name that such a client misreads |
| JsonPointer.PointerInjective | services/auth/src/common/validation-exception.factory.ts:40-43 | two paths share a pointer if and only if they are equal, or are the empty path and the path to the empty name |
| JsonPointer.EachConstraintExactlyOnce | services/auth/src/common/validation-exception.factory.ts:16-34 | every constraint of every tree is reported exactly once, in tree order, with its own message and a pointer that decodes to its property path |

## Left out

- Real cryptography: SHA-256, AES key wrap, ECDSA, Argon2 and `jose` are plain functions or ideal
  primitives; passwords and the ciphers of the key provider are not modelled.
- Rewrites that recompute the whole tail of the audit chain, and events lost because an append fails
  open: the chain does not detect them. `occurredAt` is not claimed to be monotone.
- AuditChain.VerifyPaged: rows with a seq of zero or less are never visited, because the walk starts
  after seq 0; the sequence starts at 1, so no append makes such a row.
- ConnectionManager.ConnectionManager.ProvisionTenant: connection failures in the middle of the method
  are not part of it; they are the crashes and failures of the transition system.
- A tenant client is a pool number and a database name; closing the manager and pool errors are left out.
- RateLimit: the limit and the window are constant per bucket, as every caller has them.
- LoginThrottle: overlapping logins have no strict bound in the code, so none is claimed; the email
  normalisation, the account digest and the address identity enter as arbitrary functions.
- KeyLifecycle: operator commands are serialised, because `revoke` checks and updates in two
  statements. An environment number is an integer, unset, or not finite. `created_at` and
  `updated_at` are not kept.
- KeyRegistry: which of two overlapping refreshes answers last is not decided by the code; the runs
  allow any order.
- Tokens: one instant stands for the two clock reads of issuing; `typ` is compared literally, without
  the media-type normalisation of `jose`; an `aud` claim is a single string.
- ClientAddress: `isIPv4` and `isIPv6` belong to Node and are given by the grammar they accept.
- JsonPointer: an absent `children` is the same as an empty one, and constraint names, which the code
  drops, are not kept.
- Controllers, guards, decorators, configuration loading, command-line parsing, the problem-details
  mapping and the probes: wiring or single-branch lookups that would only add easy members.
- Tenant suspension and per-tenant migrations: no code performs them.
