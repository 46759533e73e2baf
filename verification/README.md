# Verified models of the shop bot's core

A Dafny model of the stateful and arithmetic parts under `src/core` of the Discord store bot, with proofs about every
input, every run and every interleaving. One module per source file:

| file | what it models |
|---|---|
| `DistributedLock.dfy` | the Redis lock: acquire with retries, release, extend, and `withLock` for any number of clients |
| `JsonDriver.dfy` | the JSON file driver: lock file, read-modify-write operations, concurrent calls |
| `Base32.dfy`, `Totp.dfy` | base32 decoding with the unmasked 32-bit accumulator, truncation, code windows, backup codes |
| `IpAllowlist.dfy`, `JsInt.dfy`, `Text.dfy` | CIDR matching from the texts down to signed 32-bit shifts |
| `LoadBalancer.dfy` | the string hash, the four strategies, request accounting |
| `RateLimiter.dfy`, `RateLimiterCalls.dfy` | the sliding-window log over Redis sorted sets; overlapping calls of it |
| `HealthChecker.dfy`, `FailoverManager.dfy` | hysteresis, and its composition with restart counting |
| `ClusterManager.dfy` | the respawn limit |
| `AutoScaler.dfy` | votes, cooldowns, bounded counts and history |
| `MismatchDetector.dfy`, `ReconcileEngine.dfy`, `ReconcileReporter.dfy` | reconciliation: rules, detection, duplicates, batches, summary, CSV |
| `StateManager.dfy`, `StateCalls.dfy` | the local cache of shared state and its change events; overlapping calls of one manager |
| `MockGateway.dfy`, `TransactionEngine.dfy` | payments with timers and notifications, and the orders above them |

Objects whose methods change fields are classes; each method is proved against a function of the old state, and the
laws are lemmas about that function. Systems with several clients are step systems: one step for each command sent to
Redis, each access to a file, or each stretch of code between two `await`s.

## What the proofs found

The code was kept as it is; where it departs from what its comments, names or the cited standards say, a lemma states
exactly when.

- Prefix length 0 of `matchCIDR` shifts by 32, which shifts by nothing: it compares all 32 bits (`AgreesWithStandardIff`).
- At second 30 of the epoch the step before is at time 0, which `time || now` replaces by the clock, so one neighbour is
  not tried (`NeighboursTriedIff`, `RefusedAtThirty`).
- Overlapping verifications of backup codes write lists they read before: a code is accepted twice, or comes back
  (`CodesConservedIff`, `OverlapAcceptsTwice`, `OverlapRestoresCode`).
- `checkLimit` clamps `remaining` at 0 and the middleware tests `< 0`, so it refuses nothing (`RefusesAsIntendedIff`).
  `getStatus` counts a closed interval where `checkLimit` counts a half-open one (`StatusAgreesIff`).
- The path of a critical failure tests no maximum: under automatic restart the attempts of a critical service have no bound
  (`WithinMaximumIff`, `AttemptsUnbounded`), and restarts begin while it is healthy again (`RestartsWhileHealthyIff`).
- The respawn limit counts per worker id; an exit under an id not seen before is always granted (`FreshIdAlwaysGranted`).
- A poll of the state manager refreshes the cache before it compares: a new value is never announced, and a deletion by
  the manager itself is announced again (`AnnouncesAsPromisedIff`, `DeleteIsAnnouncedTwice`).
- A `set` in the wrong moment of a `clear`, a watch or a poll leaves the cache wrong (`OverlappingCallsCoherentIff`,
  `ClearDisturbed`, `PollDisturbed`, `WatchDisturbed`), and an `unwatch` during a poll leaves a key cached and announced
  that nobody watches (`TidyThroughoutIff`, `UnwatchDuringPoll`).
- The checks of a batch are cut into chunks of `maxConcurrency` after they have started (`ConcurrencyLimitedIff`).
- `matchedTransactions` counts checks that threw, and counts down twice for two mismatches (`MatchedIsConfirmedIff`).
- A failed read in the JSON driver is taken for an empty collection, which the next write makes real
  (`FailedReadHarmlessIff`).
- A completed order is taken back by a later webhook, by a cancellation checked before, or by the second write of its own
  `createOrder` (`CompletedStaysIff`, `CancelOverwritesIff`, `CompletedIsSafeIff`), and the gateway can confirm a payment
  it has cancelled (`ExpiredIsPaidIff`).
- Overlapping evaluations of the auto scaler ignore the cooldown (`ActionsSpacedIff`, `SomeRunBreaksIff`).
- Overlapping calls of `checkLimit` exceed the limit by those that a ZCARD does not see (`ExcessIsUnseen`,
  `CrowdIsAdmitted`); a backend registered again while it works loses its active requests (`ActiveShowsInFlightIff`).
- The unquoted columns of the CSV report are not escaped (`CsvReadsBackIff`).

## Model

| member | source | states |
|---|---|---|
| `DistributedLock.Lock.Acquire` | src/core/distributed/DistributedLock.ts:49-108 | up to `retries + 1` attempts against whatever other clients do in between; a busy key and an error are retried, the last error is thrown; the local `locks` entry is written exactly on success |
| `DistributedLock.Lock.Release` | src/core/distributed/DistributedLock.ts:113-147 | with the key under the caller's value it is absent afterwards, every other key as before, the answer true and the local entry gone; otherwise the store is unchanged and the answer false |
| `DistributedLock.Lock.Extend` | src/core/distributed/DistributedLock.ts:152-187 | with the key under the caller's value it expires the given time from now under that value (or is gone when that time is not positive); otherwise the store is unchanged and the answer false |
| `DistributedLock.ReleaseLetsOthersIn` | src/core/distributed/DistributedLock.ts:63-147 | a held lock refuses every SET; after its owner's release any client's SET gets it |
| `DistributedLock.LockRoundTrip` | src/core/distributed/DistributedLock.ts:63-187 | taking a free lock, extending it any number of times and releasing it restores the store |
| `DistributedLock.ReleaseFrees` | src/core/distributed/DistributedLock.ts:113-147 | in every run, once a client's release reaches the server no key holds that client's value, and every key with another value is as it was |
| `DistributedLock.AcquiredIsStored` | src/core/distributed/DistributedLock.ts:63-91 | a successful `acquire` leaves the lock in the store under the caller's value for the full time to live |
| `DistributedLock.GivesUpIffAlwaysHeld` | src/core/distributed/DistributedLock.ts:63-108 | with every command delivered, null is returned exactly when each of the attempts met a held key |
| `DistributedLock.AcquireOutcomeIff` | src/core/distributed/DistributedLock.ts:63-108 | with any faults: success exactly when one of the `retries + 1` attempts gets a free key and its answer, an error exactly when none does and the last one ends with an error, null otherwise |
| `DistributedLock.StepKeepsInv` | src/core/distributed/DistributedLock.ts:49-247 | every command, expiry and clock tick keeps: a lock before its expiry is in the store under its owner's value |
| `DistributedLock.BodiesNeverOverlap` | src/core/distributed/DistributedLock.ts:230-247 | in every run, while no body has outlived its lock, no two bodies for one resource overlap |
| `DistributedLock.LiveLockUntouched` | src/core/distributed/DistributedLock.ts:113-187 | no step of another client, stale release or stale extension touches a live lock |
| `DistributedLock.StaleOwnerChangesNothing` | src/core/distributed/DistributedLock.ts:113-187 | once another client holds the resource, the former owner's release and extension leave the store unchanged |
| `DistributedLock.EveryBodyCanBeOverlapped` | src/core/distributed/DistributedLock.ts:230-247 | without the timing condition mutual exclusion fails in every state: each body that goes on has a continuation with an overlap, and past its expiry one without any time passing unless another valid lock is in the store |
| `DistributedLock.OverlapWithoutTiming` | src/core/distributed/DistributedLock.ts:230-247 | so an overlap can be reached from the beginning |
| `JsonDriver.Driver.AcquireLock` | src/core/db/drivers/jsonDriver.ts:58-73 | succeeds exactly when one of the 50 looks finds no lock file, and creates it at the first such look; on time-out the disk is as the others left it |
| `JsonDriver.AcquiresIffFree` | src/core/db/drivers/jsonDriver.ts:58-73 | the same from any attempt on |
| `JsonDriver.Driver.Perform` | src/core/db/drivers/jsonDriver.ts:131-337 | a writing operation changes its one collection as specified and releases the lock, also when it throws |
| `JsonDriver.Driver.UpdateRecord` | src/core/db/drivers/jsonDriver.ts:153-177 | the first record of that id is updated (id and time as given, the given fields over the stored ones, no other field), every other record is unchanged; it is an error exactly when no record has the id |
| `JsonDriver.OverwrittenIsUpdate` | src/core/db/drivers/jsonDriver.ts:226-231 | field by field: "id" is the id, "updatedAt" the time, else the given value if there is one, else the stored one, and no further field |
| `JsonDriver.CreatedIsCreation` | src/core/db/drivers/jsonDriver.ts:131-150 | field by field: the time stamps, else the given value, else the generated id, and no further field |
| `JsonDriver.OperationEffect` | src/core/db/drivers/jsonDriver.ts:131-337 | which collection each of the seven operations changes, from what it read; an update of an unknown id changes nothing |
| `JsonDriver.UpdateThenFind` | src/core/db/drivers/jsonDriver.ts:153-177 | the finder by id then finds the updated record, and all others are as before |
| `JsonDriver.Driver.PutBalance` | src/core/db/drivers/jsonDriver.ts:253-279 | the user's balance is replaced in place or appended |
| `JsonDriver.Driver.PutSetting` | src/core/db/drivers/jsonDriver.ts:286-311 | the key's setting is replaced in place or appended |
| `JsonDriver.AppliedKeepsUnique` | src/core/db/drivers/jsonDriver.ts:253-311 | every operation keeps balances unique by user and settings unique by key |
| `JsonDriver.UpsertThenFind` | src/core/db/drivers/jsonDriver.ts:248-279 | a reader finds the new balance for its user and every other user's as before |
| `JsonDriver.SetThenFind` | src/core/db/drivers/jsonDriver.ts:281-311 | a reader finds the new value of the setting and every other key's as before |
| `JsonDriver.OneInsideTheLock` | src/core/db/drivers/jsonDriver.ts:58-83 | in every interleaving at most one call is between acquire and release |
| `JsonDriver.OnlyHolderChangesDisk` | src/core/db/drivers/jsonDriver.ts:58-83 | while the lock file exists one call is inside, every step of another call, a time-out included, leaves lock file, data files and that call as they are, and the file goes exactly when that call removes it |
| `JsonDriver.FilesAreSerial` | src/core/db/drivers/jsonDriver.ts:131-337 | whenever the lock is free the files are the granted operations applied one by one in lock order |
| `JsonDriver.FailedReadHarmlessIff` | src/core/db/drivers/jsonDriver.ts:85-101 | for each of the seven writing operations, a failed read does no harm exactly for a create in an empty collection, an update without effect, and an upsert where all entries have its key |
| `JsonDriver.FailedReadsLeaveNoTraceIff` | src/core/db/drivers/jsonDriver.ts:85-311 | over a whole log, failed reads leave no trace at any time exactly when each was harmless when it happened |
| `Base32.Base32Decode` | src/core/security/totpService.ts:330-354 | for every string, the accumulator loop returns the whole bytes of the stream of its 5-bit symbols (section 6 of RFC 4648) |
| `Base32.DecodedLength` | src/core/security/totpService.ts:330-354 | k valid symbols give floor(5k/8) bytes |
| `Base32.PushSymbol` | src/core/security/totpService.ts:337-343 | a wrapping shift and or on the never-masked accumulator appends five bits to the pending ones |
| `Base32.PopByte` | src/core/security/totpService.ts:345-349 | the byte pushed is the first eight pending bits, whatever old bits lie above |
| `Base32.DecodeInvertsEncode` | src/core/security/totpService.ts:330-354 | decoding inverts the encoder of section 6 of RFC 4648, padding included, on every byte string |
| `Totp.TruncateIsStandard` | src/core/security/totpService.ts:299-306 | the four reads are in bounds and the joined bytes are the 31-bit number of section 5.3 of RFC 4226 |
| `Totp.CodeHasSixDigits` | src/core/security/totpService.ts:308-310 | a code has exactly six digits, which parse back to the value modulo 10^6 |
| `Totp.CodeIsStandard` | src/core/security/totpService.ts:286-311 | the code of a secret at a counter has six digits, whose value is the truncation by section 5.3 of RFC 4226 of the MAC of the decoded secret over the counter, modulo 10^6 |
| `Totp.ExampleOfTheStandard` | src/core/security/totpService.ts:299-311 | the worked example of section 5.4 of RFC 4226 |
| `Totp.MatchesTriedIff` | src/core/security/totpService.ts:123-137 | a token is accepted exactly when it has six digits with that value for one of the counters tried |
| `Totp.VerifyToken` | src/core/security/totpService.ts:123-137 | from second 31 on a token is accepted exactly when it has six digits with the standard's value for the secret at floor(now/30) - 1, that, or + 1; at 30 exactly for clock/30, 1 or 2; before, a negative counter is a range error |
| `Totp.NeighboursTriedIff` | src/core/security/totpService.ts:123-137 | the counters tried are floor(now/30) - 1 to + 1 exactly from second 31 on |
| `Totp.AcceptedWithinOnePeriod` | src/core/security/totpService.ts:123-137 | a code of second t is accepted at every second at most 30 away |
| `Totp.AcceptedOnlyNearby` | src/core/security/totpService.ts:123-137 | and, unless codes collide, only within one step of its counter |
| `Totp.AcceptedAtThirtyIff` | src/core/security/totpService.ts:286-290 | at second 30, for every later reading of the clock, only the codes of counters clock/30, 1 and 2 are accepted |
| `Totp.RefusedAtThirty` | src/core/security/totpService.ts:286-290 | a MAC for which the code of second 0 is refused at second 30 |
| `Totp.TotpRow.BeginVerify` | src/core/security/totpService.ts:181-204 | from the SELECT up to the UPDATE: refused exactly unless the row is enabled and lists the code, else the list without its first occurrence |
| `Totp.TotpRow.VerifyBackupCode` | src/core/security/totpService.ts:179-221 | without another write in between, an enabled user's code is accepted exactly when it is listed, and its first occurrence is removed |
| `Totp.UseCodeConsumesOne` | src/core/security/totpService.ts:195-210 | one use removes one occurrence of that code and none of any other |
| `Totp.UpdateConservesIff` | src/core/security/totpService.ts:181-213 | one UPDATE keeps "each code is in the row or was accepted, as often as issued" exactly when the row still holds the codes its call had read |
| `Totp.CodesConservedIff` | src/core/security/totpService.ts:179-221 | over every run of overlapping verifications the codes are conserved all along exactly when every UPDATE was such |
| `Totp.BackupCodeWorksAsOftenAsIssued` | src/core/security/totpService.ts:179-221 | over every run in which no two verifications of a user overlap, a code was accepted as often as tried, up to the number issued |
| `Totp.OverlapAcceptsTwice` | src/core/security/totpService.ts:179-221 | two overlapping calls with one code are both accepted, for any issued codes |
| `Totp.OverlapRestoresCode` | src/core/security/totpService.ts:179-221 | two overlapping calls with different codes put the first code back |
| `IpAllowlist.IpToNumberIsAddressValue` | src/core/security/ipAllowlist.ts:205-215 | despite signed shifts a valid address becomes a*2^24 + b*2^16 + c*2^8 + d |
| `IpAllowlist.NotFourPartsMatchesIff` | src/core/security/ipAllowlist.ts:187-215 | a text that is not four parts matches a range exactly when the range's compared bits are all zero |
| `IpAllowlist.MaskValue` | src/core/security/ipAllowlist.ts:197 | the mask of length m is 2^32 - 2^(32-m), and all ones for length 0 |
| `IpAllowlist.MatchComparesQuotients` | src/core/security/ipAllowlist.ts:187-200 | what the code compares, for every length 0 to 32 |
| `IpAllowlist.MatchIsPrefixEquality` | src/core/security/ipAllowlist.ts:187-200 | for lengths 1 to 32 a match is equality of the first bits (section 3.1 of RFC 4632) |
| `IpAllowlist.AgreesWithStandardIff` | src/core/security/ipAllowlist.ts:187-200 | the code agrees with the standard exactly for a positive length or equal addresses |
| `IpAllowlist.LongPrefixMatchesNothing` | src/core/security/ipAllowlist.ts:191-193 | a length above 32 matches nothing |
| `IpAllowlist.ShorterPrefixMatches` | src/core/security/ipAllowlist.ts:187-200 | a match implies the match of every shorter prefix |
| `LoadBalancer.SimpleHash` | src/core/scaling/LoadBalancer.ts:170-178 | the absolute value of the signed 32-bit residue of the polynomial in 31, at most 2^31 |
| `LoadBalancer.PolynomialOfThree` | src/core/scaling/LoadBalancer.ts:170-178 | the polynomial of three code units, spelled out |
| `LoadBalancer.Balancer.GetNextBackend` | src/core/scaling/LoadBalancer.ts:89-121 | null exactly without healthy backends, otherwise the healthy backend the strategy asks for; the round-robin index moves only on its own picks |
| `LoadBalancer.HealthyIsFilter` | src/core/scaling/LoadBalancer.ts:89-90 | the healthy backends are selected one by one and keep their order |
| `LoadBalancer.Balancer.RegisterBackend` | src/core/scaling/LoadBalancer.ts:45-65 | a new backend comes last, a known id keeps its place and loses its counters |
| `LoadBalancer.Balancer.RecordRequestComplete` | src/core/scaling/LoadBalancer.ts:201-210 | the active count goes down, not below 0, and failures are counted, for that backend alone |
| `LoadBalancer.LeastConnectionsIndex` | src/core/scaling/LoadBalancer.ts:135-139 | the first backend with the fewest active connections |
| `LoadBalancer.WeightedIndex` | src/core/scaling/LoadBalancer.ts:144-156 | the first backend whose cumulative weight reaches the draw, the first of all if none does |
| `LoadBalancer.WeightedIsProportional` | src/core/scaling/LoadBalancer.ts:144-156 | over all draws from 0 to the total, a positive one picks the backend in whose interval it lies, the draw 0 the first backend, and the fallback is not reached |
| `LoadBalancer.ConsecutivePicks` | src/core/scaling/LoadBalancer.ts:89-130 | consecutive calls of `getNextBackend` over unchanged backends return the healthy ones in turn, fairly |
| `LoadBalancer.PicksAreFair` | src/core/scaling/LoadBalancer.ts:126-130 | n picks from n backends return each once; after any number of picks the counts differ by at most 1 |
| `LoadBalancer.RoundRobinIsFair` | src/core/scaling/LoadBalancer.ts:126-130 | the same for the indices |
| `LoadBalancer.ActiveShowsInFlightIff` | src/core/scaling/LoadBalancer.ts:45-210 | the active count shows the requests in flight all along exactly when no completion comes without one and the id is registered again only while there is none |
| `LoadBalancer.ActiveIsBalanceIff` | src/core/scaling/LoadBalancer.ts:190-210 | without a new registration it is never too low, and right at the end exactly when no completion came without a request in flight |
| `LoadBalancer.RegistrationHidesRequest` | src/core/scaling/LoadBalancer.ts:45-57 | a registration with a request in flight makes the count too low |
| `RateLimiter.Limiter.CheckLimit` | src/core/security/rateLimiter.ts:118-143 | trims, counts, adds and renews the expiry of its key alone, and reports the count with this call; what that comes to is `EventAgrees` and `CurrentIsExact` |
| `RateLimiter.EventAgrees` | src/core/security/rateLimiter.ts:118-151 | a check, a reset and an expiry do to their key's scores and expiry what the model of one key says, and nothing to any other key |
| `RateLimiter.KeySeesItsRun` | src/core/security/rateLimiter.ts:118-151 | what each key sees of a run on all keys is a run on that key alone, and its sorted set is the one of that run |
| `RateLimiter.CurrentIsExact` | src/core/security/rateLimiter.ts:118-143 | after every run on any number of keys the count is the number of earlier calls for the key in (now - window, now] with no reset of the key after them |
| `RateLimiter.CheckAfter` | src/core/security/rateLimiter.ts:118-143 | so the `current` that `checkLimit` reports is one more than that, and Redis is then as after the longer run |
| `RateLimiter.Limiter.GetStatus` | src/core/security/rateLimiter.ts:156-172 | changes nothing and counts the closed window |
| `RateLimiter.CountIsExact` | src/core/security/rateLimiter.ts:118-143 | over every run of calls one after the other the count is that of the earlier calls in (now - window, now] since the last reset: trimming and expiry change no answer |
| `RateLimiter.AtMostLimitPerWindow` | src/core/security/rateLimiter.ts:118-143 | for calls one after the other, admitting while `current <= limit` admits at most `maxRequests` in any interval of the window's length |
| `RateLimiterCalls.ExcessIsUnseen` | src/core/security/rateLimiter.ts:118-143 | however the commands of calls interleave, the admitted calls of an interval exceed the limit by at most those that a deciding ZCARD did not see |
| `RateLimiterCalls.ExcessIsBetween` | src/core/security/rateLimiter.ts:118-143 | while the key is not gone and no later call has trimmed, these are calls between their ZCARD and their ZADD |
| `RateLimiterCalls.CrowdIsAdmitted` | src/core/security/rateLimiter.ts:122-129 | any number of calls at once are all admitted under a limit of one |
| `RateLimiterCalls.LateTrimHides` | src/core/security/rateLimiter.ts:122-126 | a later call's trim exceeds the limit without any call between ZCARD and ZADD |
| `RateLimiter.RefusesAsIntendedIff` | src/core/security/rateLimiter.ts:92-134 | the middleware decides as intended exactly for the calls within the limit |
| `RateLimiter.OverLimitCallPasses` | src/core/security/rateLimiter.ts:92-134 | a call over the limit that passes |
| `RateLimiter.StatusAgreesIff` | src/core/security/rateLimiter.ts:156-172 | `getStatus` agrees with `checkLimit` exactly when no counted call is one whole window old |
| `HealthChecker.Checker.UpdateServiceHealth` | src/core/scaling/HealthChecker.ts:153-194 | the counters, the flag and the emitted events of one result, for that service alone |
| `HealthChecker.Checker.FinishCheck` | src/core/scaling/HealthChecker.ts:209-248 | the end of a check updates that service and frees it for the next check |
| `HealthChecker.StatusIsHysteresis` | src/core/scaling/HealthChecker.ts:153-194 | after any results the counters are the two trailing runs, one of them 0, and the flag is the verdict of the last run that was long enough |
| `HealthChecker.EventsAlternate` | src/core/scaling/HealthChecker.ts:167-191 | unhealthy and healthy events strictly alternate, starting with unhealthy, and their number tells the flag |
| `HealthChecker.CriticalFollowsUnhealthy` | src/core/scaling/HealthChecker.ts:171-204 | a critical alert comes right after each unhealthy event of a critical service and nowhere else |
| `FailoverManager.Manager.OnServiceUnhealthy` | src/core/scaling/FailoverManager.ts:54-111 | a restart begins exactly when failover is on, not shutting down, the attempts are below the maximum and `autoRestart` is set; the two notices likewise by their guards; only a restart counts, one attempt |
| `FailoverManager.Manager.AfterCriticalAlert` | src/core/scaling/FailoverManager.ts:116-129 | the critical path restarts whenever `autoRestart` is set |
| `FailoverManager.StepKeepsCap` | src/core/scaling/FailoverManager.ts:54-180 | every step of the composed machines keeps: attempts beyond the maximum come from the critical path |
| `FailoverManager.AttemptsWithinMaximum` | src/core/scaling/FailoverManager.ts:80-144 | outside the critical list attempts never exceed `maxRestartAttempts`, over all interleavings |
| `FailoverManager.ExcessIsCritical` | src/core/scaling/FailoverManager.ts:116-144 | for every service the excess is at most the restarts the critical path began since the last reset |
| `FailoverManager.OneAttemptPerOutage` | src/core/scaling/FailoverManager.ts:54-180 | outside the critical list and never unregistered: no attempts while healthy, at most one otherwise |
| `FailoverManager.OutageEffect` | src/core/scaling/FailoverManager.ts:54-144 | the step that makes a service unhealthy adds one attempt and one delayed restart exactly under those guards, and one critical alert exactly for a critical service while failover is on |
| `FailoverManager.OutageIsAnswered` | src/core/scaling/FailoverManager.ts:54-144 | on every run, outside the critical list and never unregistered: each outage is answered by exactly one restart, its first attempt, exactly with failover on, `autoRestart` and a positive maximum |
| `FailoverManager.RestartComesToItsEnd` | src/core/scaling/FailoverManager.ts:134-180 | an undisturbed restart forgets the attempts when its check succeeds, keeps them when it fails, and is over either way |
| `FailoverManager.AttemptsUnbounded` | src/core/scaling/FailoverManager.ts:116-144 | for every setup of a critical service with automatic restart, whatever the thresholds and the maximum, runs reach any number of attempts |
| `FailoverManager.WithinMaximumIff` | src/core/scaling/FailoverManager.ts:54-180 | the attempts stay within the maximum on all runs exactly when the service is not critical or automatic restart is off |
| `FailoverManager.BeginsWhileHealthyIff` | src/core/scaling/FailoverManager.ts:116-136 | a step begins a restart of a healthy service exactly when it is an alert sent under automatic restart after the service came back |
| `FailoverManager.RestartsWhileHealthyIff` | src/core/scaling/FailoverManager.ts:54-180 | some run does so exactly for a critical service with automatic restart |
| `ClusterManager.Manager.CheckRespawnLimit` | src/core/scaling/ClusterManager.ts:150-174 | granted exactly for an unknown worker, an expired window or a count below the maximum; a refusal changes nothing, a grant starts a new window at 1 or counts one more, for that worker alone |
| `ClusterManager.CounterBoundsGrants` | src/core/scaling/ClusterManager.ts:150-174 | each counting window grants at most max(1, maxRestarts), and its counter bounds the recent grants |
| `ClusterManager.RespawnsPerInterval` | src/core/scaling/ClusterManager.ts:150-174 | a closed interval of one window's length holds at most 2 * max(1, maxRestarts) - 1 grants |
| `ClusterManager.BoundReachedIff` | src/core/scaling/ClusterManager.ts:150-174 | calls that reach that bound exist exactly for a positive window, or a window of length zero with at most one restart |
| `ClusterManager.FreshIdAlwaysGranted` | src/core/scaling/ClusterManager.ts:150-174 | after any exits, an id that did not exit before is granted |
| `ClusterManager.RespawnsOfAllWorkers` | src/core/scaling/ClusterManager.ts:150-174 | all workers together: at most that bound for each worker id that occurs |
| `ClusterManager.AllWorkersReachBound` | src/core/scaling/ClusterManager.ts:150-174 | exits that reach it, for any number of workers and any positive window |
| `AutoScaler.Scaler.EndEvaluation` | src/core/scaling/AutoScaler.ts:109-274 | the votes of all rules with their cooldowns; the target is the count changed by the largest increment or the smallest decrement of the rules, or the bound past it; what is recorded |
| `AutoScaler.DecidedIsDecision` | src/core/scaling/AutoScaler.ts:145-291 | the amount and the action of every decision, in terms of the rules alone |
| `AutoScaler.Scaler.CountVotes` | src/core/scaling/AutoScaler.ts:116-140 | the loop over the rules, rules of one metric sharing a cooldown |
| `AutoScaler.VotesAreCounts` | src/core/scaling/AutoScaler.ts:120-140 | with one rule for each metric the votes are plain counts in any order |
| `AutoScaler.VotersCoolDown` | src/core/scaling/AutoScaler.ts:121-139 | and exactly the metrics that voted start their cooldown |
| `AutoScaler.ActionIff` | src/core/scaling/AutoScaler.ts:145-291 | the count goes up exactly when more rules vote up and there is room, down likewise, and otherwise stays |
| `AutoScaler.Scaler.SetInstanceCount` | src/core/scaling/AutoScaler.ts:411-423 | a count outside the range is refused and changes nothing |
| `AutoScaler.CountStaysInRange` | src/core/scaling/AutoScaler.ts:172-291 | from a count within [min, max] and with increments that are not negative, every run stays within |
| `AutoScaler.HistoryIsLastHundred` | src/core/scaling/AutoScaler.ts:383-390 | the history is exactly the last 100 decisions of the run |
| `AutoScaler.ActionsAreSpaced` | src/core/scaling/AutoScaler.ts:103-108 | without overlapping evaluations actions are at least `scalingCooldown` apart, and n of them within a time T have (n - 1) cooldowns in T |
| `AutoScaler.StepKeepsSpacedIff` | src/core/scaling/AutoScaler.ts:103-108 | an evaluation that ends keeps the actions one cooldown apart exactly when it finds the last action that long ago, or does not act |
| `AutoScaler.ActionsSpacedIff` | src/core/scaling/AutoScaler.ts:103-301 | on every run, overlapping or not, the actions are one cooldown apart exactly when every evaluation that acted was such |
| `AutoScaler.OverlapIgnoresCooldown` | src/core/scaling/AutoScaler.ts:103-111 | two overlapping evaluations that scale twice within one millisecond |
| `AutoScaler.QuickRuleBreaks` | src/core/scaling/AutoScaler.ts:103-301 | every configuration that can scale and has a rule cooling down more quickly than the scaler, whatever its other rules, has a run with actions less than one cooldown apart |
| `AutoScaler.SomeRunBreaksIff` | src/core/scaling/AutoScaler.ts:103-301 | for rules of one metric, some run does so exactly for such a configuration |
| `MismatchDetector.DetectMismatches` | src/core/reconciliation/mismatchDetector.ts:9-78 | which mismatches one transaction gives against its provider's answer, in order, with all their fields: a different status, and an amount outside 99 to 101 percent |
| `MismatchDetector.CleanIff` | src/core/reconciliation/mismatchDetector.ts:9-78 | none exactly when the status agrees and a given amount is within one percent; never more than two |
| `MismatchDetector.AmountsDifferIff` | src/core/reconciliation/mismatchDetector.ts:53-57 | the tolerance is one percent either way, and none for a negative local amount |
| `MismatchDetector.StatusSeverityIff` | src/core/reconciliation/reconcileRules.ts:19-60 | when a status mismatch is critical, high or medium, and the severities of the kinds without amounts |
| `MismatchDetector.AmountSeverityBands` | src/core/reconciliation/reconcileRules.ts:40-48 | the bands of 10, 5 and 1 percent of the local amount, for every sign of it |
| `MismatchDetector.AmountSeverityIff` | src/core/reconciliation/reconcileRules.ts:40-48 | a reported amount mismatch has the lowest severity exactly for a negative local amount |
| `MismatchDetector.DetectDuplicatePayments` | src/core/reconciliation/mismatchDetector.ts:80-120 | the grouping loops list every member of every group of two or more |
| `MismatchDetector.DuplicatesArePlain` | src/core/reconciliation/mismatchDetector.ts:80-120 | that list is a permutation of the simple form: one mismatch for each transaction whose non-empty payment id occurs again |
| `MismatchDetector.DuplicatesAreExactly` | src/core/reconciliation/mismatchDetector.ts:80-120 | the list is, up to its order, one mismatch for each transaction whose non-empty payment id another one shares, and no other |
| `MismatchDetector.DuplicateOfIs` | src/core/reconciliation/mismatchDetector.ts:96-117 | a duplicate is critical, keeps the data of its transaction, and names all members of its group in order |
| `MismatchDetector.GroupIsFilter` | src/core/reconciliation/mismatchDetector.ts:84-92 | a group holds the transactions with its payment id in order, and nothing else |
| `ReconcileEngine.CreateBatches` | src/core/reconciliation/reconcileEngine.ts:263-271 | the slicing loop gives the batches of the recursive definition |
| `ReconcileEngine.BatchesPartition` | src/core/reconciliation/reconcileEngine.ts:263-271 | batches concatenate to the items, none is empty, and all but the last have the batch size, which the last does not exceed |
| `ReconcileEngine.Engine.Begin` | src/core/reconciliation/reconcileEngine.ts:65-130 | a second run is refused; otherwise the transactions whose status is not excluded, that are not older than the cutoff and have a payment id, their duplicates and batches |
| `ReconcileEngine.FilteredIsFilter` | src/core/reconciliation/reconcileRules.ts:117-137 | the rules select one transaction at a time, by status, age and payment id, and keep the order |
| `ReconcileEngine.Engine.StartNextBatch` | src/core/reconciliation/reconcileEngine.ts:217-256 | all checks of the next batch start, and are cut into chunks of `maxConcurrency` afterwards |
| `ReconcileEngine.Engine.OnReply` | src/core/reconciliation/reconcileEngine.ts:217-253 | a reply adds that transaction's mismatches and no error, an exception one error and no mismatch |
| `ReconcileEngine.CompleteRunReportsEverything` | src/core/reconciliation/reconcileEngine.ts:107-154 | for any batch size and order of replies every selected transaction is checked once, and the mismatches are a permutation of the duplicates plus each one's detections |
| `ReconcileEngine.NoSecondCheck` | src/core/reconciliation/reconcileEngine.ts:217-253 | a transaction with a reply is never checked again |
| `ReconcileEngine.BatchWithinLimitIff` | src/core/reconciliation/reconcileEngine.ts:217-261 | a started batch is within `maxConcurrency` exactly when min(batchSize, remaining) is |
| `ReconcileEngine.ConcurrencyLimitedIff` | src/core/reconciliation/reconcileEngine.ts:217-261 | over all runs the checks in flight stay within `maxConcurrency` exactly when min(batchSize, all) is |
| `ReconcileEngine.WaitEndsIff` | src/core/reconciliation/reconcileEngine.ts:255-260 | the chunk-wise wait can come to its end exactly when every reply of the batch is in |
| `ReconcileEngine.MatchedIsConfirmedIff` | src/core/reconciliation/reconcileEngine.ts:152 | checked minus mismatches counts the transactions the provider confirmed, exactly when the mismatches beyond each transaction's first are as many as the checks that threw without a duplicate |
| `ReconcileEngine.MatchedWithoutErrorsIff` | src/core/reconciliation/reconcileEngine.ts:152 | without a check that threw: exactly when no transaction has more than one mismatch |
| `ReconcileReporter.GenerateSummary` | src/core/reconciliation/reconcileReporter.ts:131-163 | each table has an entry for every kind, severity and occurring provider, with its number of occurrences |
| `ReconcileReporter.SummaryIsConserved` | src/core/reconciliation/reconcileReporter.ts:131-163 | each of the three tables sums to the number of mismatches |
| `ReconcileReporter.SummaryEntries` | src/core/reconciliation/reconcileReporter.ts:151-160 | each entry is the number of mismatches of that kind, severity or provider, and a provider has one exactly when it occurs |
| `ReconcileReporter.ColumnsUnderHeaders` | src/core/reconciliation/reconcileReporter.ts:78-116 | which value of a mismatch a reader should see under each of the 17 headers |
| `ReconcileReporter.FieldReadsBackIff` | src/core/reconciliation/reconcileReporter.ts:98-116 | a quoted field reads back for any text, an unquoted one exactly when it needs no quotes |
| `ReconcileReporter.RecordReadsBackIff` | src/core/reconciliation/reconcileReporter.ts:98-121 | a printed row reads back exactly when its unquoted columns need no quotes |
| `ReconcileReporter.CsvReadsBackIff` | src/core/reconciliation/reconcileReporter.ts:75-121 | a reader of section 2 of RFC 4180 recovers header and rows exactly when no unquoted column holds a comma, quote or line break; advice and notes may be any text |
| `StateManager.Manager.Set` | src/core/distributed/StateManager.ts:87-128 | writes Redis, and for a watched key the cache, announcing the old cached and the new value |
| `StateManager.Manager.Delete` | src/core/distributed/StateManager.ts:133-168 | removes the key and a watched key's cache entry, and announces it |
| `StateManager.Manager.Watch` | src/core/distributed/StateManager.ts:188-205 | as a whole: caches the current value and starts polling; a second watch does nothing |
| `StateManager.Manager.CheckForChanges` | src/core/distributed/StateManager.ts:249-271 | as a whole: the poll over all watched keys, each read before its comparison |
| `StateManager.Manager.Increment` | src/core/distributed/StateManager.ts:325-341 | the counter moves in Redis and in a watched key's cache, or an error changes nothing |
| `StateManager.Manager.CompareAndSet` | src/core/distributed/StateManager.ts:367-395 | writes both exactly when the stored value is the expected one |
| `StateManager.Manager.Clear` | src/core/distributed/StateManager.ts:422-442 | as a whole: removes all keys and empties the cache, unless there are none |
| `StateManager.OperationKeepsCoherence` | src/core/distributed/StateManager.ts:60-442 | every operation but `mset`, taken as a whole, keeps each watched key's cached value equal to the one in Redis, absent read as null |
| `StateManager.MsetKeepsCoherenceIff` | src/core/distributed/StateManager.ts:298-320 | `mset` does so exactly when the last entry for each watched key has the cached value |
| `StateManager.PollRestores` | src/core/distributed/StateManager.ts:249-271 | after arbitrary outside writes one poll, taken as a whole, makes the cache agree again |
| `StateManager.CoherentSincePoll` | src/core/distributed/StateManager.ts:60-442 | after any history of whole operations, from a poll on until the next outside write or `mset`, the cache agrees |
| `StateCalls.OneCommandIsWhole` | src/core/distributed/StateManager.ts:60-168 | a call of one command and its reply, uninterrupted, is the operation as a whole |
| `StateCalls.ClearIsWhole` | src/core/distributed/StateManager.ts:422-442 | KEYS, DEL and the reply, uninterrupted, are `clear` as a whole |
| `StateCalls.WatchIsWhole` | src/core/distributed/StateManager.ts:188-205 | the read of a watch with both turns, uninterrupted, is `watch` as a whole |
| `StateCalls.PollInAnyOrder` | src/core/distributed/StateManager.ts:249-271 | a poll that sends all its reads in one turn ends as the poll as a whole, up to the order of the events, whatever the order of its replies' handling and of its comparisons |
| `StateCalls.StepCoherentIff` | src/core/distributed/StateManager.ts:60-442 | with any calls under way, one command, reply, turn, unwatching or write from elsewhere keeps what they will leave coherent exactly when it is harmless: its value agrees with the waiting turns of the key or a later reply decides, a DEL leaves no value, a foreign write changes no watched key |
| `StateCalls.OverlappingCallsCoherentIff` | src/core/distributed/StateManager.ts:60-442 | over every run the outcome is coherent all along exactly when every step is harmless |
| `StateCalls.OverlappingCallsStayCoherent` | src/core/distributed/StateManager.ts:60-442 | after harmless steps the cache agrees with Redis whenever no call is under way |
| `StateCalls.PollEndTidyIff` | src/core/distributed/StateManager.ts:251-266 | the comparison of a poll leaves only watched keys cached exactly when its key is still watched |
| `StateCalls.TidyThroughoutIff` | src/core/distributed/StateManager.ts:188-271 | over every run of overlapping calls, watched keys are distinct, only they are cached and the timer runs exactly while there are any, and only watched keys are announced, exactly when no poll compares a key unwatched since its read |
| `StateCalls.UnwatchDuringPoll` | src/core/distributed/StateManager.ts:210-266 | an `unwatch` between read and comparison: the key is cached and announced again |
| `StateCalls.ContinueCoherentIff` | src/core/distributed/StateManager.ts:192-195 | the last turn of a watch or a poll leaves the cache right exactly when the key still has the value read |
| `StateCalls.ClearCoherentIff` | src/core/distributed/StateManager.ts:424-433 | the DEL of a `clear` leaves it right exactly when no value was written to a watched key since the KEYS |
| `StateCalls.ClearDisturbed` | src/core/distributed/StateManager.ts:424-433 | a `set` between KEYS and DEL leaves a value in Redis that the cache has lost |
| `StateCalls.PollDisturbed` | src/core/distributed/StateManager.ts:251-266 | a `set` between the turns of a poll: the poll caches and announces the old value |
| `StateCalls.WatchDisturbed` | src/core/distributed/StateManager.ts:192-195 | a `set` between the turns of a watch: the watch starts with the old value |
| `StateManager.CountersAddUp` | src/core/distributed/StateManager.ts:325-362 | over any run without another write to its key a counter is its first value plus the amounts that succeeded |
| `StateManager.RunKeepsTidy` | src/core/distributed/StateManager.ts:188-247 | on every run of whole operations watched keys are distinct, only they are cached, and the timer runs exactly while there are any |
| `StateManager.PollAnnounces` | src/core/distributed/StateManager.ts:249-271 | the exact list of changes a poll announces |
| `StateManager.AnnouncesAsPromisedIff` | src/core/distributed/StateManager.ts:251-266 | for which keys the poll announces a change exactly if there is one |
| `StateManager.DeleteIsAnnouncedTwice` | src/core/distributed/StateManager.ts:133-158 | after `delete` of a watched key the next poll announces null to null |
| `StateManager.PollIsIdempotent` | src/core/distributed/StateManager.ts:249-271 | a second poll changes and announces nothing |
| `MockGateway.Gateway.CreatePayment` | src/core/payments/mock/MockGateway.ts:32-67 | a pending payment, with a timer when auto-confirmation is on |
| `MockGateway.Gateway.OnTimer` | src/core/payments/mock/MockGateway.ts:69-88 | a firing timer pays its payment if it is pending, and is gone |
| `MockGateway.Gateway.Confirm` | src/core/payments/mock/MockGateway.ts:90-118 | pays the order's first payment unless paid, ends its timer and notifies |
| `MockGateway.Gateway.Cancel` | src/core/payments/mock/MockGateway.ts:120-147 | expires the order's first payment unless paid, ends its timer and notifies |
| `MockGateway.TimerPays` | src/core/payments/mock/MockGateway.ts:69-88 | on every run a live timer can fire, and then pays its pending payment and notifies |
| `MockGateway.AutoConfirmPays` | src/core/payments/mock/MockGateway.ts:48-88 | so a payment created under automatic confirmation is paid once its timer fires |
| `MockGateway.CancelEndsTimer` | src/core/payments/mock/MockGateway.ts:120-147 | on every run a cancellation expires the order's first payment unless paid, notifies, and leaves it no timer that could pay it |
| `MockGateway.StepKeepsInv` | src/core/payments/mock/MockGateway.ts:32-173 | every operation keeps: a payment's status is the one its notifications lead to, and live timers belong to pending payments |
| `MockGateway.CompletedOnceIffPaid` | src/core/payments/mock/MockGateway.ts:69-147 | on every run a completed notification is triggered once for a paid payment and never for another, and nothing follows it |
| `MockGateway.PaidIsAbsorbing` | src/core/payments/mock/MockGateway.ts:69-147 | nothing changes a paid payment or is triggered for it |
| `MockGateway.PaidForEver` | src/core/payments/mock/MockGateway.ts:69-147 | over any further run a paid payment and its notifications stay as they are |
| `MockGateway.ExpiredIsPaidIff` | src/core/payments/mock/MockGateway.ts:97-102 | an expired payment is paid exactly by a manual confirmation of its order that finds it first |
| `TransactionEngine.Engine.CreateOrder` | src/core/transactions/TransactionEngine.ts:45-153 | accepted exactly for a valid input of a known user at the exact price of a known product; then insert, payment for that amount, timer and status, with the two events; a failing gateway leaves a failed order and no payment; each refusal by its own condition changes nothing |
| `TransactionEngine.OrderStored` | src/core/transactions/TransactionEngine.ts:68-152 | every field of the order when it is created, when its payment is started and when that failed, and the events of the last two |
| `TransactionEngine.Engine.UpdateState` | src/core/transactions/TransactionEngine.ts:155-207 | the refusals of the schema, else one merged write with its time of completion and the one event of the new status |
| `TransactionEngine.SchemaMeans` | src/core/utils/validate.ts:54-62 | the schema accepts exactly the five keys with their kinds of values and the five statuses |
| `TransactionEngine.Engine.HandleWebhook` | src/core/transactions/TransactionEngine.ts:272-292 | a valid payload is written whatever the old status; an absent payment method erases the stored one |
| `TransactionEngine.Engine.CancelTransaction` | src/core/transactions/TransactionEngine.ts:294-322 | each refusal by its own condition, the gateway's included, changes nothing; otherwise the order's first payment is expired and the order is cancelled and else unchanged |
| `TransactionEngine.WebhookWrites` | src/core/transactions/TransactionEngine.ts:279-289 | a webhook writes its status, its payment method (an absent one erases the stored), its metadata if any, and the time of completion exactly when it completes |
| `TransactionEngine.UpdateWritesExactly` | src/core/transactions/TransactionEngine.ts:155-180 | field by field what an accepted update of a stored order comes to: the fields it names, the time of the update, a time of completion it does not give itself, and nothing else in this record or elsewhere |
| `TransactionEngine.DriverKeepsOrderIff` | src/core/db/drivers/jsonDriver.ts:226-231 | the driver keeps the id whatever the data, and the rest of the identity exactly for data that repeats it |
| `TransactionEngine.WritesNameOnly` | src/core/transactions/TransactionEngine.ts:94-173 | whatever reaches the driver from the engine names no other field than the schema's |
| `TransactionEngine.IdentityIsKept` | src/core/transactions/TransactionEngine.ts:45-207 | in every interleaving a stored order keeps its ids, user, product and amount, whatever updates and webhooks carry |
| `TransactionEngine.WriteKeepsDateIff` | src/core/transactions/TransactionEngine.ts:170-174 | a write keeps "completed has a time of completion" exactly unless it erases the time of a completed order |
| `TransactionEngine.CompletedIsDatedIff` | src/core/transactions/TransactionEngine.ts:155-207 | on every run completed implies a time of completion all along exactly when no update erases it |
| `TransactionEngine.WebhookRunsAreDated` | src/core/transactions/TransactionEngine.ts:272-289 | so it does on every run whose updates are webhooks |
| `TransactionEngine.EveryPaymentHasItsOrder` | src/core/transactions/TransactionEngine.ts:70-104 | on every run of engine and gateway each payment is for one stored order and its exact amount, and no order has two payments |
| `TransactionEngine.StatusIsLastGiven` | src/core/transactions/TransactionEngine.ts:45-322 | over every run an order's status is the last one that a write gave it |
| `TransactionEngine.CompletedStaysIff` | src/core/transactions/TransactionEngine.ts:155-322 | a completed order stays completed over a run exactly when every later write to it gives no status, or completed |
| `TransactionEngine.CompletedIsSafeIff` | src/core/transactions/TransactionEngine.ts:45-322 | a completed order stays completed over every run whose updates and webhooks for it give no status, or completed, exactly when no suspended `createOrder` of it is before its second write and no suspended cancellation of it has cancelled the payment or will |
| `TransactionEngine.WebhookTakesBack` | src/core/transactions/TransactionEngine.ts:272-289 | a webhook with another status takes a completed order back |
| `TransactionEngine.CancelOverwritesIff` | src/core/transactions/TransactionEngine.ts:294-322 | over every run between its check and its write, a cancellation turns a completed order into a cancelled one exactly when the last status given in between is completed |

## Left out

- Redis, the file system and the provider are their state and one command at a time; connections and pipelines are not
  modelled.
- The HMAC is any function to 20 bytes, lock values and ids are fresh values, and encryption is left out.
- Amounts, metrics and weights are exact numbers; rounding of floating point, and `parseInt` or counters beyond 2^53, are
  not modelled.
- Dates, advice texts, log lines, reasons and metadata are left out of the entities unless a property needs them; the CSV
  columns are texts.
- `matchIP` with `*` patterns and IPv6: they rest on the regular expression engine. The database methods of the allow list;
  enabling, disabling and new backup codes of the TOTP service.
- Writes that fail half-way, crashes with a lock file left behind, and `disconnect` in the JSON driver; `findAllTransactions`
  sorts by date and is only read.
- `detectMissingLocal`, which nothing calls and which lists what one lookup does not find; the resolver and the cron job
  of reconciliation.
- The failover history, alert texts and the restart procedures of single services; health probes are their results.
- `has`, `mget` and `getAllKeys` of the state manager, which read only; time to live is an outside change of Redis, and a
  stored text that is not JSON is not modelled.
- Provider names such as `__proto__`, which JavaScript objects treat apart, in the summary by provider.
- The schema's conversions of texts to dates and numbers, and a data layer that fails inside `createOrder`.
- The MySQL and MongoDB drivers, adapters, routes, access control, the dashboard and the bounded monitors.
- AutoScaler.Scaler.EndEvaluation: takes one time for the whole second half of an evaluation, where the source reads the
  clock again for each rule.
- StateManager.Manager.CheckForChanges: takes the poll as a whole; `StateCalls` has its reads and turns one by one.
- StateManager.Manager.Watch: takes the watch as a whole; `StateCalls` has its read and its two turns.
- StateManager.Manager.Clear: takes the clearing as a whole; `StateCalls` has its two commands.
- StateManager.OperationKeepsCoherence: is about whole operations; `StateCalls` states it for overlapping calls.
- StateManager.CoherentSincePoll: is about whole operations, which do not overlap.
- StateManager.PollRestores: takes the poll as a whole; `StateCalls.PollInAnyOrder` has its reads and turns.
- StateManager.RunKeepsTidy: is about whole operations; `StateCalls.TidyThroughoutIff` is about overlapping calls.
- RateLimiter.CountIsExact: is about calls one after the other; `RateLimiterCalls` interleaves their commands.
- RateLimiter.AtMostLimitPerWindow: likewise.
- AutoScaler.SomeRunBreaksIff: the exact condition is for rules of one metric; rules of several metrics can also break the
  cooldown by voting in turn.
- `unregisterBackend` and the health probes of the load balancer.
