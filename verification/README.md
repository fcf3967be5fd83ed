# A verified model of the Himadri gateway's stateful core

Himadri is a gateway in front of language-model providers. This project models the parts of
it that carry real state, arithmetic or parsing, and proves what they promise over every
input and every run, and over every interleaving of callers for the token bucket, the window
counter, the budget and the rotation and deletion of API keys:

| file | module | what it models |
|---|---|---|
| `token_bucket.dfy` | `TokenBuckets` | the lock-free token bucket, as a class and as a step system of any number of interleaved callers |
| `sharded_limiter.dfy` | `Limiters` | the sharded store of buckets, refined to one plain map, and the retuning layer above it |
| `fixed_window.dfy` | `PackedBits`, `FixedWindows` | the window counter packed into one 64-bit word |
| `window_store.dfy` | `WindowStores` | the bounded per-key store of such counters |
| `sse.dfy` | `Sse` | the incremental decoder of server-sent events |
| `circuit_breaker.dfy` | `CircuitBreakers` | the circuit breaker as a timed state machine |
| `rbac.dfy` | `Rbac` | the wildcard matcher and the union of role policies |
| `strategy.dfy`, `stable_sorts.dfy` | `Targets`, `WeightedPicks`, `Strategies`, `StableSorts` | target selection: weighted sampling, stable sorting, de-duplication |
| `pii_guardrail.dfy` | `PiiRequests` | the collect, scan and write-back pass over a request |
| `budget.dfy` | `Budgets` | the least-recently-used spend store and budget enforcement |
| `api_keys.dfy` | `ApiKeys` | the two-map API key store, one operation at a time |
| `api_key_races.dfy` | `ApiKeyRaces` | rotations and deletions of one key that overlap, as step systems |
| `usage_store.dfy` | `UsageStores` | the usage ring, the dashboard and the price table |
| `machine_ints.dfy`, `options.dfy`, `finite_sets.dfy` | `MachineInts`, `Options`, `FiniteSets` | 64-bit saturating arithmetic; `Option` and `Result`; sizes of sets |

Code that updates fields in place is a class whose methods are proved against functions of
the old state; the results over whole runs are lemmas about those functions. Clock readings,
random draws, fresh ids and secrets, hash functions, the map's choice of an eviction victim
and the PII engine are parameters, so every result holds for all of them.

Each operation is also told in plain terms, with the source's own constants written out and
without the functions it is proved against: what a line of an event stream does
(`LineInWords`), what the guardrail makes of a request (`Execute`, `RewrittenIsReworked`),
when a call is admitted (`AllowInNumbers`, `WhoIsAdmitted`, `KeyAdmissionBound`,
`WindowGrantsTheLimit`), which target is tried first (`CheapestFirst`, `QuickestFirst`,
`FirstConditionDecides`), what a pattern matches (`MatchesStepwise`) and what a record adds to
the statistics (`OneMoreForKey`).

## What is proved, and where the code falls short of its comments

* **Token bucket.** In every interleaving the tokens handed out since creation are at most
  capacity + rate * elapsed / 1,000,000 (`AdmissionBound`). The same bound over an
  arbitrary window fails. With two or more callers at rest, what can pass at one instant is
  held to the capacity if and only if the bucket is empty or the refill that is due would
  not be cut by the capacity clamp (`BurstWithinCapacityIff`), and over every window that
  starts there if and only if the bucket is empty or the first refill fits whenever it comes
  (`WindowsBoundedIff`). For every rate and capacity a full bucket left alone long enough
  lets twice the capacity through at one instant (`BurstOfTwiceTheCapacity`): a caller that
  was overtaken empties it just before the other's refill is credited. From any point of
  any run, callers inside calls included, `WindowBound` and `SuffixBound` apply, and callers
  taking turns get `SequentialWindowBound`. A caller that has waited for n tokens is
  admitted if and only if n is at most the tokens held plus `u64::MAX / 1,000,000`, because
  the product that gives the credit saturates (`WaitedCallerAdmittedIff`).
* **Fixed window.** The comment at `crates/himadri-plugins/src/rate_limit.rs:20-23` says a
  rollover can never wipe consumption just recorded in the new window. The clock is read
  before the compare-and-swap, so a stale caller can do just that. A window is granted at
  most limit * (setbacks + 1) (`GrantedPerWindow`), single requests reach that for every
  number of setbacks (`StaleCallersRefillTheWindow`). For single requests the setbacks are
  the resets and the places where an update's clock reading lies in a window before that of
  the update made just before it (`SetbacksAreDescents`), so the limit is kept over all
  histories with k such places if and only if k or the limit is zero
  (`RolloverKeepsLimitIff`). While the window ids of the updates keep their order, only
  resets set the counter back (`SetbacksAreResets`, `OrderedKeepsLimit`), and any span of
  time is granted at most limit * (span / window + 2), and once more the limit for each
  reset (`GrantedPerSpan`). Readings within one window may come in any order, as those of
  overlapping callers do.
* **Per-key window store.** The key cap is applied to each shard. The whole store holds at
  most the cap times the number of shards (`StoreWithinShardCaps`) and keeps to the cap
  itself over every run if and only if the hash sends all keys to one shard
  (`StoreKeepsCapIff`, with the run that breaks it in `OneKeyTooMany`).
* **Event stream.** Decoding agrees with a line-by-line fold for every chunking if and only
  if every line up to the stop, and the unfinished end, fits the buffer cap
  (`EveryChunkingAgreesIff`); `StreamDecodes` says exactly what is yielded otherwise.
* **Circuit breaker.** Probes whose outcome is never reported wedge a half-open breaker: once
  all are out it stays half-open, admitting nobody however late, exactly as long as no
  failure, no reset and too few successes are recorded (`WedgedIff`); `WaysOut` says who is
  admitted after each of these.
* **Target selection.** A weightless target is picked if and only if no target has weight, in
  which case the first is taken without a draw, or the draw is exactly zero and the target
  comes first (`WeightlessPickedIff`).
* **Roles.** More roles never remove access once one role matches, but a first matching role
  replaces the default role. Nothing is lost if and only if the new role permits each of the
  default's patterns read as a value (`LeavingTheDefault`), which `Covers` asks with the
  matcher itself.
* **API keys.** One operation at a time, a secret is accepted if and only if it is the latest
  one of a live key (`ValidatesLatestSecretOnly`). Rotations that overlap break this:
  `OverlappingRotations` leaves two secrets accepted. Once all calls have returned, one
  further secret is accepted for each removal that found nothing to remove
  (`OneMoreSecretPerMiss`), and the maps are inverse again if and only if no caller read the
  key while another was between its read and its write, and none removed a hash while another
  was between its write and its insertion (`InverseIffOrderly`). A rotation writes back the
  whole record it read, so a revocation holds if and only if no rotation under way read the
  key while it was enabled (`RevocationHoldsIff`). In the same way a deleted key stays away
  if and only if no rotation under way had read it (`DeletionHoldsIff`); otherwise it can come
  back, enabled, under a secret issued after the deletion (`DeletedKeyReturns`).
* **Usage.** Dashboard totals equal the sums over models, over providers and over keys. The
  token total of a key adds prompt and completion tokens whereas the dashboard adds the
  recorded total. The two can differ (`KeyTokensDiffer`), and over what the store holds agree
  after every record if and only if each record of the key has the sum of its two counts as
  its total (`KeyTokensAgreeIff`).

## Model

| member | source | states |
|---|---|---|
| TokenBuckets.CreditBounds | crates/himadri-ratelimit/src/token_bucket.rs:66 | credit is earned only when time has passed, never exceeds what the rate earned, and short of saturation misses it by less than one token |
| TokenBuckets.TokenBucket.constructor | crates/himadri-ratelimit/src/token_bucket.rs:31-38 | a new bucket is full and was last refilled at its creation |
| TokenBuckets.TokenBucket.ClaimRefill | crates/himadri-ratelimit/src/token_bucket.rs:71-74 | the compare-exchange: wins exactly if the expected time is still there |
| TokenBuckets.TokenBucket.AddCredit | crates/himadri-ratelimit/src/token_bucket.rs:76-80 | crediting saturates and never passes the capacity |
| TokenBuckets.TokenBucket.TryTake | crates/himadri-ratelimit/src/token_bucket.rs:56-60 | consuming succeeds exactly if the tokens are there and never drives them below zero |
| TokenBuckets.TokenBucket.Refill | crates/himadri-ratelimit/src/token_bucket.rs:63-83 | a refill with nobody else running does what the sequential specification says |
| TokenBuckets.TokenBucket.AllowN | crates/himadri-ratelimit/src/token_bucket.rs:54-61 | admission and the whole new state of a call with nobody else running |
| TokenBuckets.AllowInNumbers | crates/himadri-ratelimit/src/token_bucket.rs:54-83 | a call finds the tokens held and elapsed microseconds times rate over 1,000,000 (the product stopping at 2^64 - 1), at most the capacity; it is admitted exactly if it asks for no more, and the refill time moves only if a whole token was earned |
| TokenBuckets.EmptiedBucketAfterASecond | crates/himadri-ratelimit/src/token_bucket.rs:62-83 | an emptied bucket admits exactly min(rate, capacity) a million microseconds later, short of saturation |
| TokenBuckets.NewBucketIsFull | crates/himadri-ratelimit/src/token_bucket.rs:31-38 | a new bucket admits exactly its capacity at once |
| TokenBuckets.UninterruptedCall | crates/himadri-ratelimit/src/token_bucket.rs:54-83 | in the step system a call nobody interrupts ends in the state, and gives the answer, of `AllowN` |
| TokenBuckets.WaitedCallerAdmitted | crates/himadri-ratelimit/src/token_bucket.rs:54-83 | a caller that waited until n tokens accrued, n within capacity and short of saturation, is admitted |
| TokenBuckets.WaitedCallerAdmittedIff | crates/himadri-ratelimit/src/token_bucket.rs:66 | a caller that waited for n tokens, n within capacity, is admitted if and only if n is at most the tokens held plus what one saturated product credits |
| TokenBuckets.StepKeeps | crates/himadri-ratelimit/src/token_bucket.rs:54-83 | every atomic step of every caller keeps tokens within capacity, times in order, no token made from nothing and credit backed by elapsed time |
| TokenBuckets.RunKeeps | crates/himadri-ratelimit/src/token_bucket.rs:54-83 | the same over every interleaving |
| TokenBuckets.ExecConcat | crates/himadri-ratelimit/src/token_bucket.rs:54-83 | running two step sequences one after the other is running their concatenation |
| TokenBuckets.AdmissionBound | crates/himadri-ratelimit/src/token_bucket.rs:54-83 | over every run of any number of interleaved callers, 1,000,000 times the tokens handed out since creation is at most 1,000,000 * capacity + rate * elapsed microseconds |
| TokenBuckets.SuffixBound | crates/himadri-ratelimit/src/token_bucket.rs:54-83 | from any point of any run, what is admitted later is covered by the tokens, the credit won but not yet added, and what the rate earns since the last refill |
| TokenBuckets.AdmittedFromRest | crates/himadri-ratelimit/src/token_bucket.rs:54-83 | when all callers were idle, whatever is let through later is the tokens held, one capped refill at some time, and what the rate earns after that |
| TokenBuckets.BurstAtMost | crates/himadri-ratelimit/src/token_bucket.rs:54-83 | without time passing, no interleaving lets through more than the tokens held plus the refill due, capped |
| TokenBuckets.BurstReached | crates/himadri-ratelimit/src/token_bucket.rs:54-83 | two callers can let through exactly that |
| TokenBuckets.BurstWithinCapacityIff | crates/himadri-ratelimit/src/token_bucket.rs:76-80 | with two or more callers at rest, every burst stays within the capacity if and only if the bucket is empty or tokens plus the refill due fit it |
| TokenBuckets.WindowsBoundedIff | crates/himadri-ratelimit/src/token_bucket.rs:54-83 | with two or more callers at rest, the burst bound holds over every window starting there if and only if the bucket is empty or the first refill fits whenever it comes |
| TokenBuckets.BurstOfTwiceTheCapacity | crates/himadri-ratelimit/src/token_bucket.rs:54-83 | for every rate and capacity, once a capacity has accrued over a full bucket, a run admits twice the capacity at one instant |
| TokenBuckets.WindowBound | crates/himadri-ratelimit/src/token_bucket.rs:54-83 | from any point of any run at which tokens, pending credit and accrued time are worth at most the capacity, the burst bound holds over every window |
| TokenBuckets.ZeroRateAdmitsExactlyCapacity | crates/himadri-ratelimit/src/token_bucket.rs:54-61 | with rate zero, tokens left plus tokens admitted is always the capacity, and a caller for one token is refused exactly when all are gone |
| TokenBuckets.RemainderLoss | crates/himadri-ratelimit/src/token_bucket.rs:66-80 | credit never leads what was earned, and if no won refill's product saturates it lags by less than one token per won refill |
| TokenBuckets.TotalBackedByTime | crates/himadri-ratelimit/src/token_bucket.rs:54-83 | calls made in turn admit no more than the tokens held plus what the rate earns until the last of them |
| TokenBuckets.SequentialWindowBound | crates/himadri-ratelimit/src/token_bucket.rs:54-83 | callers taking turns get the burst bound over every window, up to one fractional token |
| Limiters.ShardedRateLimiter.constructor | crates/himadri-ratelimit/src/token_bucket.rs:94-105 | a new limiter stands for the empty map |
| Limiters.ShardedRateLimiter.AllowWithParams | crates/himadri-ratelimit/src/token_bucket.rs:117-138 | the answer and the new contents are those of one map from key to bucket: a stored bucket of the parameters asked for is used as it stands, any other key meets a full one of exactly these, and no other key is touched |
| Limiters.ShardedRateLimiter.Allow | crates/himadri-ratelimit/src/token_bucket.rs:107-109 | a check with the limiter's own parameters |
| Limiters.ShardedRateLimiter.Clear | crates/himadri-ratelimit/src/token_bucket.rs:146-150 | afterwards no key has a bucket |
| Limiters.ShardsRefineMap | crates/himadri-ratelimit/src/token_bucket.rs:117-150 | one request on the shards is that request on the map they stand for, and keys stay in the shard their hash names |
| Limiters.KeysAreIndependent | crates/himadri-ratelimit/src/token_bucket.rs:117-150 | over any history the answers for a key are those of a lone bucket that sees only that key's checks and the clears |
| Limiters.AnswersOfOneBucket | crates/himadri-ratelimit/src/token_bucket.rs:117-138 | a key without a bucket of the parameters asked for is answered, while these stay the same, as by one bucket created full at its first check and called in turn |
| Limiters.KeyAdmissionBound | crates/himadri-ratelimit/src/token_bucket.rs:117-138 | such a key is admitted at most capacity + rate * elapsed / 1,000,000 times between its first and its last check |
| Limiters.KeyAdmissionBoundAnyState | crates/himadri-ratelimit/src/token_bucket.rs:117-138 | a key that keeps its bucket, whatever is in it, is admitted less than one more than that |
| Limiters.ShardedAnswersAreMapAnswers | crates/himadri-ratelimit/src/token_bucket.rs:117-150 | over any history the sharded limiter answers as the plain map does |
| Limiters.ShardingIsInvisible | crates/himadri-ratelimit/src/token_bucket.rs:140-144 | shard count, hash function and other keys do not change the answers for a key |
| Limiters.EntityKeysDistinct | crates/himadri-ratelimit/src/lib.rs:45-58 | organisations and keys, and different ids of one kind, never share a bucket |
| Limiters.RateLimiter.constructor | crates/himadri-ratelimit/src/lib.rs:20-27 | a new limiter has the given defaults and no bucket |
| Limiters.RateLimiter.SetDefaults | crates/himadri-ratelimit/src/lib.rs:32-35 | retuning changes the defaults and no bucket |
| Limiters.RateLimiter.CheckGlobal | crates/himadri-ratelimit/src/lib.rs:37-43 | a check of the bucket "global", which always has the current defaults, so retuned defaults apply from the next check; the entities' buckets are untouched |
| Limiters.RateLimiter.CheckEntity | crates/himadri-ratelimit/src/lib.rs:45-58 | an override goes before the default, the bucket used is that of prefix, colon and id and has exactly those parameters, and only this bucket changes |
| Limiters.RateLimiter.Clear | crates/himadri-ratelimit/src/lib.rs:60-63 | no bucket is left anywhere |
| PackedBits.DivideAndRemain | crates/himadri-plugins/src/rate_limit.rs:58-63 | read as a number, the packed word divided by 2^32 is its window and leaves its count |
| PackedBits.ShiftAndMask | crates/himadri-plugins/src/rate_limit.rs:58-63 | shifting and masking a packed word give back exactly the window and the count packed into it |
| PackedBits.Split | crates/himadri-plugins/src/rate_limit.rs:58-63 | every 64-bit word is the packing of its two halves |
| FixedWindows.Pack | crates/himadri-plugins/src/rate_limit.rs:63 | the packed word decodes to the exact window and count |
| FixedWindows.PackIsShiftAndOr | crates/himadri-plugins/src/rate_limit.rs:63 | the number packed by multiplying is the shift-and-or of the two 32-bit halves |
| FixedWindows.UnpackIsShiftAndMask | crates/himadri-plugins/src/rate_limit.rs:58-60 | quotient and remainder of a packed word are its shift and its mask |
| FixedWindows.NewLimit | crates/himadri-plugins/src/rate_limit.rs:34-41 | the window is the one asked for, or a microsecond for zero; the limit is cut at 2^32 - 1 |
| FixedWindows.FixedWindowCounter.AllowN | crates/himadri-plugins/src/rate_limit.rs:53-66 | granted exactly if the window's count and n together are at most the limit; the upper half of the word is then reading / window modulo 2^32 and the lower half the raised count; otherwise the word is unchanged |
| FixedWindows.FixedWindowCounter.Count | crates/himadri-plugins/src/rate_limit.rs:69-77 | the count of the current window, zero if the word is of another |
| FixedWindows.FixedWindowCounter.Reset | crates/himadri-plugins/src/rate_limit.rs:80-83 | the word of the current window with count zero |
| FixedWindows.CountIsEpochTotal | crates/himadri-plugins/src/rate_limit.rs:53-83 | between two changes of the stored window (a reset counts as one) the count is exactly what was granted, and at most the limit, whatever the order of clock readings |
| FixedWindows.AllowanceStep | crates/himadri-plugins/src/rate_limit.rs:53-83 | each update, reset or stale call keeps what a window was granted within its allowance |
| FixedWindows.GrantedPerWindow | crates/himadri-plugins/src/rate_limit.rs:53-83 | over every history a window is granted at most the limit, plus the limit once per setback or reset |
| FixedWindows.StaleCallersRefillTheWindow | crates/himadri-plugins/src/rate_limit.rs:20-23 | for every k single requests with k stale ones among them grant one window (k + 1) times the limit, so the documented claim fails and the bound is exact |
| FixedWindows.SetbacksAreDescents | crates/himadri-plugins/src/rate_limit.rs:53-83 | for single requests the counter is set back exactly at the resets and where a reading's window is before that of the update just before it |
| FixedWindows.NoDescentKeepsLimit | crates/himadri-plugins/src/rate_limit.rs:53-83 | without any of these every window keeps within the limit |
| FixedWindows.RolloverKeepsLimitIff | crates/himadri-plugins/src/rate_limit.rs:20-23 | all histories of single requests whose readings go back k times keep a window within the limit if and only if k is zero or the limit is |
| FixedWindows.SetbacksAreResets | crates/himadri-plugins/src/rate_limit.rs:43-83 | while the window ids of the updates keep their order, from the stored one on, the counter is set back exactly by the resets |
| FixedWindows.OrderedKeepsLimit | crates/himadri-plugins/src/rate_limit.rs:43-83 | such updates grant a window at most the limit, and once more the limit for each reset |
| FixedWindows.GrantedPerSpan | crates/himadri-plugins/src/rate_limit.rs:43-83 | while the windows of the readings do not go backwards, readings between two times D apart are granted at most limit * (D / window + 2 + resets), from any state of the counter |
| FixedWindows.SameIdIff | crates/himadri-plugins/src/rate_limit.rs:43-45 | two readings share a window id if and only if they lie a multiple of 2^32 windows apart |
| FixedWindows.OneWindowApart | crates/himadri-plugins/src/rate_limit.rs:43-45 | readings at least one window length apart never share an id, short of 2^32 windows |
| FixedWindows.NoTwoBoundaries | crates/himadri-plugins/src/rate_limit.rs:43-45 | readings less than a window apart have one id or two successive ones |
| FixedWindows.WindowGrantsTheLimit | crates/himadri-plugins/src/rate_limit.rs:48-66 | single requests of one window, in whatever order their clocks were read, are granted exactly until the limit is reached |
| WindowStores.RateLimiterStore.constructor | crates/himadri-plugins/src/rate_limit.rs:108-120 | a new store has empty shards |
| WindowStores.RateLimiterStore.Allow | crates/himadri-plugins/src/rate_limit.rs:122-155 | an existing key's counter decides; a new key gets a fresh counter and is let in exactly if the limit is positive, evicting a key of its shard exactly when that is full; all other keys keep their counters and no shard passes the cap |
| WindowStores.RateLimiterStore.GetCount | crates/himadri-plugins/src/rate_limit.rs:157-161 | the key's count in the current window, zero for an unknown key |
| WindowStores.RateLimiterStore.Reset | crates/himadri-plugins/src/rate_limit.rs:163-169 | clears the key's counter and leaves everything else; an unknown key stays unknown |
| WindowStores.KeyGrantedPerWindow | crates/himadri-plugins/src/rate_limit.rs:122-169 | over any life of a shard a key is granted at most the limit per window, and again the limit per eviction, reset or setback of it |
| WindowStores.StoreWithinShardCaps | crates/himadri-plugins/src/rate_limit.rs:142-149 | over every run the store holds at most the cap times the number of shards |
| WindowStores.OneKeyTooMany | crates/himadri-plugins/src/rate_limit.rs:142-149 | two keys of different shards give a run after which the store holds one key more than the cap |
| WindowStores.StoreKeepsCapIff | crates/himadri-plugins/src/rate_limit.rs:142-183 | the whole store keeps to the cap over every run if and only if all keys share one shard |
| Sse.NewlineIsFirst | crates/himadri-provider/src/sse.rs:44 | the cursor's search finds the first newline |
| Sse.HandleLine | crates/himadri-provider/src/sse.rs:45-69 | what one line does to the event type, what it yields and whether it stops the stream, also told in literal terms for each kind of line |
| Sse.LineInWords | crates/himadri-provider/src/sse.rs:45-69 | a blank line ends the event type; a line that is, up to whitespace, `event:` and a name sets it; `data:` and `[DONE]` stop the stream; `data:` and any other payload yield exactly that payload under the current type; every other line does nothing |
| Sse.EndMarkerFirst | crates/himadri-provider/src/sse.rs:60-64 | a stream whose first line is the end marker, in whatever spacing, yields nothing, whatever follows |
| Sse.EndMarkerLine | crates/himadri-provider/src/sse.rs:60-64 | in particular one that starts with the line `data: [DONE]` |
| Sse.CapInBytes | crates/himadri-provider/src/sse.rs:8-79 | an unfinished line is given up exactly when it is longer than 1048576 bytes |
| Sse.ConsumeLines | crates/himadri-provider/src/sse.rs:43-71 | the cursor loop yields exactly the fold of the buffer's whole lines and leaves exactly what follows the last newline |
| Sse.SseEvents | crates/himadri-provider/src/sse.rs:33-85 | the whole decoder yields what the specification of a stream says |
| Sse.LinesConcat | crates/himadri-provider/src/sse.rs:41-44 | cutting a text anywhere and carrying over the unfinished line loses and invents no line |
| Sse.FoldConcat | crates/himadri-provider/src/sse.rs:45-69 | folding lines in two batches, carrying the event type, is folding them at once |
| Sse.DecodesAsExpected | crates/himadri-provider/src/sse.rs:38-84 | at every point of a stream, what was yielded and what will be make up the events of the text |
| Sse.StreamDecodes | crates/himadri-provider/src/sse.rs:38-84 | for every chunking and every pattern of transport errors the events are those of the concatenated text, up to the first chunk that overfills the buffer; the complaint appears exactly then |
| Sse.ErrorsPassedOn | crates/himadri-provider/src/sse.rs:80-82 | the transport errors yielded are exactly those that occurred before the decoder stopped or gave up, in order |
| Sse.AllErrorsPassedOn | crates/himadri-provider/src/sse.rs:80-82 | if it never stops nor gives up, every transport error is passed on |
| Sse.EveryChunkingAgreesIff | crates/himadri-provider/src/sse.rs:38-79 | all chunkings of a text decode to its events if and only if its lines fit the cap |
| CircuitBreakers.CircuitBreaker.constructor | crates/himadri-circuitbreaker/src/lib.rs:79-90 | a new breaker is closed with zero counters |
| CircuitBreakers.CircuitBreaker.TryAllow | crates/himadri-circuitbreaker/src/lib.rs:92-116 | the answer and the whole new state of `allow` |
| CircuitBreakers.CircuitBreaker.RecordSuccess | crates/himadri-circuitbreaker/src/lib.rs:118-134 | the whole new state after a success |
| CircuitBreakers.CircuitBreaker.RecordFailure | crates/himadri-circuitbreaker/src/lib.rs:136-156 | the whole new state after a failure |
| CircuitBreakers.CircuitBreaker.DoReset | crates/himadri-circuitbreaker/src/lib.rs:170-176 | the whole new state after a reset |
| CircuitBreakers.CountersFit | crates/himadri-circuitbreaker/src/lib.rs:92-176 | over every run the counters stay within the configured numbers, so they cannot overflow |
| CircuitBreakers.ClosedCountsStreak | crates/himadri-circuitbreaker/src/lib.rs:118-156 | while closed, the failure count is the failures since the last success, close or reset, and below a positive threshold |
| CircuitBreakers.FailureIsStamped | crates/himadri-circuitbreaker/src/lib.rs:136-156 | over every run the time kept is the reading of the last failure, and a breaker that is not closed has had one |
| CircuitBreakers.WhoIsAdmitted | crates/himadri-circuitbreaker/src/lib.rs:92-116 | over every run a closed breaker admits, and an open one admits if and only if the reading of the last failure lies at least the timeout back |
| CircuitBreakers.TripsIff | crates/himadri-circuitbreaker/src/lib.rs:136-147 | a closed breaker leaves Closed exactly at the failure that completes a streak of the threshold |
| CircuitBreakers.HalfOpenPhase | crates/himadri-circuitbreaker/src/lib.rs:92-116 | a half-open breaker has an opening probe since which there was no failure or reset, and its counters are the successes and admissions since then |
| CircuitBreakers.ClosesOnlyAfterSuccesses | crates/himadri-circuitbreaker/src/lib.rs:118-134 | it closes only on the success that completes the configured number since its phase began, with at most that many probes admitted |
| CircuitBreakers.MatchedProbesClose | crates/himadri-circuitbreaker/src/lib.rs:92-134 | after the timeout, N allows and N matching successes in any order are all admitted and end Closed |
| CircuitBreakers.LostProbesWedge | crates/himadri-circuitbreaker/src/lib.rs:109-114 | once all probes are out, nobody is admitted at any time before enough successes, a failure or a reset |
| CircuitBreakers.WedgedIff | crates/himadri-circuitbreaker/src/lib.rs:109-156 | with all probes out it stays half-open if and only if no failure, no reset and too few successes are recorded |
| CircuitBreakers.WaysOut | crates/himadri-circuitbreaker/src/lib.rs:92-176 | the completing success or a reset lets everyone in, a failure lets callers in after the timeout, anything else nobody |
| CircuitBreakers.ProbesOutReached | crates/himadri-circuitbreaker/src/lib.rs:92-134 | for a breaker reached by any run, all probes are out as soon as the admissions of the phase reach their number |
| CircuitBreakers.TrippedBreakerThrottles | crates/himadri-circuitbreaker/src/lib.rs:92-156 | while it stays away from Closed, admissions within T of the opening failure are at most max(1, half_open_max_calls) * (T / recovery_timeout) |
| CircuitBreakers.OpeningFailureThrottles | crates/himadri-circuitbreaker/src/lib.rs:92-156 | the same bound, T being counted from the reading of the failure operation that opened the breaker |
| Rbac.Split | crates/himadri-core/src/rbac.rs:50 | splitting at the stars gives starless segments, one more than there are stars |
| Rbac.SplitJoins | crates/himadri-core/src/rbac.rs:50 | the segments joined by stars are the pattern again |
| Rbac.LeftmostSuffices | crates/himadri-core/src/rbac.rs:66-67 | taking the leftmost occurrence of a middle segment never loses a match |
| Rbac.Find | crates/himadri-core/src/rbac.rs:66 | the leftmost occurrence from a position on, or none |
| Rbac.MatchSegments | crates/himadri-core/src/rbac.rs:50-72 | the greedy loop succeeds exactly when prefix, middle segments and suffix fit in order without overlap |
| Rbac.MatchesBySegments | crates/himadri-core/src/rbac.rs:36-50 | a choice of strings for the stars exists exactly when the segments fit |
| Rbac.PatternMatches | crates/himadri-core/src/rbac.rs:40-73 | true exactly when some choice of strings for the stars makes the pattern equal the whole value |
| Rbac.MatchesStepwise | crates/himadri-core/src/rbac.rs:36-73 | matching determined character by character: a star takes up any beginning of the value, any other character itself, and the empty pattern matches the empty value only |
| Rbac.PlainAndPrefixPatterns | crates/himadri-core/src/rbac.rs:36-73 | a pattern without a star matches itself only; with one star at its end exactly the values it begins, at its start those it ends |
| Rbac.AnyMatch | crates/himadri-core/src/rbac.rs:75-77 | some pattern of the list matches |
| Rbac.MergedPermits | crates/himadri-core/src/rbac.rs:181-190 | a merged allow-list permits what either of the two permits |
| Rbac.ActivePolicies | crates/himadri-core/src/rbac.rs:91-105 | the policies of the matched roles, else that of an existing default role, else none |
| Rbac.EffectivePolicy | crates/himadri-core/src/rbac.rs:90-118 | the merged policy permits exactly what some active role permits, in each dimension; none exactly if no role is active |
| Rbac.CheckDimension | crates/himadri-core/src/rbac.rs:124-143 | disabled checks and admins are always let through; otherwise some configured role of the principal, or without any the default role, must leave the dimension open or have a matching pattern; the denial names the value in its own dimension, or that no role matched |
| Rbac.DecisionIsDecided | crates/himadri-core/src/rbac.rs:90-143 | the decision over active roles is, for every configuration, the case distinction by disabled, admin, configured roles and default role |
| Rbac.OrderAndRepeatsIgnored | crates/himadri-core/src/rbac.rs:90-118 | order and repetition of roles do not matter |
| Rbac.MoreRolesMoreAccess | crates/himadri-core/src/rbac.rs:107-115 | once one role matches, adding roles never removes access |
| Rbac.MatchingIsTransitive | crates/himadri-core/src/rbac.rs:36-73 | a pattern that matches a second pattern as text matches every value that one matches |
| Rbac.MatchesItself | crates/himadri-core/src/rbac.rs:36-73 | every pattern matches itself as text |
| Rbac.IncludesIff | crates/himadri-core/src/rbac.rs:75-77 | one allow-list permits everything another does if and only if it permits each of its patterns read as a value |
| Rbac.Covers | crates/himadri-core/src/rbac.rs:75-77 | that condition, decided with the matcher |
| Rbac.LeavingTheDefault | crates/himadri-core/src/rbac.rs:93-115 | a principal on the default role loses nothing by one more role if and only if that role is unknown or permits each of the default's patterns read as a value |
| Targets.DedupTargets | crates/himadri/src/strategy.rs:303-316 | the filter keeps what the specification of de-duplication keeps |
| Targets.DedupKeepsEachOnce | crates/himadri/src/strategy.rs:298-316 | every endpoint of the input is kept exactly once, and no other |
| Targets.DedupIdempotent | crates/himadri/src/strategy.rs:303-316 | de-duplicating twice changes nothing more |
| Targets.DedupKeepsFirstsInOrder | crates/himadri/src/strategy.rs:298-316 | what is kept are the first occurrences, in order |
| Targets.KeptIffFirst | crates/himadri/src/strategy.rs:298-316 | a target is kept if and only if no earlier one agrees with it in id, provider, key variable and base URL |
| WeightedPicks.PickWeighted | crates/himadri/src/strategy.rs:223-237 | the subtracting loop picks the first target whose summed weight the draw does not pass |
| WeightedPicks.PickFallsIn | crates/himadri/src/strategy.rs:227-235 | a positive draw picks target i exactly when it lies in (sum before i, sum through i], and a target with weight; a zero draw picks the first |
| WeightedPicks.PickInWeights | crates/himadri/src/strategy.rs:223-237 | the pick in terms of the weights themselves, negative ones counting nothing: the target at which the running sum first reaches a positive draw, else the first |
| WeightedPicks.WeightlessPickedIff | crates/himadri/src/strategy.rs:223-235 | a weightless target is picked if and only if none has weight, or the draw is zero and it comes first |
| WeightedPicks.ZeroDrawPicksWeightless | crates/himadri/src/strategy.rs:227-235 | a concrete family in which that happens |
| WeightedPicks.LoadBalanceOrder | crates/himadri/src/strategy.rs:216-241 | the loop samples by weight without replacement |
| WeightedPicks.BalancedPermutes | crates/himadri/src/strategy.rs:222-239 | whatever the draws, the order is a permutation of the targets |
| WeightedPicks.BalancedRounds | crates/himadri/src/strategy.rs:222-240 | round k picks by draw k among exactly the targets the earlier rounds left, in the order they had |
| WeightedPicks.SelectVariant | crates/himadri/src/strategy.rs:369-398 | the variant whose half-open interval holds the draw, non-positive weights counting as one; the fall-through is never reached |
| WeightedPicks.VariantsPartition | crates/himadri/src/strategy.rs:369-389 | each draw falls in one variant's interval only |
| StableSorts.SortIsStable | crates/himadri/src/strategy.rs:248-257 | the order is sorted, a permutation, and keeps equal keys in their order |
| StableSorts.StableSortUnique | crates/himadri/src/strategy.rs:248-257 | there is only one stable sort of a list |
| Strategies.FindRule | crates/himadri/src/strategy.rs:260-266 | the first rule that matches decides, else the fallback |
| Strategies.FindContentRule | crates/himadri/src/strategy.rs:269-275 | the first content rule that matches decides, else the fallback |
| Strategies.SelectOrdered | crates/himadri/src/strategy.rs:204-285 | an error exactly for no targets; otherwise the de-duplicated order of the strategy |
| Strategies.CheapestFirst | crates/himadri/src/strategy.rs:251-259 | cost-optimised order: a permutation with rising weights |
| Strategies.QuickestFirst | crates/himadri/src/strategy.rs:242-250 | least-latency order: a permutation with rising latency, a provider never measured counting as 2^64 - 1 |
| Strategies.FirstConditionDecides | crates/himadri/src/strategy.rs:260-268 | the target of the first rule whose value is the model, or a beginning of it for a prefix rule, goes in front of all targets, else the fallback, else nothing |
| Strategies.FirstContentDecides | crates/himadri/src/strategy.rs:269-277 | the same for content rules |
| Strategies.VariantDecides | crates/himadri/src/strategy.rs:356-391 | the variant in whose stretch of the weights the draw lies goes in front of all targets, non-positive weights counting as one; without variants the first target |
| Strategies.EveryEndpointTriedOnce | crates/himadri/src/strategy.rs:198-316 | every strategy but `Single` yields every configured endpoint and that of its primary exactly once, the primary first |
| PiiRequests.CollectSlots | crates/himadri-plugins/src/pii_guardrail.rs:273-313 | the collected slots are those of the specification, in order |
| PiiRequests.CollectedIff | crates/himadri-plugins/src/pii_guardrail.rs:273-313 | a slot is collected, with its text, if and only if it is a non-empty text of a message whose role is in scope, tool arguments only if they are scanned |
| PiiRequests.CollectedOnce | crates/himadri-plugins/src/pii_guardrail.rs:273-313 | no slot is collected twice |
| PiiRequests.Context.WriteBack | crates/himadri-plugins/src/pii_guardrail.rs:315-338 | one text is put where its slot points and nothing else changes |
| PiiRequests.Context.WriteAllBack | crates/himadri-plugins/src/pii_guardrail.rs:477-481 | all rewritten texts are put back, the others left |
| PiiRequests.MessageWritten | crates/himadri-plugins/src/pii_guardrail.rs:279-338 | writing back the slots of one message is rewriting that message |
| PiiRequests.WriteBackIsRewrite | crates/himadri-plugins/src/pii_guardrail.rs:273-338 | collecting and writing back by index is the structural rewrite of the request: each non-empty text of a role in scope, tool arguments if scanned, and nothing else |
| PiiRequests.RewriteAt | crates/himadri-plugins/src/pii_guardrail.rs:315-338 | after the rewrite each text is the rewriter's if it was to be scanned and the rewriter has one, and is as before otherwise |
| PiiRequests.RewriteKeepsBlank | crates/himadri-plugins/src/pii_guardrail.rs:315-338 | apart from texts and tool arguments the rewrite changes nothing of a message |
| PiiRequests.RewrittenIsReworked | crates/himadri-plugins/src/pii_guardrail.rs:394-402 | in redact mode each scanned text in which the engine replaced something becomes the engine's text, and nothing else changes |
| PiiRequests.RunEngine | crates/himadri-plugins/src/pii_guardrail.rs:383-413 | fails exactly if the engine does, redacting or scanning as the mode says, on some text; else one result per text, the engine's redacted text exactly where it replaced something, and for every entity the summed counts |
| PiiRequests.SegmentInWords | crates/himadri-plugins/src/pii_guardrail.rs:391-409 | what one text contributes, by the engine's own answer: the redacted text and its counts if something was replaced, or one per scanned hit |
| PiiRequests.PassInWords | crates/himadri-plugins/src/pii_guardrail.rs:383-413 | a pass fails exactly if the engine does on some text; else each entity's count is its sum over the texts, and counts are empty exactly if nothing was found |
| PiiRequests.PassNames | crates/himadri-plugins/src/pii_guardrail.rs:383-413 | the entities counted are exactly those the engine names for some text |
| PiiRequests.TallyFacts | crates/himadri-plugins/src/pii_guardrail.rs:395-407 | counts add up per entity and are empty exactly without hits |
| PiiRequests.PassFacts | crates/himadri-plugins/src/pii_guardrail.rs:383-413 | a pass fails exactly when some segment does; else the counts are the totals over all segments |
| PiiRequests.RequestInWords | crates/himadri-plugins/src/pii_guardrail.rs:429-502 | the pass over a request in terms of its scanned texts: it fails if and only if the engine does on one, finds something if and only if the engine does in one, and counts exactly what is found |
| PiiRequests.Context.Execute | crates/himadri-plugins/src/pii_guardrail.rs:429-502 | if the engine fails on some scanned text nothing changes and the answer is success or an internal error as `fail_open` says; else in redact mode each scanned text with a replacement is the engine's and nothing else differs, in the other modes the request stays; a note of mode and exact counts is left exactly on a hit; blocking happens exactly on a hit in block mode and names the entities found |
| PiiRequests.MostSpecificSectionDecides | crates/himadri-plugins/src/pii_guardrail.rs:257-270 | the most specific scope with a section decides alone, also when it switches the guardrail off |
| PiiRequests.NoSectionFallsThrough | crates/himadri-plugins/src/pii_guardrail.rs:265-269 | without a scoped section an enabled global one decides, else the defaults |
| Budgets.SpendStore.Add | crates/himadri-plugins/src/budget.rs:52-76 | a new key meeting a full store displaces a least recently updated one; the rounded cost is added to the key's spend up to 2^64 - 1 and its time set; all other keys stay as they are |
| Budgets.SpendStore.Get | crates/himadri-plugins/src/budget.rs:78-85 | the key's spend in dollars, zero if unknown |
| Budgets.SpendStore.Reset | crates/himadri-plugins/src/budget.rs:87-90 | the key is forgotten, the others stay |
| Budgets.SpendStore.ResetAll | crates/himadri-plugins/src/budget.rs:92-95 | all keys are forgotten |
| Budgets.LeastRecentExists | crates/himadri-plugins/src/budget.rs:60-64 | a non-empty store has a least recently updated key |
| Budgets.SizeWithinCap | crates/himadri-plugins/src/budget.rs:52-76 | over every run, also with equal update times, a positive cap is never exceeded |
| Budgets.EvictedOnlyWhenQuiet | crates/himadri-plugins/src/budget.rs:54-67 | with increasing update times a key is evicted only after at least `max_keys` other keys were updated since its own last update |
| Budgets.SpendIsSum | crates/himadri-plugins/src/budget.rs:69-75 | a surviving key's spend is the saturating sum of its rounded costs since it was inserted |
| Budgets.RoundingMonotone | crates/himadri-plugins/src/budget.rs:34-36 | rounding to micro-dollars respects order |
| Budgets.RoundingError | crates/himadri-plugins/src/budget.rs:34-36 | rounding is off by half a micro-dollar at most, halves going up, is zero for amounts up to zero and stops at 2^64 - 1 |
| Budgets.MicroRoundTrip | crates/himadri-plugins/src/budget.rs:34-40 | a stored amount reads back, in dollars, as the same amount |
| Budgets.Prices | crates/himadri-plugins/src/budget.rs:181-184 | each price applies to its own tokens, per million |
| Budgets.BudgetPlugin.CheckBudget | crates/himadri-plugins/src/budget.rs:262-281 | passes exactly if the limit in force, a positive cap of the principal before the global one, is not positive or the recorded micro-dollars are below a million times it |
| Budgets.BudgetPlugin.RecordCost | crates/himadri-plugins/src/budget.rs:283-292 | a positive cost, prompt and completion tokens at their own price per million, is added to the key's spend; otherwise nothing changes |
| Budgets.StoreMovesGate | crates/himadri-plugins/src/budget.rs:52-95 | every check, abandoned request and store operation, of whatever principal, moves a principal's spend and requests in flight as one step of its gate or not at all |
| Budgets.StoreOverspendBound | crates/himadri-plugins/src/budget.rs:231-292 | with at most m requests of a principal in flight, none costing more than c, its recorded spend stays below limit + m * c in every interleaving of checks with store operations of all principals, evictions and resets included |
| Budgets.StoreShutAtTheLimit | crates/himadri-plugins/src/budget.rs:262-281 | in such interleavings, once a principal's spend reaches the limit no check of it passes, and no request of it enters, until it is evicted or reset |
| ApiKeys.StepKeepsInverse | crates/himadri-admin/src/store.rs:258-389 | every operation keeps the two maps exact inverses |
| ApiKeys.ApiKeyStore.constructor | crates/himadri-admin/src/store.rs:251-256 | a new store is empty |
| ApiKeys.ApiKeyStore.Create | crates/himadri-admin/src/store.rs:258-286 | the key is stored under its hash only; the caller gets the plain secret |
| ApiKeys.ApiKeyStore.Get | crates/himadri-admin/src/store.rs:288-290 | the stored key masked, or none |
| ApiKeys.ApiKeyStore.Update | crates/himadri-admin/src/store.rs:299-336 | the fields present in the request change, the others stay, and the secret with them |
| ApiKeys.ApiKeyStore.Delete | crates/himadri-admin/src/store.rs:338-345 | id and secret are gone together |
| ApiKeys.ApiKeyStore.Validate | crates/himadri-admin/src/store.rs:347-362 | accepted exactly if the secret's hash leads to a stored key that is enabled and has no expiry before now; its use is then counted |
| ApiKeys.ApiKeyStore.Revoke | crates/himadri-admin/src/store.rs:364-371 | the key is disabled and keeps its record |
| ApiKeys.ApiKeyStore.Rotate | crates/himadri-admin/src/store.rs:373-389 | the old secret stops, the new one starts, all else stays |
| ApiKeys.RunRepresents | crates/himadri-admin/src/store.rs:258-389 | after every run the tables tell of each id exactly what its own history tells |
| ApiKeys.ValidatesLatestSecretOnly | crates/himadri-admin/src/store.rs:347-362 | a secret is accepted if and only if some id has it as its last issued one, is enabled and has no expiry before now; the use count is the accepted uses since creation |
| ApiKeys.RetiredSecretStaysDead | crates/himadri-admin/src/store.rs:338-389 | a rotated-away or deleted secret is never accepted again, whatever follows |
| ApiKeys.RevokedStaysShut | crates/himadri-admin/src/store.rs:347-371 | after a revocation no secret opens the id, whatever follows, until an update enables it or it is created anew |
| ApiKeyRaces.StepSound | crates/himadri-admin/src/store.rs:364-389 | every access of every rotation, and a revocation at any time, keeps each hash accounted for, new hashes apart, and other ids untouched |
| ApiKeyRaces.UninterruptedRotation | crates/himadri-admin/src/store.rs:373-389 | a rotation nobody interrupts does what the store's rotation does |
| ApiKeyRaces.OverlappingRotations | crates/himadri-admin/src/store.rs:373-389 | two rotations that both read a key before either writes it leave both new secrets accepted |
| ApiKeyRaces.OneMoreSecretPerMiss | crates/himadri-admin/src/store.rs:373-389 | in every interleaving, once all calls have returned the key opens under its current hash and one more per removal that found nothing, and the maps are inverse if and only if there was none |
| ApiKeyRaces.InverseIffOrderly | crates/himadri-admin/src/store.rs:373-389 | in every interleaving, once all calls have returned the maps are inverse if and only if no read fell between another caller's read and write and no removal between another's write and insertion |
| ApiKeyRaces.RevocationUndone | crates/himadri-admin/src/store.rs:364-389 | a rotation that read the key before it was revoked writes it back enabled |
| ApiKeyRaces.RevocationHoldsIff | crates/himadri-admin/src/store.rs:364-389 | a revocation holds over everything that follows if and only if no rotation under way holds a clone read while the key was enabled |
| ApiKeyRaces.UninterruptedDeletion | crates/himadri-admin/src/store.rs:338-345 | a deletion nobody interrupts does what the store's deletion does |
| ApiKeyRaces.DeletionUndone | crates/himadri-admin/src/store.rs:338-389 | a rotation that had read the key brings it back after any deletion, as it was read, open under a new secret |
| ApiKeyRaces.DeletedKeyReturns | crates/himadri-admin/src/store.rs:338-389 | a run in which all calls return and a key deleted in full is back, enabled, under a secret issued after the deletion |
| ApiKeyRaces.DeletionHoldsIff | crates/himadri-admin/src/store.rs:338-389 | a key taken out stays away over everything that follows if and only if no rotation under way had read it |
| UsageStores.UsageStore.constructor | crates/himadri-admin/src/usage_store.rs:109-115 | a new store is empty |
| UsageStores.UsageStore.Record | crates/himadri-admin/src/usage_store.rs:193-199 | the newest record is kept and the oldest ones dropped past the cap |
| UsageStores.HoldsTheLatest | crates/himadri-admin/src/usage_store.rs:193-199 | after any run the store holds exactly the last `max_records` records in order |
| UsageStores.RingHolds | crates/himadri-admin/src/usage_store.rs:193-199 | after n records the store holds min(n, max_records) of them, its i-th being record n - min(n, max_records) + i |
| UsageStores.OneMoreHeld | crates/himadri-admin/src/usage_store.rs:193-199 | one more record comes last, after the latest before it there is room for |
| UsageStores.UsageStore.GetKeyStats | crates/himadri-admin/src/usage_store.rs:214-261 | counts, sums, average, latest time and models are those of exactly the key's records |
| UsageStores.OneMoreForKey | crates/himadri-admin/src/usage_store.rs:214-261 | one more record changes a key's statistics only if it is the key's, and then each number by exactly its own field |
| UsageStores.NothingForKey | crates/himadri-admin/src/usage_store.rs:214-261 | without records all statistics are empty |
| UsageStores.AverageGrows | crates/himadri-admin/src/usage_store.rs:253-257 | each record counts in full in the average latency |
| UsageStores.UsageStore.GetDashboard | crates/himadri-admin/src/usage_store.rs:264-347 | totals, average latency, error rate, exact groups by the records' models and providers, their top ten and the ten most recent failures |
| UsageStores.Accumulate | crates/himadri-admin/src/usage_store.rs:264-298 | one pass gives the totals, the summed latency, the number of failures, and one exact entry per model and per provider |
| UsageStores.BumpSummarizes | crates/himadri-admin/src/usage_store.rs:285-299 | one more record keeps the group entries exact |
| UsageStores.GroupsAddUp | crates/himadri-admin/src/usage_store.rs:274-299 | however records are grouped and listed, the groups add up to the totals |
| UsageStores.TopN | crates/himadri-admin/src/usage_store.rs:86-98 | the n busiest groups in falling order; no group left out has more requests than one kept |
| UsageStores.TopRowsAreGroups | crates/himadri-admin/src/usage_store.rs:86-98 | the list has min(n, groups) rows, each of another group that occurs, those with most requests first |
| UsageStores.TopAndOthersAddUp | crates/himadri-admin/src/usage_store.rs:86-98 | a top list and the groups it leaves out make up the totals |
| UsageStores.TopListAccountsFor | crates/himadri-admin/src/usage_store.rs:86-98 | the list never has more requests than the totals, and has all of them if and only if there are at most n groups |
| UsageStores.RecentFailures | crates/himadri-admin/src/usage_store.rs:319-326 | the last n failures, newest first |
| UsageStores.KeysAddUp | crates/himadri-admin/src/usage_store.rs:214-261 | the records of all keys and those without a key make up the totals |
| UsageStores.KeyTokensAgree | crates/himadri-admin/src/usage_store.rs:249-251 | if each record's total is the sum of its two counts, so is the overall total |
| UsageStores.KeyTokensAgreeIff | crates/himadri-admin/src/usage_store.rs:249-251 | over what the store holds after each record, a key's reported tokens and its share of the dashboard's agree if and only if each of its records' total is the sum of its two counts |
| UsageStores.KeyTokensDiffer | crates/himadri-admin/src/usage_store.rs:278 | a record after which the two numbers differ |
| UsageStores.SuccessesAndFailures | crates/himadri-admin/src/usage_store.rs:226-232 | successes and failures make up the requests |
| UsageStores.LoadPricing | crates/himadri-admin/src/usage_store.rs:123-140 | after merging, a model's price is its last override, else its built-in one; one price per model stays one |

## Left out

- Memory orderings below sequential consistency; each atomic operation is one step.
- The truncation of clock readings to 64 bits; readings are 64-bit numbers.
- Readers of one shard running in parallel: a check holds its shard's guard to the end, but several may hold a read guard at once and interleave on one bucket or counter. The shard maps take calls one at a time; the interleavings inside one bucket or one word are modelled by `TokenBuckets` and `FixedWindows`.
- A new bucket reads the clock at its creation and again in the check that follows; the model uses one reading for both.
- `set_defaults` stores its two numbers in two atomic writes; a check between them is not modelled.
- The wrappers `check_org` and `check_key`, which are `CheckEntity` with the prefixes "org" and "key".
- The rate-limit plugin's `execute` and the clearing of a whole window store: they only combine or empty what is modelled.
- Sse.SseEvents: chunks are taken as cut at character boundaries, because the code decodes each chunk's UTF-8 by itself.
- The event stream standard beyond what the code does: it yields one event per data line and never joins lines.
- Floating point: weights, prices, costs and limits are reals, so rounding and NaN are not modelled, nor is the A/B loop's fall-through for rounding errors.
- Strategies.FindContentRule: whether a content rule matches (lower-casing, regular expressions) is given with the rule.
- The latency store: average latencies are an input.
- The PII engine, its options, metrics and the hand-over of large requests to a blocking thread, including the failure of that thread; and the response-side guardrail.
- PiiRequests.MostSpecificSectionDecides: the lookup of a request's scopes in the configuration is an input.
- The overflow of counters that only count requests, tokens or hits (usage counts, PII counts): they are natural numbers.
- The contents of a key's metadata, rate-limit override and token budget, which the store keeps and returns unread.
- Creations, updates and validations of an API key that overlap with other calls on it: `ApiKeys` takes operations one at a time, `ApiKeyRaces` interleaves rotations, revocations and deletions of one id.
- ApiKeys.ValidatesLatestSecretOnly: fresh ids and secrets and a hash without collisions are assumed.
- The choice of the key under which spend is tracked, and the rejection messages.
- The pricing of single requests, a sum of two products, and the decoding of the price overrides.
- SQL stores, HTTP handlers, authentication, the failover loop, the response cache, the web UI, metrics, tracing and audit logs.
