# Limits, budgets and measurements of the memory referee, verified

The repository is a shared memory hub with a benchmark suite that referees memory systems. This project models the parts
whose correctness is not visible from any one function, and proves what they promise:

* **Rate limiting** (`hub/abuse.py`). One token-bucket contract has two implementations: an access-ordered table in memory
  with lazy refill, idle sweep, forced eviction and refunds, and one SQL upsert that stores its decision in the time stamp of
  the row. `TokenBucket` holds both as steps on one bucket, `RateLimiter` the table as functions, `InMemoryLimiter` the
  mutable object proved against them, `RateLimiterRuns` everything about whole runs, `PostgresSweep` the idle sweep of the
  SQL table.
* **Spend control** (`benchmarks/cache.py`, `benchmarks/requests.py`). Concurrent graders reserve money, then settle, release
  or give up. `SpendControl` is the protocol over every interleaving, `BoundedRequests` the mutable guard and the two
  completion routines under arbitrary interference, `ConcurrentRequests` any number of such routines under any schedule,
  `TokenWindow` the sliding token allowance with its shared mutable entries.
* **Clustering** (`benchmarks/measurement.py`). `SharedSources` is union-find with path halving against graph connectivity.
* **Sampling and packing** (`benchmarks/conversation_bench.py`, `benchmarks/vendor_adapters.py`): `SampleCases`,
  `ContextPacking`.
* **Metrics and gates** (`benchmarks/fact_retrieval.py`, `benchmarks/compare.py`, `benchmarks/coding_lesson_bench.py`):
  `RankingMetrics`, `CompareRuns`, `CodingLesson`.
* **Audit export** (`hub/audit_export.py`): `Cef`, the printer and a parser that inverts it.

`Common` and `Ordering` hold what these share.

Conventions. Times, tokens, money and scores are exact reals. Clock readings, random draws, coin flips, shuffles, provider
replies and journal verdicts are parameters, so every theorem holds for every seed and every environment. A lock-protected
method is one atomic step. Limiter keys, case names, session ids, question types and document ids are abstract types with
equality (names with a total order); `SharedSources.ClusterByName` instantiates the clustering at strings with Python's
code-point order.

Where a promise does not hold as stated, the model keeps the code's behaviour and the theorem says exactly when it does hold:

* The idle sweep is invisible exactly when the rate is not positive or the idle TTL refills a whole bucket
  (`SweepIsInvisibleIff`); with the shipped limits that is `burst <= 60 * per_minute` (`ShippedLimitsCondition`).
* A Postgres client that waits exactly the returned delay is denied again (`PostgresHintIsShort`); `RetryAfterIsExact` gives
  the exact instant for both back ends.
* Token counts stay within [0, capacity] in memory exactly when `per_minute >= 0` (`MemRangeIff`). A Postgres row does so
  exactly when `per_minute >= 0` if checks are a microsecond apart (`PgSpacedRangeIff`), and on arbitrary time-ordered runs
  exactly when `per_minute == 0` (`PgRangeIff`); one check keeps it in range exactly when the refill is not negative
  (`PgTakeInRangeIff`), and it never falls by more than one microsecond of refill per denial (`PgTokenFloor`).
* The sweep of the Postgres table, which compares with `<` and may meet a row below zero, is invisible for checks a
  microsecond apart exactly when the rate is not positive, or earns a token a microsecond, or refills a bucket within the
  TTL (`SpacedSweepInvisibleIff`); on arbitrary time-ordered runs exactly when the rate is not positive
  (`SweepInvisibleIff`).
* Spend can pass the maximum by the settlement tolerance (`BudgetCanBeOverrun`). A run stays within it throughout exactly
  when each settlement runs past its reservation by no more than the money then neither spent nor reserved
  (`StrictBudgetIff`), and leaves it first at a settlement that does not (`FirstOverrunIsASettlement`). The completion
  routines never make such a settlement, under any schedule (`EveryScheduleKeepsTheBudget`).
* An audit record is one line exactly when neither the version nor the action holds a CR or LF (`SingleLineIff`): header
  fields do not escape line breaks.
* A context stays within its budget exactly when the budget is not negative: an empty context costs zero
  (`MakeFullContext`, `Pack`).
* Replacing a token estimate by a larger reported count can break the window's bound (`SettlingUpBreaksTheBound`);
  `InputTokenWindow.Settle` says exactly when it does.
* `sample_cases` with a negative limit returns no conversations, although its documentation says "exactly limit questions".

## Model

| member | source | states |
|---|---|---|
| TokenBucket.PostgresNeverAdmitsMore | hub/abuse.py:238-267 | for every policy and every sequence of checks and refunds on a key, with no assumption on the clock, the Postgres limiter admits at most as many calls as the in-memory one (every prefix is itself such a sequence) |
| TokenBucket.CoupledRun | hub/abuse.py:167-202 | the same from any coupled pair of states: tokens in Postgres never exceed tokens in memory plus memory's lead in admissions |
| TokenBucket.CoupledTake | hub/abuse.py:238-257 | one check on both back ends keeps the coupling, with the lead changed by the two decisions |
| TokenBucket.CoupledGiveBack | hub/abuse.py:264-267 | a refund on both back ends, each clipped at capacity, keeps the coupling |
| TokenBucket.RefundAddsOne | hub/abuse.py:197-202 | on either back end a refund adds exactly one token to what can be taken, up to the capacity, and leaves the refill time |
| TokenBucket.RefundUndoesAdmission | hub/abuse.py:197-202 | on either back end an admitted check that is refunded at once leaves every later answer of every time-ordered run as if it had never been made |
| TokenBucket.RefundAdmitsAgain | hub/abuse.py:264-267 | in particular the same check at the same instant is admitted again |
| TokenBucket.AlikeServeAlike | hub/abuse.py:178-188 | buckets refilled to the same count answer every later time-ordered run alike |
| TokenBucket.FreshKeyAdmitsItsBurst | hub/abuse.py:154-156 | at a positive rate, n checks at one instant on a new key admit exactly the lesser of n and max(burst, 1), on either back end |
| TokenBucket.DecisionsDifferPointwise | hub/abuse.py:238-257 | the two back ends can disagree call by call, in both directions |
| TokenBucket.PgDecisionIsTheRefill | hub/abuse.py:238-257 | reading the decision off `last_refill = now()` is exact: allowed if and only if the refilled count is at least one, and one token is taken exactly then |
| TokenBucket.NonPositiveRateDeniesAll | hub/abuse.py:386-392 | with a rate of zero or less both back ends deny every check of every run, with the fixed hint of 3600 seconds |
| TokenBucket.RetryAfterIsExact | hub/abuse.py:178-188 | after a denial that returned r and any n further denied checks, a check at t is admitted if and only if t >= now + r, plus n + 1 microseconds in Postgres |
| TokenBucket.DenialsTelescope | hub/abuse.py:246-256 | any run of denied checks moves the instant at which a token is due by exactly the back end's penalty: nothing in memory, one microsecond each in Postgres |
| TokenBucket.EarlyChecksAreDenied | hub/abuse.py:178-188 | in memory every check before the due instant is denied, however many there are and however they are spaced |
| TokenBucket.PostgresHintIsShort | hub/abuse.py:386-392 | a Postgres client that waits exactly the returned delay is denied again |
| TokenBucket.MemRangeIff | hub/abuse.py:154-202 | tokens stay in [0, capacity] on every time-ordered run if and only if `per_minute` is not negative |
| TokenBucket.MemStaysInRange | hub/abuse.py:178-202 | from any bucket in range, any time-ordered run with a non-negative rate ends in range |
| TokenBucket.PgTokenFloor | hub/abuse.py:238-257 | a Postgres row never exceeds capacity and never falls further below its floor than one microsecond of refill per denial |
| TokenBucket.PgTakeInRangeIff | hub/abuse.py:238-257 | for every policy and row, a check leaves the row in [0, capacity] if and only if tokens plus the refill is not negative; a missing row is always created in range |
| TokenBucket.PgStaysInRange | hub/abuse.py:238-267 | with a non-negative rate, every run whose checks are a microsecond apart keeps a row in range |
| TokenBucket.PgSpacedRangeIff | hub/abuse.py:238-267 | the row stays in [0, capacity] on every run whose checks are a microsecond apart if and only if `per_minute` is not negative |
| TokenBucket.PgRangeIff | hub/abuse.py:238-267 | it does so on every time-ordered run if and only if `per_minute` is zero |
| TokenBucket.BurstDepth | hub/abuse.py:249-256 | m + 1 checks at one instant beyond the tokens of a row leave it at exactly minus m microseconds of refill |
| TokenBucket.PgTokensCanGoNegative | hub/abuse.py:249-256 | a concrete instance: four checks at one instant leave a row of capacity one below zero |
| PostgresSweep.SpacedSweepInvisibleIff | hub/abuse.py:259-262 | with checks a microsecond apart, swept and unswept tables answer alike on every legal run, sweeps at any moment, if and only if the rate is not positive, or earns a token a microsecond, or TTL times rate is at least the capacity |
| PostgresSweep.SweepInvisibleIff | hub/abuse.py:259-262 | on arbitrary time-ordered runs they do so if and only if the rate is not positive, whatever the TTL |
| PostgresSweep.SweepDeletesIff | hub/abuse.py:259-262 | a row goes exactly when idle for longer than the TTL; one idle for just the TTL stays |
| PostgresSweep.AgreeRun | hub/abuse.py:238-267 | from a kept row in range and a swept one that is equal or deleted after a whole TTL, all later answers agree, refunds included |
| PostgresSweep.DrainApart | hub/abuse.py:386-392 | two rows that differ are told apart by checks a microsecond apart, at the first denial at the latest, by the verdict or the delay |
| PostgresSweep.EveryRowTells | hub/abuse.py:238-262 | from any row in range a legal run empties it, waits out a TTL that does not refill it, and shows the sweep |
| PostgresSweep.BurstTells | hub/abuse.py:249-262 | for any TTL, a burst at one instant leaves a row whose deletion shows |
| RateLimiter.CheckServesItsBucket | hub/abuse.py:167-188 | whatever the clock says, a check answers and updates its own key as one take on that key's bucket, never drops that key, only drops other buckets unchanged otherwise, and drops only idle ones while there is room |
| RateLimiter.SweepShrinks | hub/abuse.py:204-210 | a sweep adds and changes nothing and removes only buckets idle for the TTL |
| RateLimiter.EvictShrinks | hub/abuse.py:190-195 | after an eviction there is room for one more key, and what is left is unchanged |
| RateLimiter.MoveToEndKeepsWf | hub/abuse.py:177 | moving a key to the end keeps order list and table in one-to-one correspondence |
| InMemoryLimiter.SweepIgnoresTokens | hub/abuse.py:178-185 | taking the token before or after the sweep gives the same table |
| InMemoryLimiter.RateLimiter.constructor | hub/abuse.py:154-162 | a new limiter is empty, with the policy derived from its arguments and its sweep clock at the start |
| InMemoryLimiter.RateLimiter.Check | hub/abuse.py:167-188 | the mutable check returns and stores exactly what the table function does |
| InMemoryLimiter.RateLimiter.TouchBucket | hub/abuse.py:171-177 | look-up, creation with eviction, and move to the end |
| InMemoryLimiter.RateLimiter.EvictIfOverCapacity | hub/abuse.py:190-195 | the eviction loop ends in exactly the evicted table |
| InMemoryLimiter.RateLimiter.SweepIdleBuckets | hub/abuse.py:204-210 | the sweep loop ends in exactly the swept table, with the sweep clock moved |
| InMemoryLimiter.RateLimiter.Refund | hub/abuse.py:197-202 | an existing bucket gets one token more, or the capacity if that is less; its refill time, every other bucket, the order and the sweep clock stay; a missing key changes nothing |
| RateLimiterRuns.SweepIsInvisibleIff | hub/abuse.py:167-210 | the swept limiter gives the ideal limiter's answers on every time-ordered run over at most `maxKeys` keys if and only if the rate is not positive or TTL times rate is at least the capacity |
| RateLimiterRuns.SweepIsInvisible | hub/abuse.py:167-210 | under that condition, the same verdicts and retry delays, refunds included, from the empty table |
| RateLimiterRuns.SweepIsInvisibleFrom | hub/abuse.py:167-210 | the same from any table that agrees with the ideal one up to buckets idle for a TTL |
| RateLimiterRuns.IdleIsFull | hub/abuse.py:172-179 | a bucket idle for such a TTL is served like one that was never there |
| RateLimiterRuns.ShippedLimitsCondition | hub/abuse.py:149-156 | with the shipped constants the condition is burst <= 60 * per_minute |
| RateLimiterRuns.TellTaleOnTable | hub/abuse.py:183-210 | on the run that drains one key, lets another trigger the sweep a TTL later and drains the first again, the swept limiter admits the whole second burst |
| RateLimiterRuns.TellTaleOnIdeal | hub/abuse.py:167-188 | on the same run the ideal limiter refuses part of it when the TTL is too short |
| RateLimiterRuns.RemovalOnlyAdmitsMore | hub/abuse.py:190-210 | for every key, policy, clock and run, sweeping and forced eviction admit at least as many of the key's calls as the ideal limiter |
| RateLimiterRuns.AdmissionBound | hub/abuse.py:154-210 | over any time-ordered stretch one key is admitted at most capacity * (1 + removals) + rate * elapsed + its refunds times |
| RateLimiterRuns.AdmissionBudget | hub/abuse.py:178-202 | the sharper form: at most what the bucket holds at the start plus what the run credits |
| RateLimiterRuns.RunKeepsInv | hub/abuse.py:157-210 | every reachable table is ordered by last refill, holds at most `maxKeys` buckets, none from the future, and tokens in range when the rate is not negative |
| RateLimiterRuns.CheckKeepsInv | hub/abuse.py:167-188 | one check keeps that invariant |
| RateLimiterRuns.SweepRemovesExactlyIdle | hub/abuse.py:204-210 | because the table is ordered, stopping at the first fresh bucket removes exactly the idle ones |
| RateLimiterRuns.EvictionRemovesLeastRecent | hub/abuse.py:190-195 | a new key at a table full of fresh buckets evicts exactly the bucket with the oldest refill |
| RateLimiterRuns.EvictionIsExact | hub/abuse.py:190-195 | making room changes nothing while there is room; at a full table exactly the idle buckets go, and only if there is none does exactly the least recently checked one |
| RateLimiterRuns.AdmittedForConcat | hub/abuse.py:167-188 | the admission count of a key grows by one for each admitted check of it and for nothing else |
| RateLimiterRuns.NonPositiveRateRun | hub/abuse.py:183-188 | with a non-positive rate every check of a run on the whole table is denied with the fixed hint |
| SharedSources.ClusterByName | benchmarks/measurement.py:173-197 | on string names and session ids: labels are equal if and only if a chain of shared gold sessions connects the cases, and the label is the least name of the component |
| SharedSources.SharedSourceClusters | benchmarks/measurement.py:173-197 | the same for any totally ordered names |
| SharedSources.FindRoot | benchmarks/measurement.py:183-187 | the root loop terminates, returns the root, and path halving changes no node's root |
| SharedSources.HalvingKeepsRoots | benchmarks/measurement.py:185 | one halving step keeps the root of every node |
| SharedSources.HalvedIsForest | benchmarks/measurement.py:185 | halving keeps every parent no larger than its child |
| SharedSources.LinkingMergesRoots | benchmarks/measurement.py:193-194 | linking a root under a smaller one renames exactly the class of the larger |
| SharedSources.LinkRoots | benchmarks/measurement.py:193-194 | the smaller of two roots wins and only the other's class is renamed |
| SharedSources.VisitSession | benchmarks/measurement.py:191-196 | after one session, two cases have one root if and only if the sessions seen so far connect them |
| SharedSources.KnownSession | benchmarks/measurement.py:192-194 | a session with an owner joins the two classes and nothing else |
| SharedSources.FreshSession | benchmarks/measurement.py:195-196 | a session seen for the first time joins nothing |
| SharedSources.CollectRoots | benchmarks/measurement.py:197 | the final comprehension, which still halves paths, returns every node's root |
| SharedSources.RootsAreClustering | benchmarks/measurement.py:189-197 | the roots of a table that tracks the links are the promised clustering, least names included |
| SharedSources.ClusteringIsUnique | benchmarks/measurement.py:173-179 | connectivity and least label determine the result |
| SharedSources.OrderDoesNotMatter | benchmarks/measurement.py:189-197 | inputs with the same names and the same "name carries session" facts get the same labels: the order of cases, of questions and of sessions, and repeats, do not matter |
| SharedSources.UnannotatedKeepsItsName | benchmarks/measurement.py:176-179 | a case without gold sessions is labelled by itself |
| Ordering.LexIsTotalOrder | benchmarks/measurement.py:193 | code-point order on strings is a total order |
| Ordering.Sorted | benchmarks/conversation_bench.py:295-296 | sorting a set lists each element once, in order |
| RankingMetrics.MetricsMeanWhatTheySay | benchmarks/fact_retrieval.py:87-97 | on the first k results: the clamp does nothing, nDCG is in [0, 1] and is 1 if and only if the page carries the judged grades best first and cut at k; recall times the judgments is the number of judged ids shown, 1 if and only if all are; the reciprocal rank is one over the first judged position, 0 if and only if there is none |
| RankingMetrics.OutcomeIff | benchmarks/fact_retrieval.py:74-88 | metrics are refused exactly for a bad k, over-long inputs, invalid or repeated identities or grades outside 1 to 3, and undefined exactly without judgments |
| RankingMetrics.IdealIsReached | benchmarks/fact_retrieval.py:95-96 | the ideal is a page: the judged ids best first, cut at k, carry exactly the ideal grades |
| RankingMetrics.GradeOfIs | benchmarks/fact_retrieval.py:93 | a judged id has its own grade, any other zero |
| RankingMetrics.GainIs | benchmarks/fact_retrieval.py:93 | the gains of the grades 0 to 3 are 0, 1, 3 and 7 |
| RankingMetrics.DcgAppend | benchmarks/fact_retrieval.py:93-94 | each position adds its gain times its discount |
| RankingMetrics.DcgBound | benchmarks/fact_retrieval.py:93-97 | the rearrangement bound: DCG <= ideal DCG for every strictly decreasing positive discount, with equality if and only if the grade sequences agree up to trailing zero-gain results |
| RankingMetrics.LayerBound | benchmarks/fact_retrieval.py:93-94 | the results of one grade level collect at most as many leading discounts as there are, exactly that if and only if they come first |
| RankingMetrics.DcgInLayers | benchmarks/fact_retrieval.py:93-94 | gain 2^g - 1 is the weighted sum of three threshold layers |
| RankingMetrics.IdealDominates | benchmarks/fact_retrieval.py:95-96 | the sorted and cut judgments have, at each level, at least as many results as any duplicate-free page of that size |
| RankingMetrics.SortDescFacts | benchmarks/fact_retrieval.py:96 | sorting in reverse gives a descending permutation |
| RankingMetrics.NoDuplicateIsDistinct | benchmarks/fact_retrieval.py:81-82 | the uniqueness check refuses exactly the rankings with a repeated identity |
| RankingMetrics.FullRecall | benchmarks/fact_retrieval.py:90-91 | the matches never exceed the judgments and equal them if and only if all are shown |
| RankingMetrics.ReciprocalRankIs | benchmarks/fact_retrieval.py:92 | the reciprocal rank is one over the first judged position |
| RankingMetrics.ReciprocalRankZero | benchmarks/fact_retrieval.py:92 | it is zero if and only if nothing judged is shown |
| SpendControl.BudgetIsKept | benchmarks/cache.py:218-253 | in every interleaving: reserved is the sum of in-flight and held reservations, spend is the sum of settled costs, and together they are at most the maximum plus 1e-12 per settled call, at most the maximum when no cost exceeds its reservation |
| SpendControl.RunKeepsInv | benchmarks/cache.py:218-253 | every run of allowed steps keeps the accounting invariant and the maximum |
| SpendControl.StepKeepsInv | benchmarks/cache.py:218-253 | so does each step; in particular the clips at zero never lose money |
| SpendControl.CostLaws | benchmarks/cache.py:223 | a million input tokens cost the input price, a million output tokens the output price, and usages add up |
| SpendControl.GrantedIff | benchmarks/cache.py:224-231 | a reservation is granted if and only if no charge is uncertain and spend and reservations stay within the maximum with it; nothing but the reserved sum changes |
| SpendControl.StepWithinIff | benchmarks/cache.py:218-253 | from within the budget, a step stays within it, without tolerance, if and only if it is not a settlement running past its reservation by more than the money neither spent nor reserved |
| SpendControl.SettleWithinIff | benchmarks/cache.py:233-238 | an accepted settlement ends within the budget if and only if cost - reservation <= maximum - spend - reserved beforehand |
| SpendControl.StrictBudgetIff | benchmarks/cache.py:218-253 | every run is within the budget at every moment if and only if each of its settlements meets that condition when it is made |
| SpendControl.RunWithinIff | benchmarks/cache.py:218-253 | the same from any reachable system within its budget |
| SpendControl.FirstOverrunIsASettlement | benchmarks/cache.py:233-238 | a run that leaves the budget does so first at a settlement that fails the condition, and at no other kind of step |
| SpendControl.NoOverrunAnywhere | benchmarks/cache.py:233-238 | if no settled cost exceeds its reservation in the end, every settlement met the condition |
| SpendControl.BudgetCanBeOverrun | benchmarks/cache.py:235 | a concrete instance: one settlement within the tolerance ends above the budget |
| SpendControl.UncertainStopsTheRun | benchmarks/cache.py:225-226 | after one uncertain call with a positive reservation no reservation is granted again, whatever the others do |
| SpendControl.StoppedStaysStopped | benchmarks/cache.py:246-253 | a stopped guard stays stopped over every run |
| SpendControl.EndingsAreFinal | benchmarks/cache.py:233-253 | a reservation ends once: settled, released and held never change, and its amount never does |
| BoundedRequests.CostGuard.constructor | benchmarks/cache.py:203-216 | a new guard has spent and reserved nothing |
| BoundedRequests.CostGuard.ReserveCall | benchmarks/cache.py:218-231 | bad limits and unknown prices are refused unchanged; otherwise the amount is the two token counts at the two prices per million, granted or refused by the protocol's reserve step |
| BoundedRequests.CostGuard.SettleCall | benchmarks/cache.py:233-238 | accepted if and only if the cost is not negative and at most 1e-12 above the reservation; then spend, call count and reserved sum move by it and nothing else does |
| BoundedRequests.CostGuard.ReleaseCall | benchmarks/cache.py:240-244 | the protocol's release step |
| BoundedRequests.CostGuard.MarkUncertainCall | benchmarks/cache.py:246-253 | the protocol's uncertain step; a zero reservation does not stop the run |
| BoundedRequests.CostGuard.RecordCall | benchmarks/cache.py:262-270 | a negative cost is refused; otherwise the call is counted, and its cost added to the cached or to the spent total |
| BoundedRequests.CostWithinReservation | benchmarks/requests.py:198-202 | usage within the declared bounds never costs more than the reservation, so the settle guard cannot fire |
| BoundedRequests.SettleReply | benchmarks/requests.py:192-211 | whatever state the guard is in by then: a reply settles if and only if its usage is complete and in bounds, the guard accepts that settlement, and every other reply leaves the reservation held |
| BoundedRequests.SettledWithinAmount | benchmarks/requests.py:198-202 | an attempt that decides to settle does so at a cost within the reservation |
| BoundedRequests.GeminiComplete | benchmarks/requests.py:147-211 | whatever others do to the guard between its calls: not reserved if and only if it raises first or the guard refuses, otherwise the ending its attempts determine, reported to the guard exactly once; released only after an HTTP error that is not retryable or was the last attempt, settled within the reservation, uncertain after a drop or bad usage, stranded if and only if the window setting is malformed; in the token window one entry per attempt, refused attempts at zero, the last at the reported input or the estimate, and the allowance kept unless more was reported than estimated |
| BoundedRequests.GeminiAttempts | benchmarks/requests.py:166-211 | the retry loop of that routine, from a granted reservation |
| BoundedRequests.Dispatch | benchmarks/requests.py:169-197 | one attempt's passage through the token window, with others taking passes meanwhile |
| BoundedRequests.Answer | benchmarks/requests.py:174-211 | the one guard call an answer leads to, on any guard state |
| BoundedRequests.SingleAttempt | benchmarks/requests.py:225-270 | for the other providers, whatever others do to the guard meanwhile, nothing is ever released: settled within the reservation or uncertain, reported once |
| ConcurrentRequests.EveryScheduleKeepsTheBudget | benchmarks/requests.py:147-270 | for any number of callers (both routines, local models, cache hits) and every schedule: the guard calls form a run of allowed protocol steps, no settlement is refused, each granted caller owns exactly one reservation in exactly the phase its ending says and every reservation is owned, each ends as its routine does alone, and spend plus reserved never passes the maximum, at any moment, with no tolerance |
| ConcurrentRequests.ScheduleKeepsLink | benchmarks/conversation_bench.py:864-876 | every schedule of such callers is a run of the protocol that keeps callers and reservations in one-to-one correspondence |
| ConcurrentRequests.TurnIsAStep | benchmarks/requests.py:162-211 | one turn of a caller is at most one allowed protocol step and touches no reservation but its own |
| ConcurrentRequests.UncertainStopsEveryone | benchmarks/cache.py:225-226 | in every schedule the guard is stopped if and only if some caller ended uncertain on a non-zero reservation, and from then on no caller without a reservation is granted one |
| ConcurrentRequests.CallersFinish | benchmarks/requests.py:168-211 | a caller that gets its turns ends, whatever the others do |
| ConcurrentRequests.AloneIsTheRoutine | benchmarks/requests.py:162-211 | with the guard to itself a caller reserves exactly when the guard grants it and then ends, and leaves the guard, as its completion routine does |
| ConcurrentRequests.FreeCallsAreRecorded | benchmarks/requests.py:64-72 | a local completion and a cache hit are counted and neither spends nor reserves |
| TokenWindow.InputTokenWindow.constructor | benchmarks/requests.py:91-100 | a new window lists nothing |
| TokenWindow.InputTokenWindow.WindowIsRespected | benchmarks/requests.py:102-113 | at every later moment all that was granted within the last window, listed or not, sums to at most the allowance or is one single request |
| TokenWindow.InputTokenWindow.TryAcquire | benchmarks/requests.py:104-112 | one pass grants if and only if the window is empty or the request fits, otherwise tells the wait until the head expires; it keeps the bound |
| TokenWindow.InputTokenWindow.Settle | benchmarks/requests.py:115-118 | settling an expired entry never changes the live sum; a live one changes it by the difference; the bound survives every downward correction, and the exact condition otherwise |
| TokenWindow.InputTokenWindow.Acquire | benchmarks/requests.py:102-113 | a caller is served after at most as many sleeps as entries were listed at the start or granted to others since, because each sleep expires the entry then oldest; alone, at most as many as were listed |
| TokenWindow.InputTokenWindow.SleepAndRetry | benchmarks/requests.py:103-113 | one sleep and the next pass drop at least one more granted entry, whatever passes others take meanwhile |
| TokenWindow.SettlingUpBreaksTheBound | benchmarks/requests.py:115-118 | a concrete instance: two live entries that fill the allowance, one settled a token higher, break the bound |
| TokenWindow.InputTokenWindow.Forget | benchmarks/requests.py:106 | the list comprehension keeps the bound and exactly the entries inside the window |
| TokenWindow.InputTokenWindow.Grant | benchmarks/requests.py:109-110 | a grant appends one fresh entry |
| TokenWindow.KeepIsSuffix | benchmarks/requests.py:106 | in a chronological list the comprehension drops exactly a prefix |
| SampleCases.SampleCases | benchmarks/conversation_bench.py:284-308 | the input itself if the limit is zero or at least the total; nothing if it is negative; otherwise exactly `limit` distinct input questions, conversations in input order with their own questions, and any two strata's counts differ by at most one unless the smaller is exhausted |
| SampleCases.ScheduleVisitsEachPairOnce | benchmarks/conversation_bench.py:297-299 | the rotated schedule visits every (type, conversation) pair exactly once per pass |
| SampleCases.RotationSpreads | benchmarks/conversation_bench.py:297-299 | within a phase neighbouring conversations get different types until all types had their turn, and from phase to phase a conversation's type changes |
| SampleCases.Deal | benchmarks/conversation_bench.py:300-306 | the data-dependent loop terminates with exactly `limit` questions dealt and every stratum at its round-robin quota |
| SampleCases.OnePass | benchmarks/conversation_bench.py:303-306 | a pass deals at least one question and stops at the limit |
| SampleCases.PopOne | benchmarks/conversation_bench.py:305 | a popped question is new, belongs to its stratum, and moves from the strata to the selection |
| SampleCases.RoundRobinIsFair | benchmarks/conversation_bench.py:302-306 | round-robin quotas imply the fairness statement |
| SampleCases.DealtCount | benchmarks/conversation_bench.py:302-306 | dealt and undealt questions of a stratum add up to the stratum |
| SampleCases.BuildStrata | benchmarks/conversation_bench.py:286-289 | each stratum lists the questions of its type and conversation |
| SampleCases.CountQuestions | benchmarks/conversation_bench.py:290 | the total is the number of input questions |
| SampleCases.ShuffleAll | benchmarks/conversation_bench.py:292-294 | shuffling keeps every stratum's questions, whatever the permutation |
| SampleCases.Emit | benchmarks/conversation_bench.py:307-308 | the emitted conversations hold exactly the dealt questions |
| ContextPacking.MakeFullContext | benchmarks/conversation_bench.py:692-716 | the context is the first sessions, each with an in-order prefix of its messages; everything without a budget; within the budget if and only if it is not negative; a session is cut, or left out, only when the next line would go over |
| ContextPacking.ShowMessages | benchmarks/conversation_bench.py:703-712 | one session's loop shows a prefix, charges exactly its lines, and stops only when the next line would go over |
| ContextPacking.ChargeCoversContext | benchmarks/conversation_bench.py:715-716 | four times the charge covers the characters of the joined context, separators included |
| ContextPacking.TokensAre | unimem/conversation/search.py:123-125 | four characters a token, rounded up; none for the empty text |
| ContextPacking.JoinConcat | benchmarks/conversation_bench.py:712-715 | joining puts the separator between parts and nothing else anywhere |
| ContextPacking.LineSays | benchmarks/conversation_bench.py:704-706 | a line is the speaker, else the role, else "speaker", then the text if any |
| ContextPacking.HeaderSays | benchmarks/conversation_bench.py:697 | a header names the session, with its date if it has one |
| ContextPacking.Pack | benchmarks/vendor_adapters.py:32-48 | refuses exactly the rankings with an unknown turn; otherwise keeps ranking order, keeps a turn exactly when it fits after those kept before it, stays within every non-negative budget, and no omitted turn could be appended to the final context |
| ContextPacking.LongerStaysTooLong | benchmarks/vendor_adapters.py:43-45 | what did not fit once never fits a longer context |
| ContextPacking.GreedyNext | benchmarks/vendor_adapters.py:39-45 | one more ranked turn keeps the greedy rule |
| ContextPacking.DedupElements | benchmarks/vendor_adapters.py:34 | removing repeats loses no id |
| ContextPacking.DedupKeepsFirsts | benchmarks/vendor_adapters.py:34 | each id once, in order of first occurrence |
| ContextPacking.ChunkSays | benchmarks/vendor_adapters.py:41-42 | a chunk cites reference, date or "undated", and speaker before the text |
| CompareRuns.EstimateMetric | benchmarks/compare.py:200-234 | means over all scored questions; an interval if and only if two conversations are scored, equal to the percentile interval of the resampled cluster means; for every draw it is ordered, lies between the extreme cluster means, and keeps a sign all scored questions share |
| CompareRuns.TotalsConserve | benchmarks/compare.py:208-223 | grouping by conversation loses no question and no difference: the cluster totals give back the overall mean difference |
| CompareRuns.Bootstrap | benchmarks/compare.py:225-229 | each resampled mean is the pooled mean of the drawn clusters, within the extreme cluster means and negative when all are |
| CompareRuns.PooledWithin | benchmarks/compare.py:229 | the mediant inequality for pooled clusters |
| CompareRuns.Interval | benchmarks/compare.py:230-232 | the two bounds interpolate the sorted means at the ranks of (1 - confidence) / 2 and of its complement; they are ordered, within the data, and the upper is negative when all means are |
| CompareRuns.PercentileFacts | benchmarks/compare.py:194-197 | the interpolated percentile is monotone in the quantile and stays within the data |
| CompareRuns.PercentileInterpolates | benchmarks/compare.py:194-197 | between two neighbouring data points the percentile is their linear interpolation at the rank (n - 1) * q |
| CompareRuns.PercentileEnds | benchmarks/compare.py:194-197 | the quantiles 0 and 1 are the least and the greatest |
| CompareRuns.MeansAre | benchmarks/compare.py:208-219 | scored and excluded questions make up all of them, each mean is its run's sum over the scored ones, and the difference is candidate less baseline |
| CompareRuns.PooledMeanIs | benchmarks/compare.py:229 | a pooled mean weighs every question alike |
| CompareRuns.AtRankMonotone | benchmarks/compare.py:194-197 | interpolation is monotone in the rank, across segments |
| CompareRuns.SortAscFacts | benchmarks/compare.py:230 | sorting gives an ascending permutation |
| CompareRuns.BuildGroups | benchmarks/compare.py:204-207 | each cluster lists the differences of its scored questions, and only clusters with one are listed |
| CompareRuns.CheckRegressions | benchmarks/compare.py:332-356 | the gate reports exactly the quality metrics with a negative interval, exactly those with too few conversations, and "nothing scored" if and only if none is |
| CompareRuns.GateComparison | benchmarks/compare.py:332-356 | end to end over all metrics of all blocks, for every draw: where the candidate is at least as good on every scored question no negative interval is reported, where it is strictly worse on all of them across two conversations one always is; too few conversations and nothing scored are reported exactly when that is so |
| CodingLesson.VisitsArePlanned | benchmarks/coding_lesson_bench.py:29-34 | the planned slots of a task are exactly the round-robin loop's visits to it |
| CodingLesson.PlanSumsToOccasions | benchmarks/coding_lesson_bench.py:29-34 | the planned slots sum to the occasions |
| CodingLesson.Tracker.constructor | benchmarks/coding_lesson_bench.py:308-355 | a record for exactly the harmful tasks with a planned occasion |
| CodingLesson.Tracker.Assign | benchmarks/coding_lesson_bench.py:357-379 | randomized if and only if neither halted nor retired nor an unmeasured harmful task; a lesson is delivered if and only if randomized into that arm; only that task's counters move |
| CodingLesson.Tracker.Observe | benchmarks/coding_lesson_bench.py:381-408 | a failed randomized occasion halts the task unresolved; a resolved one is counted and may retire the lesson for good |
| CodingLesson.Tracker.Occasion | benchmarks/coding_lesson_bench.py:524-615 | one pass keeps the trial's invariant, and a task is randomized only with nothing unresolved |
| CodingLesson.RunTrial | benchmarks/coding_lesson_bench.py:503-615 | in every trial each task has at most one unresolved randomized occasion, lessons are delivered only when randomized, every harmful record has assigned = resolved + (1 if halted), and a task is randomized at most its planned number of times; a trial is refused exactly for no tasks, fewer than two occasions or an over-long harmful plan |
| CodingLesson.TallyRows | benchmarks/coding_lesson_bench.py:85-106 | the counting loop gives every task its randomized, unresolved and per-arm totals |
| CodingLesson.ArmsPartition | benchmarks/coding_lesson_bench.py:95-106 | randomized = unresolved + injected + withheld, and successes never exceed an arm |
| CodingLesson.EffectIsBounded | benchmarks/coding_lesson_bench.py:179-182 | a task effect computed from tallied rows lies in [-1, 1] |
| CodingLesson.EffectIsUplift | benchmarks/coding_lesson_bench.py:179-182 | the effect is the injected success rate less the withheld one: positive if and only if the injected arm does better, 1 and -1 at the extremes |
| CodingLesson.ArmAppended | benchmarks/coding_lesson_bench.py:95-106 | a resolved randomized occasion counts in the arm it was assigned to |
| CodingLesson.WeightsAcceptedIff | benchmarks/coding_lesson_bench.py:47-64 | weights are accepted exactly when none is negative, none is zero if explicit, and not all are zero |
| CodingLesson.WeightsAreNormalized | benchmarks/coding_lesson_bench.py:37-65 | accepted weights sum to one, keep their proportions, are not negative, and are positive when explicit |
| CodingLesson.StratifiedUplift | benchmarks/coding_lesson_bench.py:107-258 | evaluated if and only if every positive-weight task has an interval; the sums are the weighted ones; if each interval encloses its effect the weighted interval encloses the weighted point; a met gate implies an unrounded lower bound above zero |
| CodingLesson.IntervalEnclosesPoint | benchmarks/coding_lesson_bench.py:233-253 | enclosure survives the weighted sum |
| CodingLesson.WeightedAppend | benchmarks/coding_lesson_bench.py:233-253 | each task adds its weight times its value |
| CodingLesson.WeightedConstant | benchmarks/coding_lesson_bench.py:233-253 | under weights that sum to one, tasks that agree give their common value |
| CodingLesson.GateMeansPositiveLowerBound | benchmarks/coding_lesson_bench.py:686-690 | a met gate implies the unrounded lower bound is positive despite the 1e-10 slack |
| CodingLesson.GateIff | benchmarks/coding_lesson_bench.py:686-690 | an evaluated gate is met if and only if the point reaches 0.05 and the unrounded lower bound reaches a ten-thousandth, up to the slack |
| CodingLesson.DisplayedInTenThousandths | benchmarks/coding_lesson_bench.py:254-256 | displayed bounds are whole ten-thousandths, the greatest not above and the least not below, up to the slack |
| CodingLesson.DisplayedIntervalIsWider | benchmarks/coding_lesson_bench.py:254-256 | displayed bounds round outward up to the slack and by less than one unit of the last digit |
| CodingLesson.ScheduledWeights | benchmarks/coding_lesson_bench.py:37-65 | scheduled weights are always accepted and are the planned slots over the occasions |
| CodingLesson.RandomizedTasksCount | benchmarks/coding_lesson_bench.py:37-65 | under either weighting a task with a planned slot has positive weight |
| CodingLesson.TargetWeightsAre | benchmarks/coding_lesson_bench.py:37-65 | given weights are used in proportion if there is one positive weight per task and refused otherwise; without them the schedule's are used |
| CodingLesson.RunBenchmark | benchmarks/coding_lesson_bench.py:503-690 | weights, trial, tally, aggregate and gate composed: evaluated if and only if every weighted task was analysed, has nothing unresolved and ten resolved occasions in each arm; its effect is then the uplift of its arms; a trial with any halted task is never evaluated, not even to a point; the gate is met if and only if evaluated, the point reaches 0.05 and the unrounded lower bound a ten-thousandth up to the slack |
| Cef.ParseInvertsToCef | hub/audit_export.py:45-58 | for every entry and version a parser recovers every header field and every extension key and value from the printed line |
| Cef.ParsedLineSays | hub/audit_export.py:45-58 | reading a line back: format CEF:0, product, version, action twice, severity 8 or 3, and under each key the entry's own time, id, actor, organisation, target and summary |
| Cef.SeverityIs | hub/audit_export.py:41-42 | severity is 8 if and only if the action contains one of the six destructive words |
| Cef.EscapesAre | hub/audit_export.py:31-38 | which characters are escaped, and as what |
| Cef.HeaderIsPerCharacter | hub/audit_export.py:31-32 | the two chained replaces equal one escape per character |
| Cef.ExtIsPerCharacter | hub/audit_export.py:35-38 | the four chained replaces equal one escape per character |
| Cef.ReadFieldsInverts | hub/audit_export.py:55-58 | splitting at unescaped pipes recovers any list of header fields |
| Cef.ValueToEquals | hub/audit_export.py:35-38 | an escaped value holds no unescaped equals sign |
| Cef.ReadExtensionInverts | hub/audit_export.py:47-54 | any non-empty list of pairs with plain keys is recovered from its text, spaces inside values included |
| Cef.ExtensionHasNoBreak | hub/audit_export.py:47-54 | the extension holds no CR or LF |
| Cef.SingleLineIff | hub/audit_export.py:45-58 | the record holds a line break if and only if the version or the action does |
| Cef.NullIsEmpty | hub/audit_export.py:36 | a null value prints like an empty one |

## Left out

- Floating-point rounding: all arithmetic is on exact reals, and `log2` is any positive, strictly decreasing discount.
- Statistical coverage of the intervals and the properties of the random generators: draws and shuffles are arbitrary.
- Threads, locks, event loops and the connection pool. `now` is read before the lock is taken, so a clock reading can be out of order; the theorems on admissions between back ends and on removals need no clock order, the others state theirs.
- The Postgres limiter's table of many keys: one row is modelled, since rows are independent. A sweep may come at any moment; the interval between sweeps is not modelled.
- Size, spam and URL checks and key resolution of `hub/abuse.py`.
- `get_price` and `check_estimate`: the rates a call looks up are a parameter, absent when the price is unknown, and the same at reservation and settlement.
- GeminiComplete: the delays between attempts are arbitrary, so the back-off formula and the retry hint are not modelled; URL and payload building and the parsing of provider replies are inputs.
- The provider and output-limit validation of `bounded_complete`; a local completion is modelled only as the free call it records.
- TokenWindow.InputTokenWindow.Acquire: others may take any finite number of passes meanwhile; that a caller is served although others never stop is not promised by the code. Others' settlements during a sleep are not modelled there.
- RankingMetrics: the identifier check is the parameter `validId`, and a judgment mapping is a list with distinct ids.
- MakeFullContext and Pack: messages and stored turns are records of already rendered text fields; the store look-up is a map.
- SharedSources: the sort of the sessions inside a question is not modelled; `OrderDoesNotMatter` shows that their order has no effect.
- `compare_runs` input validation, rendering, the `significant` flag and the reading of a stored comparison back into metrics.
- The journal, holdout log and anytime-valid interval formula: oracles in `Oracle` and `Stratum`. The per-task report fields of `_stratified_uplift` beyond the tallies, and the runner, the repository copy and the patch.
- NormalizeWeights: type checks on the weights are dropped, since every real is finite.
- `safe_summary` (the summary is taken as already redacted), `to_jsonl` and `verify_incident_pack`.
- Hub administration, alerts, disclosure and secrets, dataset parsers, cache storage, and benchmarks that time other modules: they would only add easy members.
