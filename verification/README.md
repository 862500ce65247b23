# Verification of the attribution service's core algorithms

A Dafny 4.11 model of the in-memory algorithms that carry the service's logic, with proofs about every run of them:
the time-versioned attribution graph and its path search, the circuit breaker shared by many pods, the combination of
evidence, both rate limiters, the attribution index, the event bus, the federated benchmark and the spend forecast.
`dafny verify dfyconfig.toml` checks all of it.

What the source changes in place is a class here, with the same fields; ghost fields hold the history a property speaks
of. Floats are exact reals. The wall clock, noise samples and the square root are parameters.

| files | content |
|---|---|
| `GraphModel`, `Traversal`, `GraphStore`, `OrgChange` | edge list with validity intervals; what the path search enumerates; the indexed store refined against both; organisational changes replayed onto it |
| `BreakerModel`, `CircuitBreaker`, `BreakerCluster` | the breaker as a function of its call history; the field-assigning mutators; pods interleaving watch, read, mutate and commit-or-retry |
| `EvidenceModel`, `Combination`, `EvidenceBounds`, `EvidenceOrder` | what `combine_evidence` computes; its loops; bounds, monotonicity, diminishing returns, order independence |
| `EvidenceLimits`, `EvidenceClusters`, `EvidenceUndiminished`, `EvidenceUnclustered`, `EvidenceCorrelations`, `EvidenceExamples` | exactly which signals and which correlations keep these laws, with and without diminishing returns; signals that break them, in general and with the default correlations |
| `SlidingWindow`, `TokenBucket` | the two rate limiters against full admission histories |
| `IndexStore`, `DurableIndex` | the LRU index against the history of touches; racing upserts of its durable copy |
| `EventBus`, `Federated`, `Forecast` | deduplicated log; privacy accounting and sensitivity; least squares |
| `Wrappers`, `Sequences`, `Reals`, `Keys` | shared vocabulary |

## Findings

- `upsert_node` is not versioned, so it can change past traversals: it does exactly when it turns a node with a then-live
  incoming edge from stopping paths to passing them or back (`UpsertInvisibleIff`).
- An org-change event that does not name the person's current team leaves two memberships open, or is dropped
  (`EventTakesEffectIff` gives the exact condition).
- The graph is meant to be rebuilt deterministically from the event log. Among org-change events, one that adds a
  membership still open makes the rebuilt edges depend on the wall clock, and no other does (`RebuildDeterministicIff`).
  Other handlers re-add open edges through the same `add_edge` (src/aci/core/processor.py lines 169-195).
- `record_success` while OPEN closes the breaker before the reset timeout has elapsed (`NextStateExact`).
- A discount of 0.0 counts as absent when the pair is looked up in the orientation in which it is stored
  (`correlations.get(pair) or ...`), but not in the other, so that the order of two signals of different strength matters
  (`ZeroIgnoredOneWay`). A discount is the same in both orientations exactly when no zero is stored alone and two stored
  discounts are equal unless one is zero (`DiscountSymmetricIff`).
- While returns diminish, three laws of the combination hold for all lists of distinct methods exactly when no pair of
  methods is discounted: more or stronger evidence never lowers the result (`StrongerNeverLowerIff`), the order of the
  signals never matters (`OrderIrrelevantIff`), each additional signal adds less (`DiminishingReturnsIff`). At a factor
  of one the first holds exactly when the methods are clustered: of any three, the largest of their pairwise shares is
  attained twice; the second needs shares that act alike in both orientations besides. The default correlations break
  all three, and the first two at a factor of one as well (`EvidenceExamples`).
- Some correlations push the result below the strongest signal, unless that is zero, exactly when the last of the
  strongest shares its method with another signal or three or more share the top and returns diminish
  (`AtLeastStrongestIff`).
- An event can be taken for a repeat of a different one exactly when its tenant, its source or its idempotency key
  contains a `:` (`DedupKeyConfusedIff`).
- Values released for a metric are clipped to its bound, whatever has been submitted, exactly when each member's key is
  harmless; for a metric with a bound below that of unlisted ones, exactly when neither organisation nor period contains
  a `:` (`ReleasesClippedIff`, `HarmlessIff`). Otherwise a submission for another metric can enter the release unclipped
  and move the mean by more than the sensitivity (`MisfiledValueReleased`).
- While a workload stays resident, its durable copy converges if and only if it was not, at the start, ahead of the
  version the resident entry ends with (`ConvergesIff`). Eviction forgets the version: a workload that returns can be
  behind its durable copy (`BehindAfterEviction`), or end with a stale copy of its own version (`StaleAfterEviction`).
  Across evictions the exact condition is that no newer copy was there or arrives, and no other copy of the resident
  version arrives after it (`ConvergesAcrossEvictionsIff`).
- A late org-change event, with a time before the end of a membership that an earlier one ended, leaves the person in two
  teams for a while (`LateEventShowsTwo`); the graph answers every instant as a replay would exactly when none is late
  (`PointInTimeIff`).
- The documentation says old index entries are superseded, not overwritten (docs/architecture.md line 68); the code
  overwrites them, and so does the model.

## Model

| member | source | states |
|---|---|---|
| Traversal.TraversalExact | src/aci/graph/store.py:92-148 | The search without a path limit finds a sequence of edge positions exactly when it is an attribution path: nonempty, live edges, chained from the start, distinct sources, no cost centre or budget before the end, ending at one within the depth or at a dead end below it |
| Traversal.TraversalOrdered | src/aci/graph/store.py:127-146 | Each path is found once, and the paths come in lexicographic edge order |
| Traversal.TraversalWithLimit | src/aci/graph/store.py:113-131 | A limited search answers with attribution paths only, and omits one only when the limit is used up by paths that come before it |
| Traversal.EnumerateContinues | src/aci/graph/store.py:103-148 | What the search adds below any partial path: exactly its continuations that avoid the visited sources within the remaining depth |
| Traversal.ContinuesIsPath | src/aci/graph/store.py:103-148 | Reading a path edge by edge, with a growing visited set and a shrinking budget, agrees with its definition over positions |
| Traversal.PastTraversalUnchanged | src/aci/models/graph.py:99-110 | No sequence of later writes changes a traversal as of an earlier instant |
| Traversal.UpsertInvisibleIff | src/aci/graph/store.py:179-185 | An upsert leaves all traversals as of an instant alone if and only if the node keeps stopping or passing paths, or no edge live then leads to it |
| GraphStore.InMemoryGraphStore.TraverseAttribution | src/aci/graph/store.py:92-101 | The backtracking search returns exactly the first `max_paths` paths of the unlimited enumeration, as edges |
| GraphStore.InMemoryGraphStore.Dfs | src/aci/graph/store.py:103-148 | One call appends what the enumeration holds below its node, cut to the limit, and restores the current path and the visited set; it terminates on the remaining depth |
| GraphStore.InMemoryGraphStore.FollowEdges | src/aci/graph/store.py:129-146 | The loop over live edges, with its early break, appends the cut enumeration of these edges |
| GraphStore.StepAbsorbed | src/aci/graph/store.py:129-146 | Stopping early at the limit loses nothing that cutting the whole enumeration would keep |
| GraphStore.InMemoryGraphStore.GetEdgesFrom | src/aci/graph/store.py:233-244 | The indexed query is the filter of the whole edge list by source and half-open validity, in insertion order |
| GraphStore.InMemoryGraphStore.GetEdgesTo | src/aci/graph/store.py:246-257 | The same for targets |
| GraphStore.IndexIsScan | src/aci/graph/store.py:239-244 | Filtering an adjacency list by liveness is scanning the whole edge list |
| GraphStore.InMemoryGraphStore.AddEdge | src/aci/graph/store.py:187-201 | Closes the open edge under the same key at the clock reading, then appends; the indexes stay correct and the key points at the new edge |
| GraphStore.InMemoryGraphStore.CloseEdge | src/aci/graph/store.py:203-224 | Answers whether the key had an open edge, closes that one and no other, forgets the key |
| GraphStore.CloseThroughIndex | src/aci/graph/store.py:191-195 | Closing through the open-edge index is closing by scan, though keys may point at edges that were added closed |
| GraphStore.StoreOpenEdgesUnique | src/aci/graph/store.py:187-201 | In every valid store at most one edge per (from, to, type) is open |
| GraphStore.InMemoryGraphStore.UpsertNode | src/aci/graph/store.py:179-185 | Replaces the node, stamping it when it existed, and moves it between type sets so that these stay exact |
| GraphStore.InMemoryGraphStore.GetNodesByType | src/aci/graph/store.py:229-231 | Exactly the stored nodes of that type |
| GraphStore.InMemoryGraphStore.Clear | src/aci/graph/store.py:171-177 | An empty store with consistent indexes |
| GraphModel.Scan | src/aci/graph/store.py:233-257 | The positions of exactly the edges with that endpoint live at the instant, ascending |
| GraphModel.ScanAfterClose | src/aci/graph/store.py:203-224 | Closing at c removes exactly the open edge under the key, exactly from instants at or after c |
| GraphModel.ScanAfterAdd | src/aci/graph/store.py:187-201 | Adding shows the new edge while it is valid, and leaves instants before both the clock reading and its start alone |
| GraphModel.AddedKeepsUniqueOpen | src/aci/graph/store.py:187-201 | Adding keeps at most one open edge per key |
| GraphModel.FoundFromBothEnds | src/aci/graph/store.py:233-257 | A live edge is found from exactly one node as outgoing and from exactly one as incoming: those it runs from and to |
| GraphModel.AnswerAfterAdd | src/aci/graph/store.py:187-201 | Queries then answer with the new edge as it was given, after what they answer once its key is closed |
| GraphModel.AnswerAfterClose | src/aci/graph/store.py:203-224 | Before the closing time, queries answer with the same edges, of which at most the missing end of validity has been filled in |
| OrgChange.AttributionProcessor.HandleOrgChange | src/aci/core/processor.py:238-275 | The store after one event, the ignored cases included; every event is counted |
| OrgChange.PointInTime | src/aci/core/processor.py:238-275 | After any consistent run in which each person's events come in order of their times, starting without memberships, the graph shows, at every instant, the one team (or none) that replaying the events up to it leaves the person in |
| OrgChange.MembershipsExact | src/aci/core/processor.py:238-275 | After any consistent run, whatever the event times, the graph shows at t the teams of exactly those moves of the person that happened by t and were followed by one after t or by none |
| OrgChange.PointInTimeIff | src/aci/core/processor.py:238-275 | After any consistent run, the graph shows at every instant the team of the last move by then if and only if no move has a time before the end of a nonempty membership that an earlier one ended |
| OrgChange.LateEventShowsTwo | src/aci/core/processor.py:252-273 | A third move dated before the second leaves the person in the first and the third team until the time of the second |
| OrgChange.MoveFromCurrent | src/aci/core/processor.py:252-273 | A move away from the current team keeps every earlier answer, shows the new team from then on, and does not depend on the wall clock |
| OrgChange.MembershipsBegun | src/aci/core/processor.py:238-275 | After any run, consistent or not, every membership edge runs from the person to the new team of some event, valid from its time, with full confidence and weight |
| OrgChange.MembershipsAreQueried | src/aci/graph/store.py:233-244 | The memberships at an instant are what a caller reads off the person's outgoing edges |
| OrgChange.RebuildIsDeterministic | docs/architecture.md:80-86 | Replaying a consistent run of events, in or out of time order, under any other clock rebuilds the same edges |
| OrgChange.RebuildDeterministicIff | docs/architecture.md:80-86 | Any run of org-change events, consistent or not, rebuilds the same edges under every clock if and only if none adds a membership that is still open |
| OrgChange.OpenTeamsAfterMove | src/aci/core/processor.py:252-273 | Any event, consistent or not, takes the named previous team out of the open teams and puts the new one in |
| OrgChange.EventTakesEffectIff | src/aci/core/processor.py:252-273 | Exactly which events leave a person of one team, or none, in the new team and no other |
| CircuitBreaker.CircuitBreaker.CheckOpen | src/aci/interceptor/circuit_breaker.py:166-192 | The answer and the new state are those of the call history extended by this call, which begins with the creation of a fresh breaker |
| CircuitBreaker.CircuitBreaker.RecordSuccess | src/aci/interceptor/circuit_breaker.py:194-216 | The stored state is that of the extended history |
| CircuitBreaker.CircuitBreaker.RecordFailure | src/aci/interceptor/circuit_breaker.py:218-257 | The stored state is that of the extended history |
| CircuitBreaker.CircuitBreaker.CurrentState | src/aci/interceptor/circuit_breaker.py:153-164 | Answers the state of the extended history |
| CircuitBreaker.CircuitBreaker.ForceOpen | src/aci/interceptor/circuit_breaker.py:259-269 | The stored state is that of the extended history |
| CircuitBreaker.CircuitBreaker.ForceClose | src/aci/interceptor/circuit_breaker.py:271-280 | The stored state is that of the extended history |
| CircuitBreaker.CircuitBreaker.TransitionIfResetTimeoutElapsed | src/aci/interceptor/circuit_breaker.py:295-302 | An open breaker turns half-open with fresh counters once the timeout has elapsed; nothing else changes |
| BreakerModel.NeverOpenedIff | src/aci/interceptor/circuit_breaker.py:38-47 | A breaker has been closed all along if and only if it was never forced open and no failure completed the threshold since the last reset; until then no request fails open |
| BreakerModel.UntouchedIsFresh | src/aci/interceptor/circuit_breaker.py:38-47 | Without a recorded failure or forced opening it is as it was created: closed, all counters and the failure time zero |
| BreakerModel.ClosedCountsFailures | src/aci/interceptor/circuit_breaker.py:194-257 | While closed, the failure count is the failures since the last success or forced close, and below the threshold |
| BreakerModel.FailureCountExact | src/aci/interceptor/circuit_breaker.py:194-280 | In any state, the failure count is the failures since the call that last cleared it, or, on top of the threshold, since the probe that last failed |
| BreakerModel.OpensCounted | src/aci/interceptor/circuit_breaker.py:218-269 | The opening counter is the number of forced openings and of failures that leave the count at the threshold or above |
| BreakerModel.EpisodeCounters | src/aci/interceptor/circuit_breaker.py:166-302 | Both half-open counters count the current episode, within the probe limit, and are zero outside one |
| BreakerModel.TimeoutRunsFromLatestStamp | src/aci/interceptor/circuit_breaker.py:218-302 | The reset timeout runs from the latest recorded failure or forced opening |
| BreakerModel.NextStateExact | src/aci/interceptor/circuit_breaker.py:166-302 | Every transition if and only if, in terms of the history: a half-open episode closes only after the configured number of successes without failure, or by force; a success while open closes at once |
| BreakerModel.FailOpenExact | src/aci/interceptor/circuit_breaker.py:166-192 | A request fails open exactly when the timeout is running or the episode's probes are used up |
| BreakerModel.FailOpensCounted | src/aci/interceptor/circuit_breaker.py:175-187 | The fail-open counter is the number of requests told to fail open |
| BreakerModel.ProbesBounded | src/aci/interceptor/circuit_breaker.py:180-187 | No half-open episode lets more than the configured number of probes through |
| BreakerCluster.StepConsistent | src/aci/interceptor/circuit_breaker.py:105-120 | Every step of every pod keeps: the log is a sequential run ending in the shared key, and whoever watches the current version has read the current state |
| BreakerCluster.ClusterIsSequential | src/aci/interceptor/circuit_breaker.py:105-120 | In any interleaving with retries the committed calls form one sequential history, the key is its state, and each pod's commits are the requests it began, once and in order but for the one in progress, with the answers it received: no lost update |
| BreakerCluster.UndisturbedCommits | src/aci/interceptor/circuit_breaker.py:103-120 | From any reached cluster, an idle pod that nobody disturbs commits its request at the first attempt: the log grows by that call with its sequential answer, the key holds the state after it, the pod is idle again |
| BreakerCluster.CommitsIffUndisturbed | src/aci/interceptor/circuit_breaker.py:103-120 | A transaction commits if and only if nothing was committed since its pod last watched the key; otherwise other pods made progress, and it starts over with the same request |
| BreakerCluster.ClusterProbesBounded | src/aci/interceptor/circuit_breaker.py:166-192 | All pods together let at most the configured number of probes through per half-open episode |
| Combination.CombineEvidence | src/aci/hre/combination.py:53-183 | Result, decomposition, penalties and flags of every input, the empty and the single signal included; learned correlations override configured ones |
| Combination.DecompositionExplains | src/aci/hre/combination.py:155-171 | The reported decomposition names exactly the signals, strongest first, and its weighted confidences explain the result |
| Combination.PenaltiesExact | src/aci/hre/combination.py:113-136 | The penalties are those of exactly the pairs with a discount, each once, in the order of the signals |
| Combination.DependencyWeights | src/aci/hre/combination.py:105-136 | The pairwise loops leave each method the weight of `WeightIsLeast`, and record a penalty per correlated pair in order |
| Combination.DiminishingMultipliers | src/aci/hre/combination.py:144-153 | The loop builds the multiplier sequence that `MultiplierAt` describes |
| Combination.NoisyOr | src/aci/hre/combination.py:155-171 | The accumulated product is the doubt left by all contributions |
| EvidenceModel.WeightIsLeast | src/aci/hre/combination.py:110-127 | A weight is the least of one and the discounts of the correlated pairs in which the method is the weaker, or the earlier of equals |
| EvidenceModel.ClampNearest | src/aci/hre/combination.py:76 | No probability lies nearer to a given confidence than the bounded one |
| EvidenceModel.SortPermutes | src/aci/hre/combination.py:144 | Sorting loses and invents nothing |
| EvidenceModel.SortDescending | src/aci/hre/combination.py:144 | Strongest first |
| EvidenceModel.SortStable | src/aci/hre/combination.py:144 | Signals of equal confidence keep their order |
| EvidenceBounds.MultiplierAt | src/aci/hre/combination.py:145-153 | Full weight for the first two places, then one more diminishing factor per place |
| EvidenceBounds.NoFalseCertainty | src/aci/hre/combination.py:138-175 | With a factor of at most one half, signals of at most c combine to at most 1 - (1 - c)^3, however many and however correlated |
| EvidenceBounds.AtMostNoisyOr | src/aci/hre/combination.py:186-195 | The capped result never exceeds the independent noisy-or of the same confidences |
| EvidenceOrder.UndiscountedIsNoisyOr | src/aci/hre/combination.py:186-195 | For signals of which no pair is discounted, and two at most or nothing diminishing, the combination is the simplified noisy-or |
| EvidenceBounds.AtLeastStrongest | src/aci/hre/combination.py:121-162 | The result is at least the strongest signal, capped or not, when the last of the strongest has a method of its own and shares the top with at most one other, or nothing diminishes |
| EvidenceLimits.AtLeastStrongestIff | src/aci/hre/combination.py:121-162 | The result is at least the strongest signal under all correlations with discounts in (0, 1] if and only if such a signal exists or all confidences are zero |
| EvidenceOrder.StrongerNeverLower | src/aci/hre/combination.py:144-175 | Among signals of which no pair is discounted, raising and adding signals never lowers the result |
| EvidenceCorrelations.StrongerNeverLowerIff | src/aci/hre/combination.py:113-175 | For every factor from zero to one, raising and adding signals never lowers the result of any list of distinct methods if and only if no pair of methods is discounted or, at a factor of one, the methods are clustered |
| EvidenceClusters.DescendingIsBest | src/aci/hre/combination.py:113-162 | While the methods are clustered and nothing diminishes, no order of taking the signals leaves less doubt than from strongest to weakest |
| EvidenceUndiminished.UndiminishedDoubt | src/aci/hre/combination.py:113-173 | At a factor of one, the combination is that of taking the signals strongest first, each weighed by its least share against those before it |
| EvidenceUndiminished.ClusteredNeverLower | src/aci/hre/combination.py:113-175 | At a factor of one, clustered methods never lose by raising or adding signals |
| EvidenceUndiminished.ClusteredOrder | src/aci/hre/combination.py:113-175 | Nor does the order of their signals matter, when shares act alike in both orientations |
| EvidenceUnclustered.RaiseAmongUnclustered | src/aci/hre/combination.py:113-175 | Any three methods that are not clustered have signals of which one, raised, lowers the result |
| EvidenceUnclustered.ExchangeAmongUnclustered | src/aci/hre/combination.py:113-175 | And equally strong signals whose exchange changes it |
| EvidenceOrder.RaiseStrengthens | src/aci/hre/combination.py:144-175 | Raising any one signal is such a change, also when it overtakes others |
| EvidenceOrder.AddStrengthens | src/aci/hre/combination.py:144-175 | So is adding a signal at any place |
| EvidenceOrder.DiminishingReturns | src/aci/config.py:113-114 | Among signals of which no pair is discounted, the second adds no more than the first, and each later one at most the diminishing factor of what the one before it added |
| EvidenceCorrelations.DiminishingReturnsIff | src/aci/hre/combination.py:113-175 | This holds for all lists of distinct methods if and only if no pair of methods is discounted |
| EvidenceOrder.OrderIrrelevant | src/aci/hre/combination.py:101-175 | Every permutation of the input gives the same result when the stored discounts act alike in both orientations, and equally strong signals neither discount each other nor weigh differently |
| EvidenceOrder.DistinctTiesAlike | src/aci/hre/combination.py:113-144 | That condition on ties holds when all confidences differ |
| EvidenceOrder.UndiscountedTiesAlike | src/aci/hre/combination.py:113-144 | And when no two methods are correlated, whatever the ties |
| EvidenceOrder.DiscountSymmetricIff | src/aci/hre/combination.py:118-122 | Looking a pair up gives the same discount in both orientations if and only if no zero is stored alone and two stored discounts are equal unless one is zero |
| EvidenceOrder.SameBothWaysIff | src/aci/hre/combination.py:118-127 | The discounts act alike in both orientations if and only if the stored entries say so |
| EvidenceCorrelations.UntiedOrderIrrelevantIff | src/aci/hre/combination.py:101-175 | Without ties, the order never matters to any list of distinct methods if and only if the stored discounts act alike in both orientations |
| EvidenceCorrelations.OrderIrrelevantIff | src/aci/hre/combination.py:101-175 | With ties, for every factor from zero to one, it never matters to any list of distinct methods if and only if no pair of methods is discounted or, at a factor of one, the methods are clustered and the stored discounts act alike in both orientations |
| EvidenceExamples.TieMakesOrderMatter | src/aci/hre/combination.py:124-127 | Two equally strong correlated signals combine to 0.93625 or 0.930625, depending on which is listed first |
| EvidenceExamples.RaisingCanLower | src/aci/hre/combination.py:124-162 | Raising a correlated signal from 0.49 to 0.51 lowers the result from above 0.95 to below 0.93 |
| EvidenceExamples.ThreeTiedFallBelow | src/aci/hre/combination.py:124-162 | Three signals of 0.9 combine to less than 0.78 |
| EvidenceExamples.DiscountsBreakDiminishing | src/aci/hre/combination.py:121-162 | A discounted second signal can add less than the third |
| EvidenceExamples.RaisingCanLowerUndiminished | src/aci/hre/combination.py:124-162 | At a factor of one the same raise lowers the result from above 0.957 to below 0.937 |
| EvidenceExamples.TieMattersUndiminished | src/aci/hre/combination.py:124-127 | At a factor of one the same two orders combine to 0.9575 and 0.93625 |
| EvidenceExamples.ZeroIgnoredOneWay | src/aci/hre/combination.py:121 | With a zero stored for (A, B), the signals A at 0.25 and B at 0.5 combine to 0.625 in this order and to 0.5 in the other |
| SlidingWindow.SlidingWindowRateLimiter.Allow | src/aci/api/runtime.py:78-106 | Every decision equals that of a limiter counting the full admission history, across popping and clean-up; clean-up happens on schedule and leaves no stale caller |
| SlidingWindow.EveryWindowBounded | src/aci/api/runtime.py:78-106 | No half-open interval of window length, open on either side, holds more than `limit` admissions |
| SlidingWindow.EveryCallerBounded | src/aci/api/runtime.py:67-106 | This holds for every caller of every limiter, after any calls |
| SlidingWindow.SlidingWindowRateLimiter.DropStale | src/aci/api/runtime.py:92-101 | Clean-up forgets exactly the other callers that have not been admitted within the window |
| SlidingWindow.StaleIff | src/aci/api/runtime.py:94-99 | A bucket counts as stale if and only if its caller has not been admitted within the window, in the full history |
| TokenBucket.RedisTokenBucketRateLimiter.Allow | src/aci/api/runtime.py:115-182 | With expiring keys, every decision equals that of a bucket that never expires |
| TokenBucket.RedisTokenBucketRateLimiter.Evaluate | src/aci/api/runtime.py:115-146 | The script answers and stores what one request on the found bucket gives |
| TokenBucket.TokensBounded | src/aci/api/runtime.py:133-140 | Tokens stay between zero and the capacity, whatever the clock does |
| TokenBucket.Potential | src/aci/api/runtime.py:133-140 | Admissions plus remaining tokens never exceed the capacity plus what has been refilled |
| TokenBucket.RateBound | src/aci/api/runtime.py:115-163 | Any interval of length T admits at most capacity + T * rate requests per key |
| TokenBucket.AllowedIff | src/aci/api/runtime.py:115-140 | While time does not run backwards, a request is allowed if and only if no interval that ends with it, itself included, then admits more than the capacity and the refill of its length |
| TokenBucket.AllowedIffFits | src/aci/api/runtime.py:133-140 | The same whatever the clock does, with steps backwards counting for nothing |
| TokenBucket.ExpiryInvisible | src/aci/api/runtime.py:143-163 | A bucket left alone for the chosen time to live answers as a missing one |
| TokenBucket.FoundIff | src/aci/api/runtime.py:122-143 | A request finds a bucket if and only if the latest request on its key is less than the time to live back, and then the one that all requests on the key leave |
| TokenBucket.TtlCoversWindow | src/aci/api/runtime.py:163 | The time to live, in whole seconds, covers a full window and falls short of two by less than a second; at least one second |
| IndexStore.AttributionIndexStore.Lookup | src/aci/index/materializer.py:111-130 | Hits exactly the most recently touched workloads, with the last materialised value; counts and re-touches |
| IndexStore.AttributionIndexStore.Materialize | src/aci/index/materializer.py:188-208 | Stores the entry under the next version as the most recent touch; evictions are counted; entries, versions and order stay in agreement |
| IndexStore.AttributionIndexStore.EvictOverflow | src/aci/index/materializer.py:258-261 | The eviction loop drops the oldest entries down to the limit |
| IndexStore.KeptIsMostRecent | src/aci/index/materializer.py:253-261 | Bumping and evicting keeps the last `max_entries` of the recency order |
| IndexStore.RecencyOrdered | src/aci/index/materializer.py:121-124 | The recency order lists workloads by their latest touch |
| IndexStore.MostRecentlyTouched | src/aci/index/materializer.py:253-261 | A touched workload that is not kept was last touched before every kept one, and the index is full of distinct ones |
| DurableIndex.StepTracks | src/aci/index/materializer.py:70-99 | While the workload stays resident, every materialisation and every arriving upsert keeps local, in-flight and durable versions in step |
| DurableIndex.ConvergesIff | src/aci/index/materializer.py:188-210 | While the workload stays resident: when all upserts have arrived, in any order, durable and local copies are equal if and only if the durable one was not ahead of the final version at the start |
| DurableIndex.ConvergesAcrossEvictionsIff | src/aci/index/materializer.py:188-261 | With any evictions in between: they are equal if and only if no newer copy was there or arrived and no other copy of the local version arrived after the local one |
| DurableIndex.SettledIff | src/aci/index/materializer.py:70-99 | Upserts in any order leave a copy in the record exactly when it is of the highest version and the last of that version |
| DurableIndex.StaleAfterEviction | src/aci/index/materializer.py:253-261 | A run with one eviction that ends with equal versions and a stale durable payload |
| DurableIndex.BehindAfterEviction | src/aci/index/materializer.py:253-261 | A run with one eviction that leaves the record a version ahead of the resident entry |
| DurableIndex.ConvergesWhenNotAhead | src/aci/index/materializer.py:292-308 | In particular after a start at which it was not ahead of the resident entry |
| EventBus.InMemoryEventBus.Publish | src/aci/core/event_bus.py:140-166 | Accepts a valid event exactly when its key is not among those of the last 2 * `max_events` accepted; log, key set, queue and counters stay exact, and published plus deduplicated equals the valid calls |
| EventBus.InMemoryEventBus.PublishBatch | src/aci/core/event_bus.py:186-196 | Publishes the events in order up to the first malformed one, counting each as published or deduplicated; what is accepted grows as `PublishedExact` says |
| EventBus.PublishedExact | src/aci/core/event_bus.py:186-196 | A list of events adds, in order, exactly those that are no repeat of one of the last 2 * `max_events` accepted when their turn comes |
| EventBus.RememberedAfterTurn | src/aci/core/event_bus.py:150-162 | Right after its turn every event is remembered, accepted or not |
| EventBus.RedeliveryAddsNothing | src/aci/core/event_bus.py:95-101 | New events that fit into the memory of keys, delivered a second time, add nothing |
| EventBus.InMemoryIdempotencyStore.SeenOrAdd | src/aci/core/event_bus.py:56-67 | Seen exactly when among the last `max_keys` added |
| EventBus.KeyAdded | src/aci/core/event_bus.py:156-162 | Adding a key and evicting the oldest keeps the set equal to the queue's elements |
| EventBus.BusLogHasNoDuplicates | src/aci/core/event_bus.py:103-121 | No two events of the retained log share a deduplication key |
| EventBus.DedupKeyIdentifies | src/aci/core/event_bus.py:148 | Among colon-free tenants and sources, keys are equal exactly for the same tenant, source and idempotency key |
| EventBus.DedupKeyConfusedIff | src/aci/core/event_bus.py:148 | Some different event shares the key if and only if the tenant, the source or the idempotency key contains a colon; some different event with colon-free tenant and source, if and only if the tenant or the source does |
| EventBus.DedupKeyCollides | src/aci/core/event_bus.py:148 | Two events of different tenants that share a key |
| Federated.FederatedBenchmarkProtocol.PublishBenchmark | src/aci/benchmark/federated.py:203-302 | Which outcome each state gives, with a release if and only if the cohort is large enough, has submissions and can afford it; the first exhausted member, the noise scale; a refusal changes nothing, a release charges each member once |
| Federated.SubmissionReleased | src/aci/benchmark/federated.py:186-242 | Filing a value in any store makes it, clipped, the one released for that member, at the place of its earlier one or as an additional one; the values of the other members stay |
| Federated.ClippedToNearest | src/aci/benchmark/federated.py:166-194 | A submission is moved to the nearest value between zero and the bound that the table gives for its metric |
| Federated.MeanMovesExactly | src/aci/benchmark/federated.py:276-283 | Changing one value moves the mean by an equal share of the change, by the whole sensitivity when it crosses the clipping range |
| Federated.MeanOfEqual | src/aci/benchmark/federated.py:283 | The mean of equal values is that value |
| Federated.ReleaseAccounted | src/aci/benchmark/federated.py:239-290 | Each organisation's consumption is the per-release epsilon times its releases since the last reset, and never beyond the total |
| Federated.FederatedBenchmarkProtocol.JoinCohort | src/aci/benchmark/federated.py:177-184 | Joins exactly when the cohort exists and the organisation is not in it; members stay distinct |
| Federated.FederatedBenchmarkProtocol.CreateCohort | src/aci/benchmark/federated.py:173-175 | An empty cohort replaces whatever the id held |
| Federated.FederatedBenchmarkProtocol.SubmitMetric | src/aci/benchmark/federated.py:186-201 | Appends the clipped value under its key and touches no other |
| Federated.FederatedBenchmarkProtocol.ResetQuarterlyBudgets | src/aci/benchmark/federated.py:309-312 | Forgets all consumption and starts the accounting afresh |
| Federated.OneOrganisationMovesMeanLittle | src/aci/benchmark/federated.py:186-277 | In stores filled by submissions, with harmless keys, replacing, withdrawing or first making one organisation's submissions moves the raw mean by at most the sensitivity the noise is scaled to, before and after |
| Federated.ReleasedValuesClipped | src/aci/benchmark/federated.py:186-236 | With harmless keys of the members, every value entering the release lies within the metric's clipping range |
| Federated.ReleasesClippedIff | src/aci/benchmark/federated.py:186-236 | This holds whatever has been submitted if and only if every member's key is harmless |
| Federated.HarmlessIff | src/aci/benchmark/federated.py:166-191 | A key is harmless, no submission of a larger bound sharing it, if and only if organisation and period contain no colon, for metrics bounded below unlisted ones; for others, if and only if no metric of a larger bound stands between colons in it |
| Federated.MisfiledValueReleased | src/aci/benchmark/federated.py:186-277 | Any submission of a larger bound that shares the key enters the release unclipped and can move the mean by more than the sensitivity |
| Federated.ColonMisfiles | src/aci/benchmark/federated.py:188 | Such submissions, by a colon in the organisation and by one in the period |
| Forecast.LeastSquares | src/aci/forecast/engine.py:40-65 | The fitted line has the least squared error of all lines, and is the only one that has |
| Forecast.PredictsOnBestLine | src/aci/forecast/engine.py:60-73 | Whichever line has the least squared error, the predictions are its values, floored at zero, and the residual variance is the mean of that error |
| Forecast.ErrorsPythagoras | src/aci/forecast/engine.py:40-65 | The squared error of any line is that of the fit plus that of their difference |
| Forecast.ResidualsBalance | src/aci/forecast/engine.py:60-63 | The residuals sum to zero, also weighted by the centred months |
| Forecast.DenominatorPositive | src/aci/forecast/engine.py:47-49 | From two months on the zero-denominator branch is unreachable |
| Forecast.ExactLine | src/aci/forecast/engine.py:40-65 | A history on a line is fitted by that line, without residual |
| Forecast.LineExtrapolated | src/aci/forecast/engine.py:64-73 | Such a history is extrapolated exactly, floored at zero, with a band of zero width |
| Forecast.MakeForecast | src/aci/forecast/engine.py:31-91 | Both error cases; otherwise one point per month on the fitted line, floored at zero and inside its band, and the trend |

## Left out

- Traversal.PastTraversalUnchanged: covers in-memory writes with instants after the queried one; an edge added with an earlier `valid_from` does change the past, as backfilling is meant to.
- Combination.CombineEvidence: states results before the rounding to four decimals.
- EvidenceCorrelations.StrongerNeverLowerIff: like the two below, for lists of distinct methods; a method listed twice can discount itself.
- EvidenceCorrelations.OrderIrrelevantIff: for lists of distinct methods.
- EvidenceCorrelations.DiminishingReturnsIff: for lists of distinct methods.
- TokenBucket.RedisTokenBucketRateLimiter.Allow: without the allow-all answer on a Redis error; key expiry and requests read the same clock, and the limit is not negative.
- SlidingWindow.SlidingWindowRateLimiter.Allow: assumes that time does not run backwards; the clean-up interval, 256 in the source, is a parameter.
- IndexStore.AttributionIndexStore.Lookup: without the durable fallback, which reinserts an evicted entry; `max_entries` is at least one, since with zero the version map keeps keys the index has dropped.
- DurableIndex.ConvergesAcrossEvictionsIff: one workload; reloading an evicted entry from its durable copy, key expiry and the write without Lua are not modelled.
- EventBus.InMemoryEventBus.Publish: one atomic step; dispatch to handlers, replay and topic counts are not modelled.
- Federated.FederatedBenchmarkProtocol.PublishBenchmark: the noise sample is a parameter; the median, its noise and the rounding to six decimals are not modelled.
- Forecast.MakeForecast: the residual deviation is given as the square root of the residual variance.
- BreakerCluster.ClusterIsSequential: assumes the store answers; the degraded mode on Redis errors keeps a local state by design. Liveness only as in `UndisturbedCommits` and `CommitsIffUndisturbed`: a pod may retry for as long as others commit, and probes can be used up without an outcome being recorded.
- Neo4j, Kafka and Redis clients, HTTP routes, handlers other than org changes: input and output.
- `evict`, `clear`, `lookup_batch` and the statistics of the index; `get_remaining_budget`; `replay` and `stats` of the bus: read off the fields in one line.
- Edge provenance, explanations and node properties: carried along, never inspected by the modelled code.
- Traversal with `at_time=None`, which reads the clock anew at every step; the instant is always given here.
- Policy rules, equivalence checks, interventions, calibration, string-similarity methods: settled branch by branch, or foreign numerical code.
