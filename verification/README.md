# A verified model of the distributed rate-limiter gateway

This project models, in Dafny, the parts of the gateway that decide whether a request is admitted,
and proves what its design and its tests promise about them, for every input and every run.

It follows the gateway's four linked cores:

1. **The limiter.** GCRA and the sliding-window log (`Gcra.dfy`, `Windows.dfy`), the multi-limit,
   all-or-nothing check as a function of a store value (`Limiter.dfy`), whole runs of it with
   forgetting (`Runs.dfy`), the per-process implementation with its in-place maps and shared slices
   (`Parts.dfy`, `Memory.dfy`, `MemoryRuns.dfy`) and all its interleavings, with the key budget under
   them (`MemoryRaces.dfy`, `MemoryBudget.dfy`), the Redis script with its framing on both sides
   (`Redis.dfy`, `RedisClient.dfy`), the refinement that makes the two back ends one limiter
   (`RedisRefinement.dfy`), where the arithmetic of either stays exact (`Bounds.dfy`), and what the
   configuration and the reported numbers mean (`Meaning.dfy`).
2. **The policy fence.** The two fences of the script (`Fences.dfy`), the cache (`PolicyCache.dfy`)
   and the protocol over any number of nodes (`PolicyFence.dfy`).
3. **Store identity.** The guard and the mint-once script (`StoreGuard.dfy`), the protocol
   (`StoreIdentity.dfy`), what its names are worth (`StoreNames.dfy`, `StoreLag.dfy`), and the place
   where a question is answered (`Decide.dfy`), with the cluster-wide quota that follows
   (`ClusterQuota.dfy`).
4. **Membership and the ring.** The consistent hash (`Ring.dfy`), the replicated state machine, its
   snapshots and a node's view (`Cluster.dfy`).

Conventions. A `Time` is a whole number of nanoseconds since Go's zero time. Code that works by
changing things is a class or a method with loops, and its contract ties the new state to a function
that the lemmas are about; code that computes a value is a function. Protocols are step systems: a
run is any sequence of enabled steps, and the theorems quantify over all of them. Clocks, network
replies, hash functions and other nodes' answers are parameters.

Hypotheses the statements carry, each visible in a `requires` or a step's guard:

- Operations on one store take effect at nondecreasing times. `Memory.Check` reads its clock before
  it takes the tenant's lock, so racing checks can take effect out of order; `RacesAreSerial` holds
  regardless, and only the quota corollary assumes order.
- The limits of one request live under distinct keys, as policy validation demands. The fingerprint
  in a key is taken to be injective.
- The two back ends agree on windows whose period is a whole number of microseconds;
  `WholeMicrosecondsAreNeeded` shows that every other period breaks the agreement.
- Redis drops a key no earlier than the requested time to live, and runs a script as one step.
- Generation 0 is an unfenced caller, so fence statements are about nonzero generations.

Where the code and its comments differ the model follows the code. Four comments promise more than
the code delivers, and each has its failing input and its exact condition:

- `internal/limiter/limit.go` lines 40-43 say the bounds on a limit keep every intermediate value of
  the GCRA arithmetic inside 64 bits. They do if and only if the capacity is at most the largest
  64-bit value divided by the emission (`DurationsFitInt64`), which a burst within the count ensures
  (`BurstWithinCountFits`) and a larger one need not (`LargeBurstWraps`).
- `internal/limiter/limit.go` lines 132-133 say microseconds are exact until the year 287396. In the
  script they are if and only if now leaves room for two tolerances, or one period, below 2^53
  (`BucketNumbersStayExact`, `WindowNumbersStayExact`); one request per day fails on 5 June 2255
  (`InexactIn2255`).
- `internal/limiter/limit.go` lines 214-215 call ResetAfter the time until a limit is fully
  replenished. For a window it is the time until the oldest entry leaves, which is the same if and
  only if all live entries are of one instant (`WindowResetIsTheFirstRelief`, `WindowResetIsNotFull`).
- `internal/storegen/guard.go` lines 226-228 say the number after a wipe always outranks the committed
  one. It does if and only if the minting node was not behind the log (`MintOutranksUnlessBehind`);
  otherwise a wipe can go unnoticed (`LaggingNodeMintsBelow`, `SecondWipeGoesUnnoticed`), and
  `OneLifetimePerGeneration` says when it cannot.

## Model

| member | source | states |
|---|---|---|
| Limits.Validate | internal/limiter/limit.go:66-112 | a limit is accepted exactly when every bound of the source holds |
| Limits.EmissionIsLeast | internal/limiter/limit.go:137-160 | emission is the least positive whole-microsecond step with emission * count >= period |
| Limits.EmissionNearQuotient | internal/limiter/limit.go:139-146 | rounding up adds at most a quantum and a nanosecond per unit |
| Bounds.ToleranceNearPeriod | internal/limiter/limit.go:162-168 | with capacity <= count the tolerance exceeds the period by at most a quantum and a nanosecond per unit of count |
| Bounds.StoredTatsAreNear | internal/limiter/gcra.go:56-70 | an arrival time a check stores is at most one tolerance ahead of any later clock |
| Bounds.EmptiedBucket | internal/limiter/gcra.go:67-70 | a full bucket asked for its whole capacity stores exactly one tolerance ahead |
| Bounds.DurationsFitInt64 | internal/limiter/gcra.go:28-71 | all durations the source forms, for every reachable TAT and admissible cost, fit 64-bit nanoseconds if and only if capacity is at most the largest 64-bit value over the emission |
| Bounds.BurstWithinCountFits | internal/limiter/limit.go:40-48 | which every valid limit with capacity <= count meets |
| Bounds.BucketNumbersStayExact | internal/limiter/redis/check.lua:138-167 | every number the script forms for a bucket, for every reachable TAT and admissible cost, stays below 2^53 if and only if now plus two tolerances does |
| Bounds.WindowNumbersStayExact | internal/limiter/redis/check.lua:168-208 | every number it forms for a window stays below 2^53 if and only if now plus one period does |
| Bounds.InexactIn2255 | internal/limiter/limit.go:125-135 | one microsecond into 5 June 2255 the first request against one per day stores a number float64 cannot hold |
| Limits.MicrosecondsAreExact | internal/limiter/redis/redis.go:146-161 | emission and tolerance are whole microseconds, so truncation loses nothing |
| Bounds.LargeBurstWraps | internal/limiter/limit.go:44-48 | 1 per day with burst 100,000,000 is accepted, its tolerance exceeds 64 bits, and the wrapped product grants 80,136 units |
| Limits.EffectiveCost | internal/limiter/limit.go:243-251 | zero exactly for a peek, otherwise the cost given, or one when that is not positive |
| Gcra.GcraCheck | internal/limiter/gcra.go:28-71 | the stored arrival time never falls behind the old one or now, and a refusal or a peek leaves it there |
| Gcra.GcraIsATokenBucket | internal/limiter/gcra.go:28-71 | over any run at nondecreasing times GCRA answers every request, on every field, as a bucket with level tolerance - max(0, tat - now) |
| Gcra.NoStateIsAFullBucket | internal/limiter/gcra.go:73-80 | an absent counter is a full bucket at any time |
| Gcra.GcraRetryIsExact | internal/limiter/gcra.go:56-65 | refused before now + retryAfter, admitted from then on |
| Slices.Append | internal/limiter/window.go:65-67 | append may write into the shared backing array, but only behind the slice; every earlier element stays |
| Windows.PruneScan | internal/limiter/window.go:31-35 | the scan keeps exactly the log without its aged-out prefix |
| Windows.WindowCheck | internal/limiter/window.go:26-72 | kept log and decision are those of the log's value, the retry index is in range, and the stored log still reads the same |
| Windows.ExpiryOf | internal/limiter/window.go:74-81 | newest entry plus period, or Go's zero time for an empty log |
| Windows.WindowRetryIsExact | internal/limiter/window.go:54-63 | on a sorted log, refused before now + retryAfter and admitted from then on |
| Windows.ExpiredLogIsEmpty | internal/limiter/window.go:74-81 | from its expiry on, a sorted log prunes to nothing |
| Windows.PruneKeepsOrder | internal/limiter/window.go:29-35 | pruning keeps the log sorted and leaves only entries after the cutoff |
| Limiter.Preflight | internal/limiter/memory.go:146-154 | nothing stops a request exactly when every limit is enforceable and could admit the cost |
| Limiter.Screen | internal/limiter/memory.go:146-154 | the loop stops at exactly the first unfit limit with that limit's error, and lets a request without one through |
| Limiter.StoppedByTheFirst | internal/limiter/memory.go:147-154 | the first limit that is invalid or too small stops the request, with its own error if it is invalid and otherwise, by name, for its size |
| Limiter.LimitingName | internal/limiter/memory.go:281-290 | the name the scan for the longest wait ends with |
| Limiter.RetryAfter | internal/limiter/limit.go:300-308 | the longest wait of the refusing limits |
| Limiter.LongestWaitIsTheMaximum | internal/limiter/limit.go:300-308 | the reported wait is at most a bound if and only if every refusal's is |
| Limiter.WorstAttainsTheWait | internal/limiter/memory.go:281-290 | the limit named is the first refusal whose own wait is the reported one: no refusal before it waits that long |
| Limiter.RefusalIsHonest | internal/limiter/memory.go:223-256 | a refusal or a peek changes no counter, and a refusal reports for every limit the Remaining and ResetAfter a peek at that instant reports |
| Limiter.RetryIsExact | internal/limiter/memory.go:145-256 | with no other traffic a multi-limit request is admitted at an instant if and only if it is at or after now + RetryAfter, which is zero exactly when it is admitted now; on a refusal Limiting names the first limit attaining it |
| Limiter.RetryAfterHeaderIsTight | internal/gateway/server.go:425-445 | after any whole number of seconds the retry is admitted if and only if that number is at least the header of section 10.2.3 of RFC 9110 |
| Meaning.ConfiguredQuota | internal/limiter/limit.go:114-123 | over any run a valid token bucket admits in [s,t] at most burst + (t-s) * count / period, with count in place of a burst that is not set |
| Meaning.EmptyCounterAdmits | internal/limiter/limit.go:114-123 | with no counter yet a limit admits a cost if and only if it is at most the burst, or the count when there is no burst or the limit is a window; a larger one is an error naming it |
| Meaning.RemainingIsTheLargestCost | internal/limiter/gcra.go:40-54 | what a limit reports as remaining is the largest cost it would admit at that instant, for both algorithms |
| Meaning.AdmissionIsHonest | internal/limiter/gcra.go:67-70 | an admission reports for every limit what a peek right after it reports |
| Meaning.BucketResetIsExact | internal/limiter/gcra.go:49-70 | a bucket has its whole capacity remaining at an instant if and only if it is at or after now + ResetAfter |
| Meaning.WindowResetIsTheFirstRelief | internal/limiter/window.go:37-40 | a window releases something at an instant if and only if it is at or after now + ResetAfter, and is empty then if and only if all live entries are of one instant |
| Meaning.WindowResetIsNotFull | internal/limiter/limit.go:214-215 | a concrete window that is not replenished at its reset time |
| Meaning.SweptExactlyWhenForgotten | internal/limiter/gcra.go:73-80 | a sweep drops a counter if and only if no check from then on can tell it from an absent one, for buckets and windows |
| Runs.ForgettingIsInvisible | internal/limiter/memory.go:292-332 | sweeps of any counters inserted anywhere in a timely run change no answer |
| Runs.AfterAlike | internal/limiter/memory.go:292-299 | the store a run leaves is indistinguishable, from then on, from the one it leaves without its sweeps |
| Runs.TokenBucketQuota | internal/limiter/limit.go:147-168 | over any run the cost admitted in [s,t] satisfies cost * emission <= tolerance + (t-s), hence cost <= capacity + (t-s) * count / period |
| Runs.SlidingWindowQuota | internal/limiter/window.go:26-72 | over any run at most count units are admitted in every half-open window of length period |
| Runs.SlidingWindowIsExact | internal/limiter/window.go:54-63 | after any run, sweeps included, a cost is refused if and only if admitting it would exceed count in the trailing window |
| Runs.HistoryOfRun | internal/limiter/window.go:65-72 | the stored log is sorted, holds nothing from the future, and counts in the trailing window exactly what was admitted there |
| Parts.ResultIsLocal | internal/limiter/memory.go:54-59 | a verdict depends on its own tenant's counters only |
| Parts.ChargeIsLocal | internal/limiter/memory.go:262-275 | charging a tenant is charging its part; every other tenant's part stays |
| Parts.SweepIsLocal | internal/limiter/memory.go:306-322 | sweeping one tenant is sweeping its part; every other part stays |
| Memory.TenantState.StageWindow | internal/limiter/memory.go:197-214 | the staged log and decision are those of the stored log's value, and every stored log reads the same although its array may have been written behind it |
| Memory.TenantState.Stage | internal/limiter/memory.go:169-221 | pass one judges every limit against what is stored, stores nothing, keeps pending logs in arrays of their own and counts the missing counters |
| Memory.TenantState.Report | internal/limiter/memory.go:223-253 | a refusal's decisions are restated from what is stored, which stays as it was |
| Memory.TenantState.Commit | internal/limiter/memory.go:262-273 | the stored value becomes the charge of the old one, and the count of added counters is exact |
| Memory.TenantState.Expire | internal/limiter/memory.go:306-317 | exactly the expired counters go, and their number is returned |
| Memory.ChargeSize | internal/limiter/memory.go:258-273 | a charge adds exactly the counters pass one found missing |
| Memory.Memory.LockTenant | internal/limiter/memory.go:110-127 | the state returned is the one the table leads to, created empty when there is none, and no counter changes |
| Memory.Memory.ExpireIn | internal/limiter/memory.go:304-323 | a tenant left without counters is detached and leaves the table in one step, and only then |
| Memory.Memory.Sweep | internal/limiter/memory.go:300-332 | every expired counter of every tenant goes, no other, and the key counter stays the number of live counters |
| Memory.Memory.CheckLocked | internal/limiter/memory.go:166-277 | refused, peeked and over-budget requests leave every counter; an admitted one charges all of them |
| Memory.Memory.Check | internal/limiter/memory.go:145-278 | answer and new counters are those of the budgeted check, the key counter equals the live counters and never exceeds the budget |
| MemoryRuns.BudgetAside | internal/limiter/memory.go:145-278 | over any run, every answer other than a full store is the one an unbounded limiter that never swept gives if the over-budget calls had not been made |
| MemoryRuns.FullExactlyWhen | internal/limiter/memory.go:159-276 | a call fails for lack of room if and only if every limit allows it, it is not a peek, and the counters it has to create do not fit beside those alive after the sweep it may set off |
| MemoryRaces.StepKeepsInv | internal/limiter/memory.go:108-332 | every step of every goroutine keeps the table, lock, serial-order and counter invariants |
| MemoryRaces.RacesAreSerial | internal/limiter/memory.go:108-332 | over every interleaving: detached exactly when not in the table, no write out of reach, answers and counters those of a serial order, key counter = live counters + unsubtracted removals - unadded additions |
| MemoryRaces.RacesKeepTheQuota | internal/limiter/memory.go:54-59 | if operations take effect in time order, racing checks keep both quotas and cannot see sweeps |
| MemoryBudget.OvershootIsBounded | internal/limiter/memory.go:258-276 | over every interleaving of G goroutines with requests of at most L limits, live and staged counters, and the key counter, are at most maxKeys + (G-1) * L |
| MemoryBudget.ClearedExactlyWhen | internal/limiter/memory.go:255-260 | a racing check is let through if and only if it is allowed, not a peek, and what it has to create fits the counter as it stands |
| MemoryBudget.AnsweredExactlyOnce | internal/limiter/memory.go:223-277 | every racing check is answered once, a refusal or peek at its decision and an admission at its write; only one over budget leaves no trace |
| MemoryBudget.AloneNeverExceeds | internal/limiter/memory.go:258-276 | with one goroutine they never exceed maxKeys, whatever the requests |
| MemoryBudget.BudgetCanBeOvershot | internal/limiter/memory.go:258-276 | the bound is attained: two checks of one limit each leave a budget of one holding two counters |
| Fences.PassesExactlyWhen | internal/limiter/redis/check.lua:66-89 | a call passes if and only if its store generation is 0, unrecorded or the recorded one and its policy generation is 0, unrecorded or not below the recorded one; otherwise it is told of another store exactly when the first half fails, and of a stale policy exactly when only the second does, each with the recorded value |
| Fences.RecordsExactly | internal/limiter/redis/check.lua:91-104 | a store generation is recorded only where there was none, a policy generation only upwards, and an unfenced caller records nothing |
| Fences.PassingIsRecorded | internal/limiter/redis/check.lua:91-104 | after a pass the caller's nonzero generations are in force, and what was recorded never goes back |
| CheckScript.Server.PassFences | internal/limiter/redis/check.lua:71-104 | passes if and only if the store is the same and the policy new enough, names the recorded value otherwise, and a pass records the caller's generations on every call |
| CheckScript.Server.EvaluateLimits | internal/limiter/redis/check.lua:119-215 | one entry per limit, evaluated against the database as it stands; an unknown kind is an error |
| CheckScript.Server.CommitWindow | internal/limiter/redis/check.lua:239-249 | aged-out members go, one uniquely suffixed member per unit is added, and the deadline is rounded up |
| CheckScript.Server.Commit | internal/limiter/redis/check.lua:231-252 | every counter of an admitted call is written, none other |
| CheckScript.Server.SettleLimits | internal/limiter/redis/check.lua:119-268 | reply and new database past the fences |
| CheckScript.Server.Check | internal/limiter/redis/check.lua:54-268 | reply and new database of the whole script, for calls framed as its header lays out; an unknown kind is an error after the fences |
| RedisClient.CallArgs | internal/limiter/redis/redis.go:126-154 | the flat arrays: meta key first, five leading arguments, four per limit in order |
| RedisClient.FramingRoundTrip | internal/limiter/redis/redis.go:116-154 | what the script unpacks from the arrays is what the client packed, for every admissible request |
| RedisClient.ParseResult | internal/limiter/redis/redis.go:177-263 | status before length, four values per limit, fences and malformed replies told apart |
| RedisClient.ParsesExactly | internal/limiter/redis/redis.go:167-263 | for every reply, which outcome it is by status and length, and the generations a fence names |
| RedisClient.ReplyRoundTrip | internal/limiter/redis/redis.go:177-244 | parsing the reply the script flattened gives back every decision and the limiting name |
| RedisClient.Checker.Check | internal/limiter/redis/redis.go:89-114 | one call through preflight, framing, script and parsing |
| RedisRefinement.BucketAgrees | internal/limiter/redis/check.lua:138-167 | the script's bucket entry is the Go decision in microseconds, now and after |
| RedisRefinement.WindowAgrees | internal/limiter/redis/check.lua:168-208 | the script's window entry is the Go decision on the log the sorted set stands for |
| RedisRefinement.UnitsAreAppended | internal/limiter/redis/check.lua:240-247 | suffixing by the count at this score makes every added member new, so ZADD appends exactly cost entries |
| RedisRefinement.CommitAgrees | internal/limiter/redis/check.lua:231-252 | committing in Redis is charging the store it stands for, and deadlines outlive their meaning |
| RedisRefinement.CallAgrees | internal/limiter/redis/check.lua:54-268 | any call the fences pass answers and charges as the Go limiter does; a fenced call says so and changes no counter |
| RedisRefinement.FencedExactlyWhen | internal/limiter/redis/redis.go:246-263 | the client is told of a reset store, of a stale policy or its answer, exactly as the recorded generations say, with both generations |
| RedisRefinement.DeadlinesAreTight | internal/limiter/redis/check.lua:217-249 | a written key outlives its meaning by less than the millisecond its deadline is rounded up to |
| RedisRefinement.ExpiryIsASweep | internal/limiter/redis/check.lua:217-249 | dropping keys at or after their rounded-up deadlines is a sweep |
| RedisRefinement.RedisAgreesWithMemory | internal/limiter/redis/check.lua:106-268 | for every timely run of unfenced calls, with expiries and sweeps anywhere, both back ends give the same outcome on every field |
| RedisRefinement.WholeMicrosecondsAreNeeded | internal/limiter/redis/redis.go:148-161 | for every window period that is not whole microseconds the first admitted request already differs |
| Rings.New | internal/ring/ring.go:67-109 | each failure exactly when its condition holds; otherwise every virtual node of every member, in walking order |
| Rings.Search | internal/ring/ring.go:135-141 | the first point at or after the hash, wrapping past the last |
| Rings.Owner | internal/ring/ring.go:130-133 | the node returned owns the key by the ring-free definition |
| Rings.OneOwner | internal/ring/ring.go:13-14 | ownership depends on ids, vnode count and key alone; collisions, input order and addresses cannot change it |
| Rings.OwnerInPlainTerms | internal/ring/ring.go:95-106 | the owner holds the lowest virtual node at or above the key, or the lowest of all when there is none, and the least id of those on that number |
| Order.LessIsLexicographic | internal/ring/ring.go:105-106 | ids are ordered by the first place where they differ, a prefix before its extensions |
| Rings.RemovingMovesOnlyItsKeys | internal/ring/ring.go:49-53 | removing a node moves only keys it owned |
| Rings.AddingMovesKeysOnlyToIt | internal/ring/ring.go:49-53 | adding a node moves keys only to it |
| Rings.Successors | internal/ring/ring.go:151-172 | length min(n, members), and each entry owns the key once those before it have left |
| Rings.SuccessionIsDistinct | internal/ring/ring.go:143-172 | a succession names distinct members |
| Rings.SuccessionTail | internal/ring/ring.go:143-150 | it starts at the owner, and its tail is a succession of the members without the owner |
| Rings.OneSuccession | internal/ring/ring.go:143-172 | over one set of ids there is one succession of each length |
| Rings.TailIsTheRingWithoutTheOwner | internal/ring/ring.go:143-150 | the tail equals what the ring without the owner returns |
| Rings.OneSortedList | internal/ring/ring.go:77-79 | the sorted member list depends on the set of members alone |
| ClusterState.Apply | internal/cluster/state.go:113-245 | the loops compute the transition function, for all six commands and unknown kinds |
| ClusterState.EveryEntry | internal/cluster/state.go:98-245 | members stay strictly sorted with unique nonempty ids and addresses; the epoch rises by one exactly when the id set or vnode count changes; generations never fall |
| ClusterState.EntryByMember | internal/cluster/state.go:113-245 | exactly when each entry is refused, and exactly which id and address pairs are listed afterwards |
| ClusterState.EntryByField | internal/cluster/state.go:113-245 | for each of the commands: whether it changes anything, and the vnode count, epoch and generations it leaves; a seed leaves its own vnode count, a store generation above the committed one is the new one |
| ClusterState.AddedAllIs | internal/cluster/state.go:117-154 | seeding is refused exactly when some member is unnamed or an address repeats, and otherwise leaves those members |
| ClusterState.SeedInAnyOrder | internal/cluster/state.go:117-154 | any permutation of the members seeds the same state, or is refused alike |
| ClusterLog.FSM.Apply | internal/cluster/fsm.go:48-68 | refused and undecodable entries are skipped, changes are handed on, the rest is reported unchanged |
| ClusterLog.FSM.Snapshot | internal/cluster/fsm.go:89-97 | the encoded state, members sorted |
| ClusterLog.FSM.Restore | internal/cluster/fsm.go:104-122 | the state is replaced wholesale and handed on, or kept when the bytes do not decode |
| ClusterLog.Reachable | internal/cluster/state.go:25-30 | every state a log reaches is sorted, unique and within the vnode bounds |
| ClusterLog.RoundTrip | internal/cluster/state.go:281-303 | decoding an encoded reachable state gives it back |
| ClusterLog.RestoreAndCatchUp | internal/cluster/fsm.go:83-122 | a snapshot at any point plus the rest of the log equals the whole log, refused entries included |
| ClusterLog.GenerationsRise | internal/cluster/state.go:34-47 | along a log no generation falls, and equal epochs mean equal id sets and vnode counts |
| ClusterLog.StoreGenIsAnEntry | internal/cluster/state.go:224-240 | the committed store generation is one that an entry of the log asked for |
| ClusterLog.EpochFencesOwnership | internal/cluster/state.go:106-112 | replicas anywhere along one log with equal epochs agree on every tenant's owner |
| ClusterView.View.Adopt | internal/cluster/cluster.go:104-115 | a state is adopted exactly when it names self and describes a ring; the snapshot's ring is then the one of its own state |
| ClusterView.View.Owner | internal/cluster/cluster.go:84-91 | the owner by the current state's ids and vnodes, and whether that is self |
| ClusterView.View.Replace | internal/cluster/cluster.go:122-159 | succeeds if and only if every member in turn has an id, an address and nobody else standing on it, self is named and the vnode count is allowed; then the members are the last word on each id, generations are kept, and the epoch is unchanged if and only if ids and vnodes are; otherwise nothing changes |
| ClusterView.NewView | internal/cluster/cluster.go:43-60 | a view is built if and only if self has an id and is named, every member in turn can join and the vnode count is allowed; its members are the last word on each id |
| PolicyFence.StepKeepsInv | internal/policy/cache.go:112-144 | every step keeps honest stamps and a nondecreasing fence |
| PolicyFence.StampsAreHonest | internal/policy/cache.go:120-144 | over every interleaving, a policy stamped g includes every edit with a generation up to g |
| PolicyFence.NoCheckPredatesAnEnforcedEdit | internal/limiter/redis/check.lua:66-104 | once a check carrying an edit's generation has passed for a tenant in a store lifetime, no later stamped check that passes uses limits that predate the edit |
| PolicyFence.NewestPasses | internal/limiter/redis/check.lua:83-89 | a check under the newest generation minted passes whatever its tenant's meta holds, unless it names another store |
| PolicyFence.EditTakesHold | internal/gateway/cluster_admin.go:84-102 | from any reachable state, once an edit's bump has been learnt, stamped and read, the check that carries it passes and enforces limits that include the edit |
| PolicyFence.EditTakesHoldAfterAnyRun | internal/gateway/cluster_admin.go:84-102 | the same after any run from the start |
| PolicyFence.LogGrows | internal/cluster/state.go:220-222 | a bump mints the next generation and no other entry lowers it |
| PolicyCache.Cache.Lookup | internal/policy/cache.go:100-159 | answer and entries of one lookup; hits counted exactly while the entry is young, stale answers exactly when an old one is served |
| PolicyCache.Cache.Invalidate | internal/policy/cache.go:177-182 | exactly that tenant is dropped, and counted |
| PolicyCache.Cache.InvalidateAll | internal/policy/cache.go:187-193 | everything is dropped, and counted |
| PolicyCache.HeldWasFetched | internal/policy/cache.go:128-144 | whatever is held after any run was an answer of the source for that tenant, not invalidated since |
| PolicyCache.BoundedStaleness | internal/policy/cache.go:100-173 | every answer was given by the source for that tenant, not invalidated since, and is younger than ttl if it is a policy, than the negative ttl if it is a fact about a tenant without one, or at most StaleFor old while the source is down |
| PolicyCache.NoAnswerExactlyWhen | internal/policy/cache.go:100-173 | no answer if and only if the source is down and what is held is past ttl, or the negative ttl for a fact, and past StaleFor; an entry is replaced if and only if it is past its ttl and the source answers |
| PolicyCache.ServedWithoutAsking | internal/policy/cache.go:107-110 | a held answer is served whatever the source would say if and only if it is younger than ttl, or than the negative ttl for a fact |
| PolicyCache.Stamped | internal/policy/cache.go:128-135 | a found policy is cached with only its generation replaced and no error, a fact with its error |
| PolicyCache.FailuresAreNotCached | internal/policy/cache.go:128-131 | a failure changes nothing that is held |
| PolicyCache.FreshAfterInvalidation | internal/policy/cache.go:175-193 | after an invalidation with no fetch since, the next answer is the source's, under the generation known now, or none |
| StoreGuard.MintOnce | internal/limiter/redis/storegen.lua:26-35 | the reply is what is stored afterwards, and an existing name stays |
| StoreGuard.StoreKey.Mint | internal/limiter/redis/storegen.lua:26-35 | the first caller names the store, later ones are told that name |
| StoreGuard.Guard.Check | internal/storegen/guard.go:98-109 | refuses and counts exactly while latched |
| StoreGuard.Guard.Fence | internal/storegen/guard.go:117-133 | latches; only the first latch is counted |
| StoreGuard.Guard.Reconcile | internal/storegen/guard.go:180-230 | opens a latched guard only when the generation just read or minted is the committed one; proposes only what differs; an outage changes nothing |
| StoreGuard.Guard.AdoptName | internal/storegen/guard.go:234-261 | mints only when there is no name, serves on a match, otherwise proposes what is in force |
| StoreGuard.OpensExactlyOnAMatch | internal/storegen/guard.go:180-261 | once something is committed, a probe leaves the guard open if and only if the generation read or found in force is the committed one, and proposes exactly what is not |
| StoreGuard.NothingCommittedNeverLatches | internal/storegen/guard.go:196-201 | before anything is committed a probe never closes the guard |
| StoreIdentity.StepKeepsInv | internal/storegen/guard.go:180-261 | every step of every node keeps one name per lifetime, rightful openings and one store generation per tenant |
| StoreIdentity.IdentityHolds | internal/storegen/guard.go:98-261 | over runs with wipes, restarts and racing minters: one name per lifetime for every minter, openings only on the committed name, no pass for a question that met a latched guard, one store generation per tenant and lifetime among fenced passes |
| StoreIdentity.OpeningsAreRecorded | internal/storegen/guard.go:176-179 | a running node's guard opens in no other way |
| StoreIdentity.CommittedNeverFalls | internal/cluster/state.go:224-240 | the committed store generation never decreases along a run |
| StoreNames.MintOutranksUnlessBehind | internal/storegen/guard.go:226-229 | a mint outranks the committed generation if and only if its node was not behind the log |
| StoreNames.CommittedWasMinted | internal/storegen/guard.go:251-260 | whatever is committed was the name of some lifetime of the store |
| StoreNames.OneLifetimePerGeneration | internal/storegen/guard.go:205-224 | two openings on one generation are on one lifetime when each was made in the lifetime it was read in and that was named by a node not behind the log |
| StoreLag.NamingRound | internal/storegen/guard.go:196-261 | a probe that finds no name mints and proposes the number after the last one its node knows, and latches if it knows one |
| StoreLag.MatchingNameGoesUnnoticed | internal/storegen/guard.go:213-224 | a probe that finds the generation its node knows opens and counts no latch, whichever lifetime that name was given in |
| StoreLag.LaggingNodeMintsBelow | internal/storegen/guard.go:226-229 | a run, with every committed generation minted, in which a lagging node names a wiped store 2 while 2 is committed for the store before |
| StoreLag.SecondWipeGoesUnnoticed | internal/storegen/guard.go:205-224 | in that run the node that served before the wipe stays open, counts no latch and opens on generation 2 in two lifetimes |
| StoreIdentity.AdoptedGenerationSticks | internal/limiter/redis/check.lua:79-101 | a tenant adopted under one generation refuses every other for the rest of the lifetime, and the caller latches |
| Decide.Service.DecideHere | internal/decide/decide.go:283-385 | at most two questions, each with the query's own terms, the limits and stamp of the policy it is about and the store generation its attempt read; no stamped policy older than the newest generation known at the start; one invalidation, exactly when the copy found is out of date; a fence refuses whatever the failure mode, and a reset store latches the guard |
| Decide.Service.Refreshed | internal/decide/decide.go:294-308 | the second attempt asks under what the source gives now |
| Decide.Service.Conclude | internal/decide/decide.go:320-384 | what each reply means: a store that did not decide fails the question if and only if the policy fails closed, and otherwise admits it degraded; which counters move and the owner named |
| Decide.Service.MaybeForward | internal/decide/decide.go:397-427 | never forwards a forwarded question; an unreachable owner means deciding here, other errors pass through |
| Decide.Service.Decide | internal/decide/decide.go:251-276 | a latched guard neither decides nor forwards; otherwise the question is forwarded if and only if it was not before and the owner is another node; an answered forward is passed on as it is, and what is ruled here follows from questions that carry the store generation read |
| ClusterQuota.StepKeepsInv | internal/decide/decide.go:251-427 | every step keeps each run of the store with one side of one query, and each admission backed by one |
| ClusterQuota.EveryAdmissionIsBacked | internal/decide/decide.go:387-427 | a query is debited at most twice; a non-degraded admission is backed by an allowed run for its tenant and cost, a debit exactly when it was not a peek and some limit applied |
| ClusterQuota.ClosesExactly | internal/decide/decide.go:320-384 | a node admits if and only if the reply reached it and allowed, and admits degraded if and only if the store did not decide and the tenant fails open |
| ClusterQuota.AdmittedAtMostDebited | internal/decide/decide.go:387-396 | the cost of all queries whose clients were admitted, not degraded, under some limit never exceeds what the store was debited |
| ClusterQuota.OneQuota | internal/decide/decide.go:387-396 | the cost of all queries, on all nodes, whose clients were admitted against one limit stays within it, over every window and interval |

## Left out

- hashicorp/raft, elections, transports and storage: one committed log is assumed, and each node has applied some prefix of it.
- Postgres, LISTEN/NOTIFY and migrations: the policy store is a sequence of contents that only moves forward; notifications are invalidations.
- gRPC and HTTP servers, the proxy, the admin API, authentication, configuration and command-line tools: I/O and translation.
- `LimitsFor`, `translate`, `Match`, `Tightest`, `Distribution`, `Describe`: they would only add easy members; `LimitsFor` is a parameter of the service.
- SHA-256, xxhash and FNV internals, and all statistical claims about balance; two limits whose 32-bit fingerprints collide are not modelled.
- JSON bytes: encoding is sorting the members followed by an injective code.
- 64-bit wrap-around in the limiter: arithmetic is unbounded, and the lemmas of `Bounds` say for which limits that is exact.
- The event hub, logging, eviction probing and fault injection.
- Liveness: nothing says that a guard reopens or that a fenced tenant recovers; after a wipe it may not, as `AdoptedGenerationSticks` shows.
- MemoryRaces.RacesAreSerial: shard locks are not modelled (fewer locks, more interleavings), and the writes of one commit are one step because they happen under the tenant's lock.
- Memory.Memory.LockTenant: the retry on a detached state cannot happen in calls that do not overlap; it is the `Acquire` step of `MemoryRaces`.
- PolicyCache.Cache.Lookup: one lookup at a time, so a fetch shared by concurrent lookups, or one in flight across an invalidation, is not modelled here; `PolicyFence` allows every such interleaving by letting a check use any policy ever read.
- PolicyFence.NoCheckPredatesAnEnforcedEdit: an edit whose generation was never minted is unfenced, as in the source.
- Decide.Service.Decide: published events and the text of errors are not modelled; readings of this node's own policy generation during one question are assumed not to go back.
- ClusterQuota.OneQuota: a node's deciding is the abstract form of `DecideHere`: at most two questions, the second only after a stale policy.
- ClusterQuota.OneQuota: degraded admissions, which a tenant that fails open gets while the store cannot decide, are outside it, as is a store that is wiped during the run: a wipe hands out the quota again, and the store-identity part says when it is noticed.
- ClusterQuota.AdmittedAtMostDebited: counts neither degraded admissions nor admissions to which no limit applied, which no store was asked to back.
- StoreIdentity.IdentityHolds: a rebooted node starts with an open guard, as in the source; its first probe comes at once but is not part of the boot step.
- RedisClient.ParseResult: replies that surface integers as strings are not modelled.
- CheckScript.Server.Check: requires the layout its header documents, which `FramingRoundTrip` shows the client always sends; what Lua does with other arrays is not modelled.
- CheckScript.Server.Check: Lua numbers are integers here; `BucketNumbersStayExact` and `WindowNumbersStayExact` say when that is exact.
