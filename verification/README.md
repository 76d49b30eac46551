# Burnban: admission, replay, metering and routing, proved

Burnban is a local proxy that admits, reserves, meters and settles model calls. This project models
its five hardest parts in Dafny and proves what each promises its users. `dafny verify dfyconfig.toml`
checks everything.

**Policy engine and simulator** (`PolicyTypes`, `PolicyValidation`, `Wildcard`, `Admission`,
`WindowSafety`, `PolicyMeaning`, `PolicyEngine`, `EngineRun`, `Noninterference`, `Uint128`, `Replay`, `Simulate`). `Admission` is a
pure history of reservations and the decision a policy takes over it. `PolicyEngine` is the engine as it
is written, a class whose `Prepare`, `Commit`, `Cancel` and `Release` change maps of pending usage and
slots in place; each call is proved to be one step of that history. Over every run of such steps no
window limit or concurrency limit of an enforcing rule is exceeded, even when timestamps arrive out of
order, and `EngineRun.Drive` carries such runs out on a live engine. `PolicyMeaning` says what the
decision means without the functions that compute it: what makes a rule find each kind of fault, which
rules apply, what a request is estimated at, and that the estimates of the requests an enforcing rule
let through in a window stay within its limit. `Simulate` is the replay with cursors and 128-bit prefix sums; it is proved to compute the exact
replay of the samples in stable time order, and that replay is proved to block exactly what the live
engine denies.

**Budget guard** (`Budget`, `BudgetMeaning`, `BudgetSafety`, `BudgetCache`, `BudgetBooks`, `BudgetGuard`,
`GuardRun`).
`Budget` says what an admission must answer given a ledger and the work in flight, and `BudgetMeaning`
what each answer means: which windows are watched, why each refusal is given, how much a grant
reserves, and how long a tripped fuse holds. `BudgetGuard` is the
guard as it is written: reservation counters, a warm usage cache under an even/odd revision, day
rollover, bulk eviction and the cached baseline median. Its invariant ties counters to open
reservations and cached entries to the ledger; undisturbed by foreign writes, its answer is the one
`Budget` gives. `GuardRun.Drive` carries whole runs of calls out on a live guard and shows that every
configured cap and the fan-out breaker bound them.

**Codex logs** (`CodexTypes`, `PrefixMatch`, `CodexLineage`, `CodexDeltas`, `CodexScan`). The border
table and the longest inherited prefix, the search for cyclic lineages, and the counters-to-events loop,
composed into one scan that loses no live usage, keeps cached and fresh tokens apart, and counts no
session twice.

**Allocation, pricing and score text** (`Allocation`, `AllocationMeaning`, `Pricing`, `Score`). A cap proposal that provably
leaves the chosen share of days untouched, price resolution as a function of sets, and a parser and
printer that invert each other.

**Downshift and forwarding** (`Downshift`, `Traffic`, `Forward`). The plan object and the request path
run on the real engine and guard classes of this project, for every outcome of every callee, with any
calls by other requests in between. Everything a request adds to either guard is accounted for when it
ends, and where nothing outside disturbs it, which form goes out and what is reserved for it follow from
the two guards' own answers.

Time is integer nanoseconds, money is `real` in the guard and integer micro-dollars in the policy
engine, and 64-bit saturation, 128-bit wrap-around and the 63-bit overflow checks are written out. Where
the source changes state, the model is a class with the same fields; a method and the function that
specifies it are kept apart.

Five places behave differently from what their documentation or surroundings suggest. The model follows
the code, and each difference is stated exactly:

- `wildcardMatch` tests for literal equality before it tests for `*`, so a `*` in the value is taken as a
  literal. The matcher is exact for all patterns if and only if the value contains no `*`; it never
  accepts a non-match (`Wildcard.MatcherExactness`, `Wildcard.SelectsOnlyMatches`).
- The engine marks non-identity dimensions with the confidence text `not_identity` and compares context
  data with it. A context that carries that text for an identity dimension makes an unauthenticated label
  count. Noninterference holds if and only if none does (`Noninterference.NoninterferenceExactly`). The
  proxy itself only ever sets `authenticated`, `self_reported` or `unverified`; the text can come from
  stored contexts that are replayed and from direct callers of `Prepare`.
- A cache entry for an agent never loads its request count, so it lags by the requests already in the
  window; spend and gaps are right, and nothing reads the lagging count (`BudgetCache.Fits`).
- The ledger keeps whole seconds while the cache compares nanoseconds. Entries agree if and only if the
  window starts on a whole second; slots of the allowed 67.5-second baseline window may not
  (`BudgetCache.BumpFitsExactly`, `BudgetCache.FractionalStartDisagrees`).
- A region-only and a tier-only contract have equal specificity and are not rejected. Resolution is
  independent of file order if and only if no such pair ties (`Pricing.OrderIrrelevantExactly`).

## Model

| member | source | states |
|---|---|---|
| Wildcard.WildcardMatch | internal/policy/types.go:564-590 | the loop terminates, on a measure of star, retry and position, and computes the backtracking search that the lemmas below are about |
| Wildcard.MatchesAny | internal/policy/types.go:553-562 | some selector must select the value; an empty list selects nothing |
| Wildcard.SelectsOnlyMatches | internal/policy/types.go:564-590 | whatever the matcher accepts matches the pattern declaratively, for every pattern and value |
| Wildcard.SearchComplete | internal/policy/types.go:564-590 | backtracking to the last star alone loses no match when the value holds no star |
| Wildcard.MatcherExactness | internal/policy/types.go:564-590 | all patterns are decided exactly if and only if the value contains no `*` |
| Wildcard.StarInValueMisleads | internal/policy/types.go:568-573 | for every value with a `*`, a pattern that matches it and is refused |
| PolicyValidation.Validate | internal/policy/types.go:293-445 | accepts exactly the documents whose rules, limits, ids, selectors and enforceable scopes are in order, and gives every limit its own window whatever characters ids contain |
| PolicyValidation.AddLimits | internal/policy/types.go:366-407 | accepts exactly bounded lists of distinct, positive limits with valid windows, and records each window under this rule and kind only |
| Admission.DeniedIffBroken | internal/policy/engine.go:244-346 | a decision denies exactly when some applicable enforcing rule has a broken restriction or limit |
| Admission.StatusExactly | internal/policy/engine.go:656-673 | the first finding about identity or access fixes 401 or 403; otherwise cost gives 402, rate 429 and anything else 422 |
| PolicyMeaning.StatusMeans | internal/policy/engine.go:646-673 | a denial is 401 or 403 exactly when identity or access is at fault, and only for the one that is; else 402 exactly for a cost, 429 for a rate, 422 for a missing bound alone |
| PolicyMeaning.DeniesExactly | internal/policy/engine.go:244-346 | a request is denied exactly when some enforcing rule that applies has one of the causes to object |
| PolicyMeaning.BrokenExactly | internal/policy/simulate.go:297-400 | a replayed rule is broken exactly when it has a cause, a missing output bound being no fault of a sample recorded without one |
| PolicyMeaning.FindingsExactly | internal/policy/engine.go:244-332 | a rule reports a fault of each kind exactly when its cause is there: an unproven identity, a denied or unlisted label, a missing bound, an unknown or excessive cost, or a limit that one more request would pass |
| PolicyMeaning.FindingsInOrder | internal/policy/engine.go:633-644 | findings come in the order of their codes' texts |
| PolicyMeaning.AppliesExactly | internal/policy/engine.go:486-578 | a rule applies exactly when its selectors pick the request's labels, unproven identity labels being left aside under enforcement |
| PolicyMeaning.NarrowestFirst | internal/policy/engine.go:486-506 | applicable rules are explained narrowest first, then by id |
| PolicyMeaning.SpecificityExactly | internal/policy/engine.go:580-588 | specificity is the number of dimensions a scope restricts |
| PolicyMeaning.EstimatesExactly | internal/policy/types.go:172-202 | negative inputs count as none, output kinds are known only under a declared bound, and the total sticks at the top of int64 |
| PolicyMeaning.CostExactly | internal/policy/types.go:204-232 | a cost is usable exactly when known, representable and stated no lower than the dollar estimate; unstated, it is the least covering millionth |
| PolicyMeaning.WindowStartExactly | internal/policy/engine.go:733-740 | a rolling window covers what is no older than its duration, a fixed one the slot of now |
| WindowSafety.AdmittedFits | internal/policy/engine.go:257-319 | an admitted request leaves every counted window within its maximum |
| WindowSafety.CutoffCovers | internal/policy/engine.go:733-740 | the cutoff of the last member of a window covers all the others, in whatever order they came |
| WindowSafety.WindowsAreSafe | internal/policy/engine.go:203-399 | over every run, committed plus pending usage in any closed rolling interval or fixed slot stays within each enforcing limit, and every entry counts exactly what its request asked for |
| PolicyMeaning.RequestsStayWithin | internal/policy/engine.go:203-399 | over every run, the requests an enforcing rule let through in any of its windows and that were not given back are no more than its limit |
| PolicyMeaning.TokensStayWithin | internal/policy/engine.go:203-399 | the same for the estimated tokens of the limit's kind |
| PolicyMeaning.DollarsStayWithin | internal/policy/engine.go:203-399 | the same for the micro-dollars those requests may cost |
| PolicyMeaning.NothingUnmeasured | internal/policy/engine.go:257-319 | no request is let through without an estimate that an enforcing limit on it needs |
| WindowSafety.ConcurrencyIsSafe | internal/policy/engine.go:320-331 | over every run, slots in flight never exceed an enforcing rule's concurrency |
| WindowSafety.ClosedStaysClosed | internal/policy/engine.go:95-148 | a closed reservation is never counted or freed again by any later call |
| WindowSafety.QuiescenceIsEmpty | internal/policy/engine.go:95-184 | with every reservation closed nothing is pending and no slot is held |
| PolicyEngine.Store.PolicyRuleUsageSince | internal/store/policy.go:572-601 | the stored total of a rule since a cutoff, saturating at the top of int64 |
| PolicyEngine.Engine.constructor | internal/policy/engine.go:27-33 | a fresh engine over existing rows stands for a history of closed reservations |
| PolicyEngine.Engine.PendingSince | internal/policy/engine.go:402-415 | pending usage since a cutoff is the saturated exact sum, in any map order |
| PolicyEngine.Engine.EvaluateRule | internal/policy/engine.go:244-332 | the violations found in the live maps and store are those of the history |
| PolicyEngine.Engine.Prepare | internal/policy/engine.go:203-399 | one step of the history: a denial stores exactly its record with unaccepted rows and reserves nothing; an admission stores nothing and adds one prepared entry of one request, its estimated tokens of each kind and its whole micro-dollars, under the rules that apply; the decision is the history's |
| PolicyEngine.RecordExactly | internal/policy/engine.go:349-372 | a decision is written down with its time, namespace and outcome, and one row for each counting rule that applied, with the request's measure, accepted exactly if it was not a denial |
| PolicyEngine.Engine.Enlist | internal/policy/engine.go:378-398 | one reservation enters the pending and slot maps under exactly the keys of its counting and limiting rules |
| PolicyEngine.Reservation.Commit | internal/policy/engine.go:111-132 | pending usage becomes durable exactly when the store accepts it, otherwise everything is given back; repeating it changes nothing |
| PolicyEngine.Reservation.Cancel | internal/policy/engine.go:134-148 | a prepared reservation is closed and given back whether or not its record can be stored |
| PolicyEngine.Reservation.Release | internal/policy/engine.go:95-109 | slots, and pending usage if still held, are given back once |
| EngineRun.Drive | internal/policy/engine.go:95-399 | on a live engine, any interleaving of calls is a run of the history, every enforcing limit bounds it, and slots and stored rows show it |
| PolicyEngine.PastUsage | internal/policy/engine.go:402-415 | rows left by earlier processes count exactly as closed reservations |
| PolicyEngine.AgreesAfterCommit | internal/policy/engine.go:111-132 | moving a reservation from pending to durable leaves every counter equal to the history's sum |
| Noninterference.RunsAgree | internal/policy/engine.go:486-578 | two runs that differ only in unauthenticated identity labels or in agent, session or model class agree on every outcome, status and enforcing counter |
| Noninterference.OneDecision | internal/policy/engine.go:590-673 | the same for one decision over agreeing histories |
| Noninterference.NoninterferenceExactly | internal/policy/engine.go:551-578 | noninterference holds for all validated policies if and only if no identity confidence reads `not_identity` |
| Noninterference.ImpostorInterferes | internal/policy/engine.go:551-578 | with that text present, a policy and two contexts that are told apart |
| Uint128.AddInt64 | internal/policy/simulate.go:236-246 | exact addition until 128 bits are full, negative amounts ignored |
| Uint128.Sub | internal/policy/simulate.go:248-254 | exact subtraction with borrow, wrapping only below zero |
| Simulate.WindowPrefix | internal/policy/simulate.go:483-503 | a difference of prefix sums is the sum of the events from a position on |
| Simulate.AdvanceCursor | internal/policy/simulate.go:505-513 | the cursor stops at the first event not before the cutoff |
| Simulate.ReadWindow | internal/policy/simulate.go:324-371 | cursor plus prefix difference is the naive sum over events since the cutoff |
| Simulate.EvaluateSample | internal/policy/simulate.go:297-421 | the sample is judged as the exact history judges it: block for a broken enforcing rule, else warn for a warning one, else observe for an observing one |
| Simulate.CountAllowed | internal/policy/simulate.go:431-455 | an allowed sample extends events and in-flight ends in step with the history |
| Simulate.Simulate | internal/policy/simulate.go:271-470 | every sample, in stable time order, is judged by the modes of the rules it breaks against what stands when the replay comes to it, and the tallies add up |
| Replay.OutcomesExactly | internal/policy/simulate.go:405-430 | each outcome of the exact replay is block, warn, observe or none exactly by the modes of the broken rules |
| Replay.StandingExactly | internal/policy/simulate.go:431-455 | when the replay comes to a sample, each earlier one that was not blocked counts what it asked for and holds its slots exactly if it has not ended |
| Simulate.TiesKeepOrder | internal/policy/simulate.go:287-287 | samples of one timestamp keep the order they were given in |
| Simulate.SimulatorMatchesEngine | internal/policy/simulate.go:271-470 | for samples in any order the simulator blocks exactly what the live engine denies, given earlier allowed ones were committed and released when they ended |
| Replay.SaturationUnreached | internal/policy/engine.go:402-415 | under an enforcing limit no int64 counter can have saturated in a way that matters |
| Replay.DenialExact | internal/policy/engine.go:244-346 | with exact or saturating counters the same requests are denied |
| Replay.ReplayRefinesEngine | internal/policy/simulate.go:287-456 | exact replay and live engine agree on every denial and end in the same history |
| Budget.MedianSplitsInHalf | internal/budget/fuse.go:434-456 | at least half the days spent at most the baseline median and at least half at least that much |
| Budget.ClearExactly | internal/budget/budget.go:803-1070 | the standing check is clear if and only if no ban or cooldown is active, every window is free of gaps, unspent and has headroom, and the breaker has room |
| Budget.GrantedExactly | internal/budget/budget.go:537-593 | a request is granted if and only if the check is clear and, under any dollar limit, it is priced and fits every window when bounded |
| BudgetMeaning.RefusedExactly | internal/budget/budget.go:537-580 | each refusal is given exactly for its reason: the standing objection, a missing price, or the first window a bounded request does not fit, a fuse tripping instead |
| BudgetMeaning.StandingExactly | internal/budget/budget.go:803-1070 | the standing objection is a ban, a running cooldown, or the first unclean window in order, the breaker between the shared windows and the agent's own |
| BudgetMeaning.GrantedAmount | internal/budget/budget.go:548-593 | a grant reserves a bounded request's estimate, the largest headroom of any window for an unbounded one, nothing without a limit |
| BudgetMeaning.PositionsExactly | internal/budget/budget.go:871-1043 | the windows read are exactly the configured ones not lifted for the day, each with its own start and cap |
| BudgetMeaning.BaselineExactly | internal/budget/budget.go:995-1005 | the baseline window is the slot of now, its limit the larger of the minimum and the multiple of the median spend of that slot on the preceding days |
| BudgetMeaning.SameSlot | internal/budget/fuse.go:426-432 | a slot of the lookback counts the rows that would fall in the current slot were they dated that many days later |
| BudgetMeaning.RollingExactly | internal/budget/fuse.go:308-312 | a rolling window counts every row no older than its span and none older by a second or more |
| BudgetMeaning.GapsExactly | internal/budget/budget.go:923-930 | a window has a metering gap exactly when a row it counts was recorded unsafely |
| BudgetMeaning.TripLasts | internal/budget/fuse.go:662-701 | however a fuse trips, it holds until exactly one cooldown after now |
| BudgetMeaning.CooldownHolds | internal/budget/budget.go:836-845 | from a trip until its cooldown ends every admission of anyone is refused as cooling down, whatever ledger, settings and work in flight have become, bans aside |
| BudgetMeaning.CooldownEnds | internal/budget/budget.go:836-845 | once its time has passed a trip plays no part |
| BudgetMeaning.NothingDuringCooldown | internal/budget/budget.go:836-845 | over a run nothing is admitted while a trip holds, and the trip outlasts settlements and releases |
| BudgetSafety.GaugeOfFrame | internal/budget/budget.go:871-916 | an admission inside a cap's window is checked against a reading that covers the whole window |
| BudgetSafety.ChargedIsVisible | internal/budget/budget.go:537-593 | everything a window has been charged shows in the ledger or in the reservations read beside it |
| BudgetSafety.CapsAreKept | internal/budget/budget.go:537-593 | over every run of honest settlements, spend plus live reservations of each calendar, external, agent and rolling window stays within its cap and one slack of 1e-12 |
| BudgetSafety.FanoutIsKept | internal/budget/budget.go:1026-1033 | over every run, settled plus in-flight requests of any rolling window stay within the breaker's limit |
| BudgetCache.WholeStartsAgree | internal/budget/budget.go:236-247 | comparing nanoseconds agrees with comparing seconds if and only if the window starts on a second |
| BudgetCache.BumpFits | internal/budget/budget.go:236-247 | one bump keeps a warm entry equal to the ledger that gained the row |
| BudgetCache.BumpFitsExactly | internal/budget/budget.go:236-247 | one bump keeps every entry of a key right, for every ledger and row, if and only if the window starts on a second |
| BudgetCache.UnbumpedFitsExactly | internal/budget/budget.go:209-217 | an entry left alone stays right if and only if its window and agent do not cover the row |
| BudgetCache.SettledCoherent | internal/budget/budget.go:206-221 | after a settlement every warm entry again equals the ledger, the other agents' and later days' included |
| BudgetCache.FractionalStartDisagrees | internal/budget/fuse.go:422-424 | the slot an allowed 67.5-second baseline window computes at a given time, and a row on which cache and ledger differ |
| BudgetCache.MedianUnmoved | internal/budget/budget.go:222-232 | a row in or after the current slot cannot move the baseline median |
| BudgetBooks.AccountsAfterReturn | internal/budget/budget.go:166-188 | closing an open reservation leaves all counters equal to the sums over what is still open |
| BudgetBooks.QuiescentGuard | internal/budget/budget.go:166-188 | with nothing open the counters are zero and the agent map is empty |
| BudgetBooks.TotalsAfterSettle | internal/budget/budget.go:190-234 | however early its admission, a settled row changes every ledger total as an appended row does |
| BudgetBooks.UnboundedIsExclusive | internal/budget/budget.go:575-579 | right after a call without a bound is granted, the same agent is refused anything more |
| BudgetBooks.SameVerdict | internal/budget/budget.go:803-1070 | judged from store and counters, an admission gets the verdict the log of admissions gives |
| BudgetBooks.AdmitIsStep | internal/budget/budget.go:537-593 | a guard's admission is one step of the run model |
| BudgetGuard.Store.Insert | internal/store/store.go:621-629 | a mutation waits for its turn and moves the revision by two half-steps, so rows cannot change behind one even revision |
| BudgetGuard.Guard.BoundAgentUsageCache | internal/budget/budget.go:674-691 | at most 4096 agent entries remain, globals and the wanted entry among them, and the count is right |
| BudgetGuard.Guard.TryUsages | internal/budget/budget.go:702-779 | a try publishes only what an unchanged even revision vouches for |
| BudgetGuard.Guard.CachedUsages | internal/budget/budget.go:697-782 | answers equal the ledger's spend, gaps and global request counts at one stable revision, or the call fails closed; undisturbed it never fails |
| BudgetGuard.Guard.ReconcileUsageCache | internal/budget/budget.go:640-672 | afterwards only active windows and the current day's agents are cached |
| BudgetGuard.Guard.CachedMedian | internal/budget/fuse.go:486-515 | the median returned is the ledger's at one stable revision, or the call fails closed |
| BudgetGuard.Guard.Scan | internal/budget/budget.go:913-991 | stops at the first objection of the readings and otherwise returns them all |
| BudgetGuard.Guard.CheckLocked | internal/budget/budget.go:803-1070 | undisturbed, the answer is the ledger's own first objection, or its readings; a tripped fuse is saved to hold for one cooldown or the call fails, and while a saved one holds the answer is that it does |
| BudgetGuard.Guard.Price | internal/budget/budget.go:548-580 | an unpriced request is refused, a bounded one must fit every window, an unbounded one takes the largest headroom |
| BudgetGuard.Guard.Admit | internal/budget/budget.go:537-593 | undisturbed, the verdict is the one the ledger and the counters give; a grant adds exactly one open reservation, and a refusal none; a trip is saved to hold for one cooldown, during which nothing is granted |
| BudgetGuard.Guard.Intrude | internal/budget/budget.go:697-701 | writes by others keep every invariant: the caches notice the revision |
| BudgetGuard.Reservation.Settle | internal/budget/budget.go:190-234 | row, caches and reservation move as one step; a failed insert leaves the reservation held; repeating it changes nothing |
| BudgetGuard.Reservation.Release | internal/budget/budget.go:156-188 | the reservation is given back once |
| GuardRun.Drive | internal/budget/budget.go:537-593 | on a live guard, any interleaving of admissions, settlements and releases is a run of the model and keeps every cap and the breaker |
| PrefixMatch.BorderTable | internal/localusage/localusage.go:353-365 | the fallback table holds the longest proper border of every prefix |
| PrefixMatch.FallBack | internal/localusage/localusage.go:371-373 | falling back finds the longest match the next record extends |
| PrefixMatch.PrefixAtParentEnd | internal/localusage/localusage.go:340-384 | the result is the longest prefix of the child that is a suffix of the parent |
| CodexLineage.CanonicalRollouts | internal/localusage/localusage.go:386-400 | each named session is represented by the first of its best copies: no copy is complete unless it is, none as complete is longer, and none before it is as good |
| CodexLineage.AmbiguousSessions | internal/localusage/localusage.go:415-431 | exactly the sessions with a complete copy that the canonical one does not extend |
| CodexLineage.ParentDecides | internal/localusage/localusage.go:446-455 | a session's lineage reaches a cycle exactly when its present parent's does |
| CodexLineage.LineageSearch.Visit | internal/localusage/localusage.go:437-459 | the search terminates and answers whether the chain of parents reaches a cycle |
| CodexLineage.InvalidLineages | internal/localusage/localusage.go:433-464 | exactly the sessions whose chain of present parents reaches a cycle, in any visiting order |
| CodexDeltas.EmitDeltas | internal/localusage/localusage.go:605-634 | the k-th event is that of the k-th live, timed record that used something, with its model and time, its own rises in cached and output tokens, and as fresh tokens what its rise in input leaves |
| CodexDeltas.UsedGrows | internal/localusage/localusage.go:611-616 | each record adds its delta to the sum of final counts between restarts |
| CodexDeltas.Conservation | internal/localusage/localusage.go:605-634 | emitted output is what was used since the inherited prefix; so is input if and only if no emitted delta claims more cached than input, cached input if and only if none came alone, and fresh input if and only if no cached rise exceeds its input |
| CodexDeltas.UsedWithoutRestart | internal/localusage/localusage.go:611-616 | without a restart what was used is the last count |
| CodexDeltas.UsedAcrossRestart | internal/localusage/localusage.go:611-616 | what was used before a restart and since it add up |
| CodexScan.Scan | internal/localusage/localusage.go:539-640 | decides every rollout and emits, rollout by rollout, exactly one event for each live record of a counted one, telling that record's model, time and rises |
| CodexScan.ScanConserves | internal/localusage/localusage.go:544-640 | over a whole scan no live usage is lost or invented, cached and fresh tokens each for itself |
| CodexScan.CountedOnce | internal/localusage/localusage.go:559-563 | a named session is counted at most once, however many copies exist |
| CodexScan.CountedExactly | internal/localusage/localusage.go:544-603 | a rollout is counted exactly when its metadata is valid or it is empty, it stands for its session, the session's copies agree and its forks do not go in circles, and a fork's parent is known and ends with what the fork began with |
| CodexScan.InheritedIsParents | internal/localusage/localusage.go:565-603 | what a counted fork skips ends its parent's own history before the fork, counter for counter, and no cyclic lineage is counted |
| Allocation.MultiplyDivideCeil | internal/optimize/recommend.go:519-538 | the exact rounded-up quotient, failing exactly when it exceeds 63 bits |
| Allocation.RoundUp | internal/optimize/recommend.go:540-549 | the least multiple of the unit that covers the value, failing exactly when it does not fit |
| Allocation.Gather | internal/optimize/recommend.go:311-364 | daily and total sums of every scope are those of its priced calls, with its unpriced and unsafe calls counted, failing exactly when a call lies outside the history, a cost has no integer form or a scope passes int64 |
| AllocationMeaning.DayIsSpend | internal/optimize/recommend.go:345-352 | a scope's sum for a day is what its priced calls between that day's start and the next cost |
| AllocationMeaning.TotalIsSpend | internal/optimize/recommend.go:353-355 | and its total what all of them cost |
| AllocationMeaning.MicrosExactly | internal/optimize/recommend.go:493-506 | a cost is its nearest millionth, failing exactly outside its range |
| AllocationMeaning.PercentileIsLeast | internal/optimize/recommend.go:371-375 | the days below the percentile day are too few to make up the percentile |
| AllocationMeaning.RecentExactly | internal/optimize/recommend.go:376-384 | the recent pace is the mean of the last seven days, rounded down |
| AllocationMeaning.ReplayIsGreedy | internal/optimize/recommend.go:438-446 | the replay is the one way to block exactly the calls that do not fit beside what was let through that day |
| AllocationMeaning.CallsExactly | internal/optimize/recommend.go:438-441 | the number of blocked calls is the number of those |
| AllocationMeaning.ReplayOrder | internal/optimize/recommend.go:432-437 | the replay takes calls by time, those of one instant by id |
| Allocation.PercentileCovers | internal/optimize/recommend.go:371-375 | at least the chosen share of days spent no more than the percentile day |
| Allocation.ProposedCap | internal/optimize/recommend.go:407-415 | whole cents, at least the base with headroom, and no cent more than that takes |
| Allocation.ReplayCap | internal/optimize/recommend.go:430-446 | the greedy replay, whose overflow check cannot fire |
| Allocation.ReplayConserves | internal/optimize/recommend.go:438-446 | no day is used beyond the cap and used plus blocked is that day's spend |
| Allocation.ReplayTotals | internal/optimize/recommend.go:430-446 | over all days used plus blocked is the whole spend |
| Allocation.CoveredDaysAreQuiet | internal/optimize/recommend.go:430-446 | a day within the percentile has no blocked call |
| Allocation.Propose | internal/optimize/recommend.go:406-468 | the proposal covers the percentile and the recent pace and blocks nothing on at least the chosen share of days |
| Pricing.OverlapIsCommonModel | internal/pricing/layers.go:228-235 | two selectors overlap if and only if some model is matched by both |
| Pricing.ModelMatchesExactly | internal/pricing/layers.go:127-129 | a configured model stands for itself and for itself followed by a separator and a digit |
| Pricing.EqualFoldExactly | internal/pricing/layers.go:116-125 | labels are compared letter for letter, ASCII case aside |
| Pricing.OverlapIsCommonDay | internal/pricing/layers.go:237-246 | two ranges overlap if and only if some day is in both |
| Pricing.ValidateContracts | internal/pricing/layers.go:146-209 | accepts exactly lists with distinct ids, sensible dates and no ambiguous pair |
| Pricing.OneOfEachShape | internal/pricing/layers.go:223-226 | two contracts of one scope shape that match one query are ambiguous |
| Pricing.SelectContract | internal/pricing/layers.go:79-90 | the first of the most specific matching contracts |
| Pricing.WinnerIsBest | internal/pricing/layers.go:79-90 | the winner matches and nothing that matches is more specific |
| Pricing.OrderIrrelevantExactly | internal/pricing/layers.go:61-97 | resolution is the same in every order of an accepted list if and only if no region-only and tier-only pair ties |
| Pricing.TiedPair | internal/pricing/layers.go:135-144 | an accepted pair whose winner is whichever comes first |
| Pricing.LookupWithKey | internal/pricing/layers.go:248-262 | the exact entry, else the longest entry the model is a version of |
| Pricing.LookupIsFunction | internal/pricing/layers.go:248-262 | there is only one such entry, so map order cannot matter |
| Pricing.Resolve | internal/pricing/layers.go:61-108 | provider final before contract before public list, and a bad final amount is unknown |
| Pricing.ListedExactly | internal/pricing/layers.go:93-108 | a list entry prices the dates from its first through its last and no others |
| Score.AcceptsScores | internal/optimize/quality.go:177-212 | the parser accepts exactly decimals in [0, 1] with at most six places |
| Score.ParsesExactly | internal/optimize/quality.go:177-212 | every accepted text means exactly its parsed number of millionths |
| Score.RoundTrip | internal/optimize/quality.go:216-227 | printing then parsing gives every number back, in canonical form |
| Score.CanonicalIsUnique | internal/optimize/quality.go:216-227 | a canonical text is the printed form of its value |
| Score.SameValueSameForm | internal/optimize/quality.go:216-227 | two accepted texts print alike if and only if they have the same value |
| Downshift.ShiftsExactly | internal/downshift/decision.go:50-117 | only a compatible rule under an acting configuration shifts, for a covered denial or a budget past its threshold |
| Downshift.WarnsExactly | internal/downshift/decision.go:88-116 | a warning is given exactly in observe mode where a shift would be, and between the two thresholds |
| Downshift.TriggersExactly | internal/downshift/decision.go:88-104 | a decision names the denial, the threshold or the warning level that brought it about |
| Downshift.PressureOnlyRaises | internal/downshift/decision.go:88-101 | a higher budget share never takes an action back |
| Downshift.Plan.constructor | internal/proxy/downshift.go:37-73 | the request is unchanged unless shifted; shifted, it is the rule's target, usable, and strictly cheaper when the source was priced |
| Downshift.Plan.ApplyTarget | internal/proxy/downshift.go:121-158 | the target is applied exactly when it is usable and, unless the source was denied, cheaper; otherwise nothing changes |
| Downshift.Plan.RetryAfterDenial | internal/proxy/downshift.go:97-119 | shifts exactly when a denial may and the target is usable |
| Downshift.Plan.CancelUnforwarded | internal/proxy/downshift.go:191-200 | a shifted request is what it was; any other decision is kept |
| Downshift.Plan.CancelSelected | internal/proxy/downshift.go:202-211 | no action, and the request is what it was |
| Traffic.Others.Meanwhile | internal/proxy/proxy.go:417-525 | any calls by other requests keep both guards valid, add entries only at their own positions and leave everyone else's as they are |
| Forward.Proxy.OpenGate | internal/proxy/proxy.go:417-430 | a form passes exactly when the active policy admits it, and what it adds is the returned reservation at the end of the history, or nothing |
| Forward.Proxy.Switch | internal/proxy/downshift.go:316-330 | the source's reservation is closed uncounted before the target is evaluated, whatever fails, and the only entry added is the returned one |
| Forward.Proxy.Conclude | internal/proxy/proxy.go:487-620 | cleared exactly when the budget granted and the policy committed; every way out closes both reservations and adds nothing else, the budget one settled exactly when something is sent and the ledger takes the row |
| Forward.Proxy.RouteSource | internal/proxy/proxy.go:456-486 | the budget's own answer decides: a grant is reserved in its amount, a final refusal clears nothing; refused for want of room or price, and with a compatible rule and usable target, the target is cleared and reserved in the granted amount exactly when its policy consents and the budget grants it |
| Forward.Proxy.Retry | internal/proxy/proxy.go:464-469 | a denial is retried exactly when the configuration acts on denials, the rule fits, the target is usable and the route may be crossed |
| Forward.Proxy.RouteTarget | internal/proxy/proxy.go:440-461 | undisturbed, the target is cleared, reserved in the granted amount, exactly when its policy consents to it without the source's reservation and the budget grants it |
| Forward.DroppedCountsNothing | internal/policy/engine.go:134-148 | a reservation that was given back, such as a downshifted request's source, adds to no window |
| Forward.SourcePlaysNoPart | internal/proxy/downshift.go:316-330 | the target is told what it would be told had the source never been asked |
| Forward.Proxy.Forward | internal/proxy/proxy.go:417-620 | all a request has added to either guard when it ends is on its receipt: policy entries closed, at most one counted, and that exactly when both guards cleared the request, under the form it was cleared as; the budget entry given back or settled; no active policy bypassed, and nothing refused that both guards grant, whether it goes out as asked, as the target at first, or as the target after a denial |

## Left out

- PolicyValidation.Validate: label characters and lengths, the document header and duration text are not modelled; windows arrive parsed.
- PolicyEngine.Engine.Prepare: each store read succeeds or the whole call fails; a refresh error, a usage error and a failed denial insert are one outcome. Messages, decision text and ids are left out.
- Simulate.Simulate: the breakdowns by label and rule interaction, the count of indeterminate samples, the notes, the confidence word and the case of no candidate policy are left out.
- Replay.ReplayRefinesEngine: is about samples with known admission metadata, non-negative times and representable costs; samples without that metadata are judged without their output bound and may count as indeterminate in the simulator, and have no counterpart in the engine.
- BudgetSafety.CapsAreKept: settings are fixed during a run, requests are priced and bounded and settle for no more than they reserved; an unbounded call takes all headroom (`BudgetBooks.UnboundedIsExclusive`) and may overshoot it. The baseline fuse is not among the caps because its limit moves with history.
- BudgetCache.SettledCoherent: assumes the settled row carries its admission time and that local days of successive checks do not go back; `orderly` in the guard records whether that held.
- BudgetGuard.Guard.constructor: the machine's calendar is assumed to start days, weeks and months on whole seconds, days no later than the instants in them, and each day after every instant of earlier days. A zone whose midnight is skipped or repeated by a clock change may not satisfy this.
- BudgetGuard.Guard.Admit: settings arrive parsed, with expired external increases already subtracted; message text and alert marks are left out. A day that starts at time zero is excluded because zero marks an empty cache. The exact verdict is stated for calls during which no foreign write lands.
- BudgetGuard.Store: SQLite is a sequence of rows under its revision counter; foreign writes are arbitrary rows at a new revision.
- GuardRun.Drive: has no counterpart in the source; like EngineRun.Drive it carries a run theorem over to the class.
- PrefixMatch.PrefixAtParentEnd: the deadline checks are left out.
- CodexScan.Scan: file walking, JSON, warnings, the deadline and the session tally are left out; so is reloading of parents outside the scanned period.
- Allocation.Propose: scopes are proposed one by one; ordering, the scope limit, weights, confidence words and the shell command are left out. The float product behind the percentile index may round up past a whole number, and both values are covered.
- Pricing.ValidateContracts: character rules, price fields and source provenance are left out; case folding is ASCII and query labels arrive trimmed.
- Score.AcceptsScores: surrounding white space is ASCII, which loses nothing because only digits and one point are accepted.
- Downshift.Plan.RetryAfterDenial: request rewriting, feature analysis and re-estimation are one given outcome, the same at both decisions.
- Forward.Proxy.Forward: a cleared request whose outgoing form cannot be built is counted by the policy although nothing is sent, as in the source; the receipt's `sent` tells the two apart. Which form goes out is stated for calls during which no other request acts and nothing outside fails; for a retry the local day must not have gone back since the guard was last asked. The plan's reasons, and its state where nothing was cleared, only feed response headers and are left out. It begins where the policy is first asked; header checks, identity, body limits, health probes, response streaming and metering are left out, and cost and usage of the settled row are arbitrary.
- Float64 rounding, NaN and infinities are left out everywhere; money is exact.
- HTTP, SSE, TLS, webhooks, MCP, the command line and the dashboard are plumbing around these parts.
- Ed25519, SHA-256 and the identity tokens appear only as confidence values.
- `internal/meter` and cache analysis would add only one-branch claims.
