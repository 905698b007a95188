# ModelDock in Dafny

ModelDock is a gateway between organizations and model providers: it picks a provider credential for
each request, meters and prices the tokens, relays the response, and keeps budgets, quality scores and
supplier settlements. This project models the parts where its guarantees are hardest to see from the
code and proves them for every input and every run.

| files | subject |
|---|---|
| `Text`, `Wrappers` | trimming, lower-casing, byte order of strings; `Option` and `Result` |
| `Decimals`, `Printing` | NUMERIC(30,12) decimals: parser, printer, exact arithmetic, JSON; the shortest spelling |
| `Settlement`, `Pricing`, `Margins`, `Reservation` | supplier split, the bill, the margin guard, reservations |
| `RoundRobin`, `Leases`, `Eligibility`, `Ordering`, `Selection`, `Preference` | credential scheduler and its Redis scripts; whom it prefers |
| `RateWindow` | the per-minute limiter |
| `Quality`, `QualityScore`, `QualityRuns` | provider score, circuit breaker and traffic ramp |
| `Relay` | the byte-limited response relay and its tail buffer |
| `RoutingPolicy`, `Constraints`, `Budget` | policy merge, constraint merge, budget levels and admission |
| `Provisioning`, `Credits`, `Fulfilment` | the enterprise provisioner, its worker, exactly-once credit, grants and failures |

Code that changes state step by step is a `class` or a `method` with loops, proved against a function of
its inputs; the laws are lemmas about that function. Money is counted in units of 10^-12 and `big.Rat` is
`real`; Redis scripts are single atomic steps and key expiry is an explicit step; clocks, store answers,
connections and crashes are parameters, and the theorems hold whatever they do unless they say otherwise.
`dafny verify dfyconfig.toml` checks everything.

## What came out

Where the code and what is said about it differ, the model follows the code:

- **Merging policies can relax them.** internal/domain/routing.go:5-7 promises that a request may narrow
  but never relax an inherited policy. An empty list means "no restriction", and intersecting two lists
  with nothing in common gives the empty list. `RoutingPolicy.DisjointRegionsRelax` is a concrete case;
  `RoutingPolicy.ListsNarrowIffNoClash` and `RoutingPolicy.RegionsNarrowIff` say exactly when it happens.
- **A request's preferred throughput and latency replace the workspace's.** They narrow exactly when they
  are at least as strict: `RoutingPolicy.ThroughputNarrowsIff`, `RoutingPolicy.LatencyNarrowsIff`.
- **A lease limit can be overrun without further expiry once a counter has fallen behind the live leases, and
  only then**: `Leases.OverrunIffBehind`. Expiry under a live lease is how a counter falls behind
  (`Leases.CountersExactIffIdleExpiry`); `Leases.ExpiryOverAdmits` overruns every limit that way.
- **Whether reserved funds cover the bill is decided by fully cached usage**: no usage within a reservation
  is billed more than was quoted if and only if the same usage with all input cached is not
  (`Reservation.ReservationCoversIff`). A cached rate no higher than the input rate is enough
  (`Reservation.ReservationDominates`), and of totals before promotion and rounding it is exactly what is
  needed (`Reservation.ReservationNeedsCheapCache`). `Reservation.DearCacheExceedsQuote` is a bill of twice its
  quote.
- **The margin guard** is described as testing a one-unit request (internal/pricing/pricing.go:128-131). It
  tests each price component; `Margins.GuardDecides` shows that this is the right test for all requests.
  Its "explicit exchange rate" error (line 144) cannot occur, the rate having been defaulted before. The
  printed lowest margin reads "0" on a refused price exactly when the loss is below half of 10^-12:
  `Margins.LossHiddenIff`, with rates that do so in `Margins.HiddenLoss`.
- **Suspending a supplier's link lifts its ramp.** A started ramp below full traffic that is evaluated while its
  link is not active gets full traffic and keeps it when the link resumes (`QualityRuns.SuspensionLiftsRamp`);
  the ramp bound holds throughout a run if and only if that does not happen (`QualityRuns.RampBoundIff`).
- **The printed quality score can read 90.0000 without an A**: grades are decided by the exact score. It happens
  exactly from 89.99995 up to 90 (`QualityScore.PrintedAboveGrade`).
- **Shared capacity refused by one constraint can be allowed by a later one**, unlike tags:
  `Constraints.RefusalSurvivesIff`.
- **The limiter's bound of twice the limit is attained for every limit** (`RateWindow.SpanBoundAttained`).
  The limits of each minute hold of all runs in which scripts run at most d seconds after their callers read
  the clock if and only if d is at most ten, the 70-second lifetime less the minute:
  `RateWindow.DelayAllowedIff`.

## Model

| member | source | states |
|---|---|---|
| `Decimals.PrintedReadsBack` | internal/domain/domain.go:20-35 | the 12-place rendering of every rational is a numeral that reads back as its half-away-from-zero rounding, and is an accepted decimal exactly when that rounding is below 10^18 |
| `Decimals.PrintedAmount` | internal/domain/domain.go:94-147 | parsing a rendering fails exactly out of range and otherwise gives the rounding, in a spelling that parses to itself |
| `Decimals.ParseStable` | internal/domain/domain.go:26-37 | what the parser returns it accepts unchanged, and every accepted amount is in range |
| `Decimals.AddExact` | internal/domain/domain.go:94-105 | addition is exact and fails if and only if the sum's magnitude reaches 10^18 |
| `Decimals.SubtractExact` | internal/domain/domain.go:107-121 | subtraction is exact and fails if and only if the difference's magnitude reaches 10^18 |
| `Decimals.MultiplyRounds` | internal/domain/domain.go:137-147 | multiplication rounds the exact product once and fails if and only if the rounded product is out of range |
| `Decimals.CompareIsNumeric` | internal/domain/domain.go:86-135 | comparison is the numeric order across spellings, and 0 exactly for one common rendering; negative means below zero |
| `Decimals.JsonRoundTrip` | internal/domain/domain.go:52-78 | what is marshalled is unmarshalled to the same spelling; bare numbers read like quoted ones |
| `Printing.FormatIsCanonical` | internal/pricing/pricing.go:243-253 | every rational prints as a canonical spelling of its rounding: no trailing zero, no bare point, no minus zero |
| `Printing.CanonicalUnique` | internal/pricing/pricing.go:243-253 | a number has one canonical spelling |
| `Printing.FormatRoundTrip` | internal/pricing/pricing.go:243-253 | two rationals print alike if and only if they round alike, and printing undoes reading on canonical spellings |
| `Decimals.RereadIsPrintedAndRead` | internal/settlement/calculator.go:30-33 | cutting a rational to twelve places is printing it and reading it back |
| `Settlement.SplitParts` | internal/settlement/calculator.go:20-50 | commission and reserve are the rounded shares of gross and of what commission leaves; payable is the remainder |
| `Settlement.PartIsNearest` | internal/settlement/calculator.go:29-38 | such a share is the nearest unit to amount times rate over 10000, halves up |
| `Settlement.SplitConserves` | internal/settlement/calculator.go:20-50 | a split succeeds if and only if gross is valid and non-negative and both rates lie in 0..10000; its parts are non-negative and add up to gross exactly |
| `Settlement.SplitBalances` | internal/settlement/calculator.go:20-50 | the same balance through decimal addition and comparison |
| `Settlement.CommissionDrift` | internal/settlement/calculator.go:29-38 | commission item by item differs from commission on the sum by at most (n+1)/2 units, for any n items |
| `Pricing.AcceptedInputs` | internal/pricing/pricing.go:61-105 | accepted inputs have non-negative prices, promotion and tax, a positive exchange rate, positive units and valid token counts |
| `Pricing.RejectedForFirstFailure` | internal/pricing/pricing.go:61-105 | a bill is made exactly when all ten checks pass, and is otherwise refused for the first that fails |
| `Pricing.BillSays` | internal/pricing/pricing.go:107-125 | for every accepted input, in the numbers its strings read as: the promotion taken off is the smaller of promotion and retail total, tax is rate times the rest, final is rest plus tax, margin is retail less converted cost, and each is printed as its rounding |
| `Pricing.FiguresAddUp` | internal/pricing/pricing.go:107-119 | rounded separately, capped promotion and pre-tax amount add up to the retail amount; pre-tax and tax miss the final amount by at most one unit |
| `Pricing.BillAddsUp` | internal/pricing/pricing.go:61-126 | the printed bill adds up for every accepted input |
| `Margins.ScanMargins` | internal/pricing/pricing.go:168-194 | the loop finds a smallest of the four margins and whether all are non-negative |
| `Margins.MeetsMinimumMargin` | internal/pricing/pricing.go:132-195 | bad input is refused for the first failing check; otherwise ok holds exactly when every request, of any token counts, sells for at least converted cost times (1 + bps/10000) plus the minimum, and the smallest of the four margins is printed |
| `Margins.TotalIsLinear` | internal/pricing/pricing.go:206-218 | the price of a request is linear in fresh input, cached input and output tokens |
| `Margins.GuardIsExact` | internal/pricing/pricing.go:168-195 | the four comparisons succeed if and only if every request covers its marked-up cost and the minimum |
| `Margins.GuardDecides` | internal/pricing/pricing.go:132-195 | the same in the arguments of the guard: prices, minimum, basis points and exchange rate as the strings read |
| `Margins.GuardedMarginNotNegative` | internal/pricing/pricing.go:107-125 | a guarded price is never billed at a negative gross margin |
| `Margins.LossHiddenIff` | internal/pricing/pricing.go:168-195 | the lowest margin prints as "0" on a refused price if and only if it is a loss of less than half a unit |
| `Margins.HiddenLoss` | internal/pricing/pricing.go:132-195 | accepted rates that are refused with a printed lowest margin of "0" |
| `Reservation.ReservedTotalDominates` | internal/pricing/pricing.go:206-218 | with cached no dearer than input, the total at maximum tokens and none cached is at least that of any usage within |
| `Reservation.ReservationNeedsCheapCache` | internal/pricing/pricing.go:206-218 | of totals before promotion and rounding: the reserved one is the largest if and only if cached is no dearer than input |
| `Reservation.BillsMonotone` | internal/pricing/pricing.go:107-125 | printed retail and final amounts keep the order of the totals through promotion, tax and rounding |
| `Reservation.ReservationDominates` | internal/server/gateway.go:394-406 | with cached no dearer than input, retail and final amount quoted for a reservation are at least those billed for any usage within it, after rounding |
| `Reservation.ReservationCoversIff` | internal/server/gateway.go:394-406 | every usage within a reservation is billed at most the quote if and only if fully cached usage is |
| `Reservation.DearCacheExceedsQuote` | internal/pricing/pricing.go:61-126 | accepted rates at which one token is quoted at 1 and billed at 2 |
| `RoundRobin.ScoreHash.ChooseWeighted` | internal/scheduler/scheduler.go:53-71 | the script's loop over the candidates leaves the hash, and picks the winner, that the round defines |
| `RoundRobin.ScoresSumToZero` | internal/scheduler/scheduler.go:53-71 | whatever candidates are offered, repeated ids and expiry included, the scores sum to zero |
| `RoundRobin.ChooseDistinct` | internal/scheduler/scheduler.go:53-71 | over distinct ids everyone gains its weight, the best score wins, smallest id first, and pays the total |
| `RoundRobin.ChosenWasOffered` | internal/scheduler/scheduler.go:92-98 | the choice is one of the candidates |
| `RoundRobin.ChooseReordered` | internal/scheduler/scheduler.go:53-71 | the order in which a round offers the candidates does not matter: the same one wins and all scores move alike |
| `RoundRobin.ScoresBalanced` | internal/scheduler/scheduler.go:53-71 | over any rounds that each offer one set of candidates in some order, scores sum to zero and none is a whole total weight below zero |
| `RoundRobin.ScoreIsShare` | internal/scheduler/scheduler.go:53-71 | over such rounds a score is the candidate's fair share so far minus what it was picked for |
| `RoundRobin.NeverFarFromShare` | internal/scheduler/scheduler.go:53-71 | over such rounds nobody is ever a full pick ahead of its share of the offered weights, a weight below 1 counting as 1, nor more than n-1 picks behind |
| `RoundRobin.BackToZero` | internal/scheduler/scheduler.go:53-71 | after as many such rounds as the total weight all scores are zero |
| `RoundRobin.EveryWindowIsFair` | internal/scheduler/scheduler.go:53-71 | every stretch of as many consecutive choices as the offered weights sum to, from one set offered in any order each round, picks each candidate exactly its offered weight times, a weight below 1 counting as 1 |
| `RoundRobin.PositiveWeightsAreTurns` | internal/scheduler/scheduler.go:92-98 | with weights of at least 1, exactly `weight` times in every stretch as long as the sum of the weights |
| `Leases.CounterStore.TryAcquire` | internal/scheduler/scheduler.go:44-48 | the acquire script: a slot below the limit, otherwise the counter as it was |
| `Leases.CounterStore.Release` | internal/scheduler/scheduler.go:49-52 | the release script: one less, the key gone at zero |
| `Leases.Lease.Release` | internal/scheduler/scheduler.go:124-129 | a lease gives its slot back once and then never again |
| `Leases.AcquireOrganizationConcurrency` | internal/ratelimit/ratelimit.go:106-140 | no limit is unavailable; otherwise one acquire, with a lease exactly when a slot was taken |
| `Leases.KeysApart` | internal/ratelimit/ratelimit.go:118-123 | every credential and every organization has a counter key of its own |
| `Leases.HoldersApart` | internal/scheduler/scheduler.go:73-85 | whatever other credentials and organizations do, a holder's counter, its live leases and the answer to its next request stay as they are |
| `Leases.LeasesBounded` | internal/scheduler/scheduler.go:44-52 | under any interleaving of acquires, releases and expiries a counter stays between 0 and the live leases and within its limit |
| `Leases.CountersExactIffIdleExpiry` | internal/scheduler/scheduler.go:44-52 | counters equal the live leases throughout a run if and only if no expiry strikes a key with a live lease |
| `Leases.LimitIsExact` | internal/ratelimit/ratelimit.go:106-114 | in such a run live leases never exceed the limit, a slot is refused exactly at the limit, and the count replied is that of the live leases |
| `Leases.ReleaseCountsOnce` | internal/scheduler/scheduler.go:124-129 | once a lease was released, releasing it again after any further steps changes nothing |
| `Leases.AcquireReleaseRestores` | internal/scheduler/scheduler.go:44-52 | after any run, taking a slot and giving it back restores every counter and every number of live leases, and leaves no key for a counter of zero |
| `Leases.OverrunIffBehind` | internal/scheduler/scheduler.go:44-52 | after any run, some continuation without expiry overruns the limit if and only if the counter is below the live leases |
| `Leases.ExpiryOverAdmits` | internal/scheduler/scheduler.go:46 | for every limit, an expiry under live leases lets one lease too many live |
| `Text.LessIsLexicographic` | internal/scheduler/scheduler.go:63 | the order of ids: proper prefixes first, otherwise by the first character that differs |
| `Text.TrimSpaceParts` | internal/domain/domain.go:26-37 | trimming takes exactly the white space off both ends |
| `Text.NormalSame` | internal/scheduler/scheduler.go:310-321 | two strings have one normal form exactly when, trimmed, they differ in case at most |
| `Eligibility.StringFilterMatches` | internal/scheduler/scheduler.go:310-321 | an empty filter passes all, otherwise some entry equals the value up to case and surrounding space |
| `Eligibility.MatchesCredentialTags` | internal/scheduler/scheduler.go:323-339 | true exactly when all required tags and no excluded tag are present |
| `Eligibility.BlockShared` | internal/scheduler/scheduler.go:168-182 | shared capacity is blocked exactly by the request or by some own credential that forbids the fallback |
| `Eligibility.IsEligible` | internal/scheduler/scheduler.go:184-199 | a credential passes exactly when tenant, owner, shared-capacity, filter and tag rules all do |
| `Ordering.SortSorts` | internal/scheduler/scheduler.go:228-256 | the sort is a permutation in which nobody stands behind a candidate it precedes |
| `Ordering.SwapKeepsOrder` | internal/scheduler/scheduler.go:257-279 | the round-robin swap keeps the candidates and the order by tier and priority, and puts the choice first |
| `Selection.RankCandidates` | internal/scheduler/scheduler.go:183-227 | the candidate loop lists the usable candidates in order, or fails with the first failed read |
| `Selection.ArrangeCandidates` | internal/scheduler/scheduler.go:228-279 | sort, choice and in-place swap give the final order |
| `Selection.SelectConstrainedForOrganization` | internal/scheduler/scheduler.go:143-299 | the whole selection, outcome for outcome |
| `Selection.SelectedIsUsable` | internal/scheduler/scheduler.go:168-299 | whatever others do, the selected credential passed every rule, was granted a slot, and everyone before it in the final order was refused one |
| `Selection.LoneNeedsNoChoice` | internal/scheduler/scheduler.go:257 | a lone candidate is selected without asking the rotation |
| `Selection.GivesUpOnlyWhenFull` | internal/scheduler/scheduler.go:143-299 | without interference there is no credential if and only if no eligible candidate has a free slot |
| `Selection.SelectsTheFirst` | internal/scheduler/scheduler.go:228-299 | without interference the selected credential is the policy's maximum, or the round-robin choice among those of the highest tier and priority |
| `Preference.AdmitsIffMayUse` | internal/scheduler/scheduler.go:168-199 | the rules in fields: not another tenant's, shared capacity open to the request, all three filters naming it up to case and outer space, tags present and absent as asked |
| `Preference.SelectedMayBeUsed` | internal/scheduler/scheduler.go:143-299 | whatever others do, the selected credential is one of the candidates that the request may use, with weight and priority settled |
| `Preference.NotBeforeIffPreferred` | internal/scheduler/scheduler.go:206-256 | the comparators in fields: own credentials before shared ones before the fallback; then least loaded by share of slots in use, or highest settled priority and weight per request; then the smaller id |
| `Preference.SelectedIsPreferred` | internal/scheduler/scheduler.go:183-299 | without interference the selected credential is preferred in that sense to every usable one; under rotation in class and priority |
| `Preference.OfferIsRotation` | internal/scheduler/scheduler.go:257-268 | the rotation is offered exactly the usable credentials of the foremost class and priority, at their settled weights |
| `Preference.RotationIsFair` | internal/scheduler/scheduler.go:257-279 | while the same credentials stay in front, every stretch of as many selections as their settled weights sum to selects each exactly its settled weight times |
| `RateWindow.Limiter.Allow` | internal/ratelimit/ratelimit.go:25-56 | defaults, both counters, verdict and retry time of one call |
| `RateWindow.CounterLifetime` | internal/ratelimit/ratelimit.go:26-29 | a counter absent or run out starts again and lives seventy seconds, a live one grows and keeps its end, others stay |
| `RateWindow.CountersAreExact` | internal/ratelimit/ratelimit.go:25-31 | a minute's counters are exactly the requests made in it and the tokens they ask for, at least one each, denied ones included, and expire seventy seconds after the first of them ran |
| `RateWindow.AdmittedIff` | internal/ratelimit/ratelimit.go:25-56 | a request is admitted if and only if, with all requests made before it in its minute, both limits hold, 60 and 100000 where none is set |
| `RateWindow.ReplyMeans` | internal/ratelimit/ratelimit.go:33-56 | the reply reports the counts so far and a wait until seventy seconds after the minute's first request ran, when the minute is over |
| `RateWindow.MinuteWithinLimits` | internal/ratelimit/ratelimit.go:33-56 | every minute admits at most rpm requests and tpm tokens of a key |
| `RateWindow.SpanWithinTwice` | internal/ratelimit/ratelimit.go:33-56 | every sixty seconds admit at most twice each, over every arrival sequence |
| `RateWindow.SpanBoundAttained` | internal/ratelimit/ratelimit.go:33-56 | for every request limit, and a token limit equal to it, a timely run admits twice both within sixty seconds |
| `RateWindow.LateScriptOverAdmits` | internal/ratelimit/ratelimit.go:25-44 | for every limit a script run eleven seconds late admits one request too many in its minute |
| `RateWindow.DelayAllowedIff` | internal/ratelimit/ratelimit.go:25-44 | the limits hold in all runs with delays of at most d if and only if d is at most ten seconds |
| `Quality.Evaluator.CollectBreaches` | internal/quality/evaluator.go:137-153 | the breach map is filled with exactly the failed checks |
| `Quality.Evaluator.EvaluateCircuit` | internal/quality/evaluator.go:155-181 | the in-place circuit step |
| `Quality.Evaluator.EvaluateRamp` | internal/quality/evaluator.go:183-214 | the in-place ramp step |
| `Quality.Evaluate` | internal/quality/evaluator.go:74-135 | the whole evaluation, by way of the in-place helpers |
| `QualityScore.ScoreIsFullLessLosses` | internal/quality/evaluator.go:93-112 | the score is 100 less 25, 15, 10, 10, 10, 10, 10, 5 and 5 times how far each of the nine targets is missed |
| `QualityScore.HalfwayCostsHalf` | internal/quality/evaluator.go:269-301 | errors halfway from maximum to 100 cost half their weight, half the availability target half of its, twice the allowed latency half of its |
| `QualityScore.OutageCapsGrade` | internal/quality/evaluator.go:93-116 | availability 0, or no latency and throughput measured, is graded C at best whatever else is measured; an error rate of 100, B at best |
| `QualityScore.GradeFollowsScore` | internal/quality/evaluator.go:113-119 | with enough samples grade and multiplier change at 90, 80, 70 and 60 of the exact score; with too few there is no grade; the printed score is the nearest |
| `QualityScore.PrintedAboveGrade` | internal/quality/evaluator.go:112-116 | a score printed as 90 or more goes with less than an A if and only if it lies in 89.99995 up to 90 |
| `QualityScore.TargetsMetScoreFull` | internal/quality/evaluator.go:93-119 | complete measurements without breach and with full output quality score 100, grade A, full multiplier |
| `QualityScore.CollectedIsBreached` | internal/quality/evaluator.go:137-153 | a check is in the breach set if and only if its measurement misses its threshold, with what was observed, the threshold and whether it is critical |
| `QualityScore.CriticalIsOutage` | internal/quality/evaluator.go:121-124 | an evaluation is critical if and only if availability, error rate or rate limiting fails |
| `QualityScore.BetterMetricsNoWorse` | internal/quality/evaluator.go:93-119 | scores lie in 0..100, and componentwise better metrics give no worse score, grade or multiplier and no new breach |
| `QualityScore.DisabledDecidesNothing` | internal/quality/evaluator.go:74-92 | a disabled policy grades nothing and changes nothing, but for a stored share outside 0..10000, which counts as full |
| `QualityRuns.CountersRemember` | internal/quality/evaluator.go:155-181 | in every run from a fresh state, closed or half open after a manual reset, the breach counter is the trailing critical evaluations, the recovery counter the trailing non-critical ones since the circuit last closed, and open-until is set exactly while open |
| `QualityRuns.CircuitHistory` | internal/quality/evaluator.go:121-181 | a counted evaluation leaves the circuit open if and only if it ends a critical streak of the failure threshold; open is left only when due; closed is re-entered if and only if a counted evaluation ends a recovery streak of the threshold; while open, multiplier and cap are zero |
| `QualityRuns.RampAdvance` | internal/quality/evaluator.go:183-214 | the ramp steps if and only if the link is active, the evaluation healthy and an interval has passed since its last step; without the link the cap is full |
| `QualityRuns.LinkStartsWithin` | internal/store/provider_quality.go:281-288 | a new link leaves a linked state at the initial share, within the ramp bound |
| `QualityRuns.RampBound` | internal/quality/evaluator.go:183-214 | from any state within it, a new link included, and while the link is active, the cap stays at most initial plus one step per full interval from start to last step, and at most full; a started ramp keeps its start, and its cap falls only when the circuit opens |
| `QualityRuns.RampBoundIff` | internal/quality/evaluator.go:183-214 | with links that come and go, the bound holds throughout a run if and only if no started ramp below full traffic is evaluated without its link, the circuit not being open |
| `QualityRuns.SuspensionLiftsRamp` | internal/quality/evaluator.go:184-187 | such an evaluation sets full traffic, above the ceiling, and keeps the old start |
| `Relay.BoundedChunkLimit` | internal/server/gateway.go:1056-1065 | a chunk passes whole or exactly up to the limit, and is reported cut exactly when it is |
| `Relay.TailCapture.Write` | internal/server/gateway.go:1339-1359 | shifted and appended in place, the buffer always holds the last bytes of everything written |
| `Relay.ForwardTurn` | internal/server/gateway.go:903-955 | one turn of the loop: what passes, what is captured, how it ends |
| `Relay.Forward` | internal/server/gateway.go:899-956 | over every run the captured and observed bytes are the limit's prefix of what upstream delivered, and the client got that prefix, short only of what its own failed write lost |
| `Relay.UndisturbedRelay` | internal/server/gateway.go:899-956 | an undisturbed stream reaches the client as the limit's prefix however it was cut into chunks, and is too large if and only if upstream exceeded the limit |
| `RoutingPolicy.UniqueLower` | internal/server/routing_policy.go:231-246 | the distinct non-blank normal forms in order of first appearance |
| `RoutingPolicy.RestrictiveStrings` | internal/server/routing_policy.go:211-229 | the other list if one is empty, otherwise the common entries |
| `RoutingPolicy.MergeProviderPolicies` | internal/server/routing_policy.go:92-125 | the merged policy, field by field |
| `RoutingPolicy.RestrictedNames` | internal/server/routing_policy.go:211-229 | the names of a merged list are exactly those of the one list that restricts, or those of both, and it is empty exactly when neither restricts or both do without overlap |
| `RoutingPolicy.ListsNarrowIffNoClash` | internal/server/routing_policy.go:211-229 | a merged list admits only what the inherited one does if and only if the lists do not both restrict without overlap |
| `RoutingPolicy.RegionsNarrowIff` | internal/server/routing_policy.go:97 | after the two successive intersections of regions, every candidate allowed is allowed by the workspace if and only if nothing clashes, or a clash with the allowed regions is made good by a request within the workspace's |
| `RoutingPolicy.PriceStays` | internal/server/routing_policy.go:266-278 | a price is within the merged ceiling if and only if it is within both |
| `RoutingPolicy.ThroughputNarrowsIff` | internal/server/routing_policy.go:118-120 | the merged minimum throughput admits only what the workspace's does if and only if the request does not lower it |
| `RoutingPolicy.LatencyNarrowsIff` | internal/server/routing_policy.go:121-123 | the same for the maximum latency, if and only if the request does not raise it |
| `RoutingPolicy.MergeNeverRelaxes` | internal/domain/routing.go:5-7 | without clashing lists, every candidate the merged policy permits the workspace's permits, by provider, capability, quantization, region, price, retention and collection, fallbacks and shared capacity once refused stay refused, and with preferences not relaxed, every candidate the router admits under the merged policy it admits under the workspace's |
| `RoutingPolicy.MergedListMeans` | internal/server/routing_policy.go:211-229 | what an intersected list lets through: everything if neither list restricts or both do without overlap, otherwise who is named by each that restricts, under one and the same name |
| `RoutingPolicy.MergePermitsIff` | internal/server/routing_policy.go:92-125 | exactly what the merged policy permits: not ignored by either side, capable of what both require, within both ceilings, private as any of the three settings asks, and let through by the intersected lists |
| `RoutingPolicy.RequestReplaces` | internal/server/routing_policy.go:98-114 | order and sort, and a data collection that nobody denies, are the request's where it has one and the workspace's elsewhere |
| `RoutingPolicy.DisjointRegionsRelax` | internal/server/routing_policy.go:211-229 | a workspace in "de" and a request for "us" leave no region restriction |
| `Constraints.MergeCredentialConstraints` | internal/server/budget.go:18-60 | sorted unions of normalized tags, last set value of the other fields |
| `Constraints.MergeUnique` | internal/server/budget.go:51-59 | the result does not depend on the order in which the maps are walked |
| `Constraints.MergedTagsAreEach` | internal/server/budget.go:15-35 | a credential passes the merged tags if and only if it passes each constraint; contradicting tags leave none |
| `Constraints.NormalTagsPass` | internal/scheduler/scheduler.go:323-339 | on normalized lists that is the scheduler's own test |
| `Constraints.RefusalSurvivesIff` | internal/server/budget.go:47-49 | a refusal of shared capacity survives if and only if no later constraint sets it |
| `Constraints.MergedTextIsLast` | internal/server/budget.go:37-50 | merged model, API key and member are the last one set, and empty when none is |
| `Budget.FormatIntAmount` | internal/server/budget.go:178-188 | a formatted token count parses if and only if it is below 10^18, to itself |
| `Budget.ReachedMeans` | internal/server/budget.go:150-212 | on valid values neither test fails and both are the numeric comparisons with the clamped, rounded threshold |
| `Budget.LevelMeans` | internal/server/budget.go:121-137 | exceeded exactly when an enforced limit is reached, a warning exactly when otherwise the threshold is |
| `Budget.LimitImpliesThreshold` | internal/server/budget.go:121-137 | with limits or usage not negative, reaching a limit reaches the threshold, so the level is quiet exactly below the threshold |
| `Budget.LevelClimbs` | internal/server/budget.go:121-137 | as usage grows the level never goes back |
| `Budget.AdmitProjectBudgets` | internal/server/budget.go:65-100 | admitted if and only if every active hard limit passes; rejected if and only if one blocks and all before it passed |
| `Budget.PassesMeans` | internal/server/budget.go:75-97 | in numbers and for every estimate: a request passes a policy exactly when it is no active hard limit or the estimate fits the tokens left and the cost limit is not reached |
| `Budget.ExceededStaysShut` | internal/server/budget.go:65-137 | after a commit reported a budget exceeded, no later request passes it while usage does not fall |
| `Provisioning.MockEnterprise.EnsureBinding` | internal/provisioning/mock_enterprise.go:40-61 | creates an account once; refuses a disabled adapter and another owner |
| `Provisioning.MockEnterprise.AllocateCredit` | internal/provisioning/mock_enterprise.go:69-98 | replay, currency check, exact addition and stored result, in one step |
| `Provisioning.Process` | internal/provisioning/worker.go:86-148 | every exit of a run of a job on its binding, failures classified as terminal or retried, and the calls made before a crash |
| `Credits.BindingIsStable` | internal/provisioning/mock_enterprise.go:40-61 | after any calls the same owner is given the same account, by set-up or refresh, another is refused |
| `Credits.OnlyEffectiveCallsMatter` | internal/provisioning/mock_enterprise.go:40-98 | refused and repeated calls, those that change nothing, can be dropped from any sequence of calls without changing the accounts |
| `Credits.ReplayReturnsStored` | internal/provisioning/mock_enterprise.go:79-81 | a repeated key returns its stored result and changes nothing, after any calls |
| `Credits.ExactlyOnceCredit` | internal/provisioning/mock_enterprise.go:69-98 | for every sequence of calls credit is the exact sum of the first accepted amounts over distinct keys |
| `Credits.WorkerCreditsExactlyOnce` | internal/provisioning/worker.go:86-148 | the same for every sequence of worker runs, cut off anywhere and retried |
| `Credits.KeyCountsOnce` | internal/provisioning/mock_enterprise.go:79-96 | an account's total is that of its other keys plus the amount of a key's first granted call, whatever the replays |
| `Credits.CreditedJobCountsOnce` | internal/provisioning/worker.go:86-148 | with a store that answers for the binding asked about and keeps one amount per binding and key, a job reported credited is counted once, on its own binding, with its amount, and reports the first result; no other account has its key unless another binding's job does |
| `Fulfilment.GrantedIff` | internal/provisioning/mock_enterprise.go:69-98 | a request is granted exactly when the adapter is enabled, the owner asks, and the key was granted before or currency and sum fit; a first grant adds the amount exactly; a refusal says which of the three it was |
| `Fulfilment.UndisturbedJobIsCredited` | internal/provisioning/worker.go:86-148 | after any attempts, an allocation job that registry, store and worker let through ends credited exactly when its key was granted before or its amount fits what the binding was credited so far |
| `Fulfilment.BindingEnds` | internal/provisioning/worker.go:110-138 | a refresh or set-up let through ends with the project bound, unless the account is another owner's, the adapter disabled or, for a refresh, no account there, which is final |
| `Fulfilment.LaterGates` | internal/provisioning/worker.go:121-140 | an allocation job whose binding is not set up and cannot be, or without an amount, makes no call and fails for good |
| `Fulfilment.OnlyCrashesCutOff` | internal/provisioning/worker.go:86-148 | only a crash cuts a run off, before any call or behind one that was made |
| `Fulfilment.StrippedJoins` | internal/provisioning/mock_enterprise.go:52 | dropping a character leaves the stretches between its occurrences, joined |
| `Fulfilment.NamesMeetIff` | internal/provisioning/mock_enterprise.go:52-58 | an account is named after the first twelve characters of its binding's id without dashes; all names of two accounts agree exactly when their projects do |
| `Fulfilment.ReferencesMeetIff` | internal/provisioning/mock_enterprise.go:94 | two keys get the same reference exactly when they differ only in colons against dashes |
| `Fulfilment.FirstGateStops` | internal/provisioning/worker.go:87-109 | a job with a gate in its way makes no call and fails for good with the code of the first |
| `Fulfilment.RetriedIff` | internal/provisioning/worker.go:165-188 | a failure is final unless attempts remain and it is a failed save or a refused amount or currency on the owner's account; the wait is fifteen seconds for each attempt made |

## Left out

- The SQL store: funding, journals, subscriptions, reconciliation. What the modelled code reads from it is a parameter.
- HTTP handlers, configuration, authentication, cryptography, email, and the provider, payment and payout adapters.
- Parsing of requests and policies from JSON (`requestProviderPolicy` and the like).
- Letters outside ASCII: `strings.ToLower`, `ToUpper` and `EqualFold` map only A to Z here.
- `float64`: the scheduler's load ratios are compared as exact rationals.
- 64-bit overflow of token sums, byte totals, counters and basis points; integers are unbounded.
- Malformed percentages in quality metrics and policies, which the evaluator reads as 0; they are rationals here.
- `AllowOrganization`, `AllowProvider` and `AllowIdentity`, whose scripts are the request half of `Allow`.
- The stream loop's heartbeats, flushes and first-byte timing, and what follows the loop (usage extraction, settlement).
- How the router ranks the candidates it admits, by order, sort or preference.
- Webhook and audit events of budgets, and the loop over policies in `commitProjectBudget`; its level choice is modelled.
- Manual circuit resets and new links as steps of a run: each is a start state of the theorems instead.
- Clock skew between callers and Redis beyond a delay between reading the clock and running the script.
- Leases: the remaining lifetime of a counter is not tracked; expiry may strike at any step.
- Leases: failed release calls, whose error is dropped (internal/scheduler/scheduler.go:291-294). They leave a counter above the live leases until it expires, which `LeasesBounded` does not cover.
- MockEnterprise: `Balance` and `TestFreeModel`, which only read. Its accounts are kept in memory; a crash is one of the worker, and the accounts are taken to survive it.
- RateWindow.Limiter.Allow: times are whole seconds.
- Provisioning.Process: credential encryption is left out, and a failing call to the store at the end of a run is the same as a run cut off there.
