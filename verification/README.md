# OI Pulse, verified

A Dafny model of the deterministic core of OI Pulse, an options-analytics platform: the backtest pipeline, the feature
engine, feed sessions and the request governor, the subscription planner, the bitemporal observation log and the
checkpoints over it, the alert router, the migration tracker, event application, and the migration-chain check.

`dafny verify dfyconfig.toml` checks the whole project.

## How it is built

One file per component. In each, a component's step is a function on values (`ApplyFill`, `Step`, `Acquire`, `Plan`,
`Route`, `Observe`, `Handle`, ...). Where the program works by changing state, a class or a method with the same fields
and loops is proved to do exactly that step. What the program promises is then proved of the steps over every run.
What a step itself decides is stated once more in plain fields, apart from the functions it is written with (`OutcomeExactly`,
`StrategyIsAsked`, `AcceptedExactly`, `DecisionExactly`, `VerdictsExactly`, `MigrationsDescribeTheRuns`, ...).

| file | component |
|---|---|
| `Prelude.dfy` | optional values and results; finite sums; the sorted listing of a set |
| `Rounding.dfy`, `Costs.dfy`, `Fills.dfy`, `Ledger.dfy` | rounding, costs, the fill simulator, the average-cost ledger |
| `Drawdowns.dfy`, `Runner.dfy` | the running drawdown; the scheduler loop, whole runs, and runs stopped and resumed |
| `FeatureKeys.dfy`, `Topology.dfy`, `Availability.dfy`, `Engine.dfy` | the dependency sort; availability and feature execution |
| `FeedValues.dfy`, `FeedRuns.dfy`, `Lifecycle.dfy` | feed sessions as values, over any calls, and as objects |
| `RateLimit.dfy`, `Subscription.dfy` | the sliding-window governor; the subscription planner |
| `Observations.dfy`, `Checkpoints.dfy` | the bitemporal log and its bounds; checkpoints against rebuilding |
| `Alerts.dfy`, `Migration.dfy`, `Events.dfy` | alert routing and restart; migration tracking; the inbox and the sequence check |
| `RevisionChain.dfy` | the migration-chain check |

Times are integers (microseconds), money and prices are `real`. Digests and hashed identifiers are modelled as the values they
hash, so two are equal exactly when their payloads are. Clocks, uniform draws, universes, risk gates, strategies, compute
functions and the assembly of a state's content are parameters.

## Where the code and its documentation part

The model follows the code. Each point names the member that states it.

- The fill simulator is documented to return an outcome and never raise. It raises when an intent that passes every rejection is
  priced below zero, because the cost schedule refuses negative turnover (`Fills.RaisesExactlyBelowZero`); the run then ends.
- With zero latency every approved intent is filed under a step already executed (`Backtest.NoLatencyNothingRuns`).
- A resumed run agrees with an uninterrupted one exactly if no approval made before the stop was due after it; those are lost, and
  the drawdown starts again from opening cash (`Resuming.ResumeExactly`, `Resuming.ResumedDrawdown`).
- Where there is an order, it is independent of how specs are listed exactly if keys are unique
  (`Topology.OrderIgnoresListingIffUnique`).
- A feature whose compute returns an empty list lands in none of the three places (`FeatureEngine.ExactlyOnePlace`).
- On a clock that may go back, the quota is kept exactly by policies of one request or an empty window
  (`RateLimiting.QuotaOnEveryClockExactly`).
- On the supersede path the reconnect window is ordered only if two clock reads agree (`FeedRuns.WindowOrderedIff`); and a message
  is refused only if no session was ever opened, not when none is open (`FeedSessions.SessionManager.Record`).
- The planner counts GREEKS and LTPC as one pool but allocates them apart, so a plan may take one connection more than the
  maximum (`Subscription.ConnectionLimit`). Its refusal says the protected instruments alone do not fit; it means that the last
  of three sheddings does not (`Subscription.RefusedIffLastFails`, `Subscription.RefusedWithNothingProtected`). Shedding an
  instrument listed twice removes both and records one (`Subscription.RepeatsAreLostExactly`, `Subscription.PlanConservesExactly`).
- A checkpoint answers from the log it was built from. That is a rebuild's answer while later rows are stamped after its horizon
  (`Checkpoints.CacheAgreesWithRebuild`), and exactly while none of them moves a query the build makes (`Checkpoints.StaleExactly`).
- Application is in order and once while no reachable place has two event ids, and where ids name places only then
  (`Events.InOrderOnceExactly`).
- The cooldown is described per stream but keyed by the signal's identity, which includes its market time; another evaluation of
  the same stream is not held back (`Alerts.CooldownKnowsOnlyTheSignal`, `Alerts.StreamAlertsTwiceWithinCooldown`).
- A migration is confirmed from its second window at the earliest, even when one window is set to suffice (`Migration.TrackerSegments`).
- An unnamed revision that something depends on is counted as a head (`RevisionChain.UnnamedRootIsRefused`).

## Model

| member | source | states |
|---|---|---|
| Rounding.HalfUp | oipulse/backtest/costs.py:33-37 | The nearest integer, at most a half away, ties going away from zero |
| Costs.RoundIsPaise | oipulse/backtest/costs.py:33-37 | A rounded charge is a whole number of paise |
| Costs.PaiseFixed | oipulse/backtest/costs.py:33-37 | Rounding an amount already in whole paise changes nothing |
| Costs.CostModel.Charge | oipulse/backtest/costs.py:117-143 | Fails exactly for a negative turnover; otherwise charges whole paise, transaction tax on sells only, stamp duty on buys only |
| Costs.ChargeIsNearExact | oipulse/backtest/costs.py:117-143 | The total charged is, to three paise, the lower of flat and proportional brokerage, exchange and SEBI fees, tax on those services, and the duty of the side |
| Costs.TotalIsExact | oipulse/backtest/costs.py:40-75 | For charges in whole paise, rounding the total loses nothing, fill by fill or summed |
| Costs.TotalIsSixCharges | oipulse/backtest/costs.py:40-75 | A total is the brokerage, transaction tax, exchange charges, services tax, stamp duty and SEBI charges together, rounded to the paisa |
| Fills.RoundToTickNearest | oipulse/backtest/fills.py:187-190 | The rounded price is on the tick grid, at most half a tick away, ties away from zero |
| Fills.RoundToTickMonotone | oipulse/backtest/fills.py:187-190 | Rounding to the tick never reverses two prices |
| Fills.QuoteSaysWhereItIsFrom | oipulse/backtest/fills.py:267-301 | A quote is the observed one exactly when there is one that is not crossed, and is labelled so; otherwise the declared spread lies evenly around the last trade, if any |
| Fills.MarketFillNeverBeatsMid | oipulse/backtest/fills.py:303-338 | A market fill is never better than the mid by more than half a tick, for every state and model with positive tick and non-negative slippage |
| Fills.SlippageModelsOrdered | oipulse/backtest/fills.py:303-338 | On one quote the fill prices are ordered MID, TOUCH, SIZE_IMPACT against the trader |
| Fills.FractionAgainstTouch | oipulse/backtest/fills.py:303-338 | FRACTION_OF_SPREAD is no better than MID; within TOUCH up to one half, beyond it from there |
| Fills.SizeImpactMonotone | oipulse/backtest/fills.py:303-338 | Under SIZE_IMPACT a larger order never fills at a better price |
| Fills.RawByModel | oipulse/backtest/fills.py:303-338 | The price before rounding, per slippage model: the mid; the far side; the mid and a fraction of the spread; the far side and a fraction of the spread times the share of the volume |
| Fills.FillPriceIsRawOnGrid | oipulse/backtest/fills.py:303-338 | The fill price is that price rounded to the tick, or itself without one |
| Fills.FindLegIsFirst | oipulse/backtest/fills.py:459-464 | The leg priced is the first of the instrument, and none exactly when there is none |
| Fills.FillIsFaithful | oipulse/backtest/fills.py:354-456 | Every fill carries its intent and side, the quantity the participation cap allows, decision time plus latency, the source and mid of the quote it was priced from, the slippage price on the grid or an exact limit that price does not pass, a non-negative price, and the charges of its turnover in whole paise |
| Fills.OutcomeExactly | oipulse/backtest/fills.py:354-456 | Every outcome, exactly: each rejection reason is given when its guard is the first to fail, the simulator raises when all pass and the price to charge is negative, and the order is filled in every other case |
| Fills.ParticipationCapped | oipulse/backtest/fills.py:340-351 | A partial fill takes at most the declared share of the observed volume, and when cut, all of its whole part; where it does not apply, the whole request |
| Fills.RaisesExactlyBelowZero | oipulse/backtest/fills.py:354-456 | The simulator raises exactly when an intent that passes every rejection is to be charged at a price below zero |
| Fills.SellBelowZeroRaises | oipulse/backtest/costs.py:117-143 | A concrete sell for which it does |
| BookKeeping.MergeConserves | oipulse/backtest/ledger.py:256-295 | Basis gained = paid + realized, over add, reduce, close and reverse through flat; adding realizes nothing, reducing keeps the average, a reversal starts at the fill price |
| BookKeeping.NextPositionConserves | oipulse/backtest/ledger.py:222-251 | A fill moves its instrument's basis by what was paid plus what was realized |
| BookKeeping.LedgerIdentity | oipulse/backtest/ledger.py:222-295 | After any sequence of fills, cash + cost basis = opening cash + realized - fees |
| BookKeeping.OpenPositionsExactly | oipulse/backtest/ledger.py:201-207 | The open book lists each open position once, by increasing instrument |
| BookKeeping.EquityIsOpeningPlusNet | oipulse/backtest/ledger.py:96-116 | Equity = opening cash + net P&L for every marks map, complete or partial |
| BookKeeping.UnmarkedExactly | oipulse/backtest/ledger.py:299-326 | A position is named as unmarked exactly when it is open and has no mark |
| BookKeeping.EquityAtMarksOrCost | oipulse/backtest/ledger.py:299-326 | Equity = cash + quantity times mark where there is a mark and quantity times average price where there is none |
| BookKeeping.FullyMarkedEquity | oipulse/backtest/ledger.py:299-326 | With every open position marked, equity = cash + sum of quantity times mark |
| BookKeeping.DuplicatesAreFree | oipulse/backtest/ledger.py:222-254 | Applying a sequence leaves the book its first occurrences leave, but for the duplicate count |
| BookKeeping.EveryCallCounts | oipulse/backtest/ledger.py:179-186 | Applied plus duplicates grow by exactly one per call |
| BookKeeping.ReplayIsIdempotent | oipulse/backtest/ledger.py:222-254 | Redelivering any of the fills changes nothing but the duplicate count |
| BookKeeping.IgnoredExactly | oipulse/backtest/ledger.py:222-228 | A fill is ignored exactly when one of its intent, quantity and price was received; it then only counts as a duplicate |
| BookKeeping.CashIsSumOfFills | oipulse/backtest/ledger.py:235-251 | Cash, fees and slippage are sums over the set of distinct fills received: what each side pays or receives, its charges, and what it lost against the mid |
| BookKeeping.SnapshotReportsFills | oipulse/backtest/ledger.py:299-326 | A snapshot reports those sums, and as many fills as were distinct |
| BookKeeping.QuantityIsSumOfFills | oipulse/backtest/ledger.py:235-251 | Net quantity per instrument is the signed sum of its distinct fills |
| BookKeeping.OrderDoesNotMatter | oipulse/backtest/ledger.py:222-295 | Two deliveries of the same fills, in any order, give the same cash, fees, quantities and fully-marked equity |
| BookKeeping.RealizedDependsOnOrder | oipulse/backtest/ledger.py:256-295 | The same three fills realize 15 in one order and 20 in another |
| BookKeeping.FeesAreTheBreakdownTotal | oipulse/backtest/ledger.py:235-239 | With charges in whole paise, the fees paid are exactly the accumulated breakdown's total |
| BookKeeping.FeesDriftOffTheGrid | oipulse/backtest/ledger.py:235-239 | Off the paise grid they are not: two half-paisa charges |
| BookKeeping.Ledger.constructor | oipulse/backtest/ledger.py:143-156 | A ledger opens with its cash and nothing else |
| BookKeeping.Ledger.Apply | oipulse/backtest/ledger.py:222-251 | The new book is the specified one; false exactly for a fill whose key was applied before |
| BookKeeping.Ledger.ApplyEach | oipulse/backtest/ledger.py:253-254 | Fills in order; the result counts first occurrences |
| BookKeeping.Ledger.Snapshot | oipulse/backtest/ledger.py:299-326 | The snapshot is that of the specification, from the open book in order |
| Drawdowns.PeakIsMaximum | oipulse/backtest/runner.py:149-152 | The running peak is the largest of opening cash and the equities read |
| Drawdowns.DrawdownIsLargestFall | oipulse/backtest/runner.py:174-177 | The one-pass drawdown is the largest fall between any earlier and later level, opening cash being the first: an upper bound that is attained |
| Drawdowns.DrawdownInTwo | oipulse/backtest/runner.py:149-177 | Of readings in two parts the drawdown is the larger of the first part's and the second's from the first's peak; the second's from opening cash is no more |
| Backtest.FirstFromIsFirst | oipulse/backtest/runner.py:94-104 | The due step is the first at or after the target; none exactly when there is none |
| Backtest.DueExactly | oipulse/backtest/runner.py:94-104 | An intent is due at the first step not before its decision plus the latency, and never exactly when there is none |
| Backtest.ExecutionStepIndex | oipulse/backtest/runner.py:94-104 | The search loop finds that step for a decision plus the latency |
| Backtest.FirstAnswerWins | oipulse/backtest/runner.py:254-279 | An intent gets the answer of the first state able to price it, and "no price" exactly when none is |
| Backtest.SimulatorAnswers | oipulse/backtest/fills.py:354-456 | Every outcome of the simulator answers the intent it was asked about, as the scheduler relies on |
| Backtest.StrategyIsAsked | oipulse/backtest/runner.py:179-252 | What a run has on offer is exactly the strategy's answers, step by step and underlying by underlying, each shown the cash and the open positions after that step's fills; what it filed is exactly those of them that pass the gate in time |
| Backtest.RunFailsExactly | oipulse/backtest/runner.py:160-167 | A run fails exactly when, at a step it reaches, the simulator raises on an approval due there |
| Backtest.MarkIsLastTraded | oipulse/backtest/runner.py:107-119 | The mark of an instrument is the last last-traded price among the legs of a step's states, and there is one exactly if some leg has one |
| Backtest.IntentsConserved | oipulse/backtest/runner.py:179-208 | At every point of a run: generated = risk-rejected + expired + outcomes + still filed |
| Backtest.RunsIffDueLater | oipulse/backtest/runner.py:160-199 | Over a whole run an approval runs exactly when its due step comes after its own, then exactly once, and its outcome answers it; nothing else runs |
| Backtest.StepAnswersWhatIsDue | oipulse/backtest/runner.py:162-167 | A step's outcomes are the simulator's answers, on that step's states, to exactly what was due there, in order of approval |
| Backtest.AnsweredWhenDue | oipulse/backtest/runner.py:160-199 | An approval due after its own step is answered among the outcomes of exactly its due step, from that step's states |
| Backtest.DueAgainstLatency | oipulse/backtest/runner.py:94-104 | The due step is the first not before decision plus latency, and comes after the deciding step exactly when the latency is positive |
| Backtest.EveryApprovalRunsOnce | oipulse/backtest/runner.py:123-208 | With ordered steps, own stamps and positive latency, nothing is left filed; every approval runs exactly once and is answered among the outcomes of the first step not before its decision plus the latency |
| Backtest.NoLatencyNothingRuns | oipulse/backtest/runner.py:188-208 | Without latency every approval is left stranded and nothing executes |
| Backtest.LossWithinDrawdown | oipulse/backtest/runner.py:149-177 | At every point of a non-empty run, net P&L >= -max drawdown |
| Backtest.LedgerIsItsFills | oipulse/backtest/runner.py:162-167 | The ledger a run leaves is the ledger of the fills it reports, in order, and nothing else |
| Resuming.ResumeExactly | oipulse/backtest/runner.py:123-158 | A run that completes can be stopped and resumed with its ledger, agreeing with itself at every later step, exactly if no approval made before the stop was due after it |
| Resuming.ResumedDrawdown | oipulse/backtest/runner.py:149-177 | A resumed run that agrees reports the second part's drawdown from opening cash, no more than the uninterrupted one, which is the larger of the first part's and the second's from the first's peak |
| Backtest.SimulatorChargesPaise | oipulse/backtest/fills.py:435-437 | Every simulated fill is charged in whole paise |
| Backtest.RunFeesAreExact | oipulse/backtest/ledger.py:235-239 | The fees a run reports are exactly the total of its cost breakdown |
| Backtest.ExecuteIntent | oipulse/backtest/runner.py:254-279 | The loop over states gives that answer and applies its fill to the ledger |
| Backtest.ExecuteDue | oipulse/backtest/runner.py:162-167 | Everything due executes in order; outcomes and ledger are the specified ones |
| Backtest.GateAndSchedule | oipulse/backtest/runner.py:184-199 | Gating and filing give the specified counters and pending lists |
| Backtest.DecideStep | oipulse/backtest/runner.py:180-199 | Every underlying of the step is asked, in order |
| Backtest.RunStep | oipulse/backtest/runner.py:160-199 | One step executes, measures and decides as specified |
| Backtest.Run | oipulse/backtest/runner.py:123-226 | The nested loops leave the ledger, counters, outcomes, drawdown and final snapshot of the specified run, or its failure |
| Topology.OrderIffAcyclic | oipulse/analytics/engine.py:42-71 | The sort succeeds exactly when the chosen features have no dependency cycle; the order lists each once, after all it consumes; a refusal's path ends in a cycle |
| Topology.OrderIgnoresListing | oipulse/analytics/engine.py:42-71 | With unique keys the order depends only on the set of specs |
| Topology.OrderIgnoresListingIffUnique | oipulse/analytics/engine.py:42-71 | Where there is an order, it is the order of every listing of the same specs exactly if no two share a key |
| Topology.TiesBrokenByKey | oipulse/analytics/engine.py:42-71 | Ties go by key: a feature listed before one of a smaller key is consumed, itself or through others, by one of a key no greater than that |
| FeatureKeys.KeysSortAsTuples | oipulse/analytics/engine.py:63-70 | Keys sort by identifier, character by character, then by version |
| Topology.Sorter.VisitKey | oipulse/analytics/engine.py:53-67 | The recursive visit over three-colour marks is the specified walk |
| Topology.TopologicalOrder | oipulse/analytics/engine.py:42-71 | The sort over sorted keys returns the specified order or cycle |
| Availability.LatestInputIsMaximum | oipulse/analytics/availability.py:63-73 | The latest input is the maximum of the raw and dependency times, none exactly when there is none |
| Availability.AvailableAfterLastCondition | oipulse/analytics/availability.py:76-80 | Available a full delay after the last condition, and no later |
| Availability.NoViolationIffAfterEveryCondition | oipulse/analytics/availability.py:83-106 | The check reports nothing exactly when every condition is met |
| FeatureEngine.ReportIsSelfConsistent | oipulse/analytics/engine.py:144-204 | Each chosen spec is skipped for quality, skipped for an unresolved dependency, absent, or computed from exactly the values in the final report |
| FeatureEngine.VerdictsExactly | oipulse/analytics/engine.py:144-204 | Skipped for quality exactly when requirements are unmet; for a dependency exactly when they are met and something declared has no value; otherwise the report holds what the compute answers when shown the market time, computation time, raw ingestion and the declared dependencies' values, each under its own name |
| FeatureEngine.ExactlyOnePlace | oipulse/analytics/engine.py:144-204 | Each lands in exactly one of computed, absent and skipped, unless its compute returned an empty list: then in none; what is computed has every dependency computed |
| FeatureEngine.ValueAfterInputs | oipulse/analytics/emit.py:22-64 | A value is available no earlier than each of its inputs plus its own delay |
| FeatureEngine.AvailableOnceWaited | oipulse/analytics/emit.py:22-64 | It is available just its own delay after the last of the market time, the computation, the raw observations and its dependencies' availability |
| FeatureEngine.NoLookAhead | oipulse/analytics/engine.py:144-204 | Along any dependency chain, a value is available no earlier than raw ingestion, market time and computation, plus the sum of the chain's delays |
| FeatureEngine.Run | oipulse/analytics/engine.py:144-204 | The loop produces the specified report, or the cycle |
| RateLimiting.QuotaHolds | oipulse/marketdata/ratelimit.py:100-128 | With a clock that does not go back, no half-open interval of one window holds more grants than the quota, over every run |
| RateLimiting.GrantedExactly | oipulse/marketdata/ratelimit.py:100-145 | On a clock that does not go back a request is granted exactly when no penalty lasts and fewer than the quota were granted in the window that ends with it, and is told what is left; the reported budget is that too |
| RateLimiting.QuotaOnEveryClockExactly | oipulse/marketdata/ratelimit.py:100-128 | The policies that keep their quota on every clock, one that steps back included, are exactly those of one request or of an empty window |
| RateLimiting.WaitIsExact | oipulse/marketdata/ratelimit.py:114-125 | After any refused early retries, the next attempt is granted exactly from now + wait on |
| RateLimiting.BackoffIsKept | oipulse/marketdata/ratelimit.py:106-138 | Over any run and any clock, an attempt after a penalty and before the next is refused for backoff exactly while the penalty lasts, and told to wait for exactly its end |
| RateLimiting.RemainingAgreesWithAcquire | oipulse/marketdata/ratelimit.py:140-145 | Outside a backoff a request is granted exactly when some budget is left, and then one less is |
| RateLimiting.RateLimitGovernor.constructor | oipulse/marketdata/ratelimit.py:88-95 | Every endpoint starts fresh |
| RateLimiting.RateLimitGovernor.TryAcquire | oipulse/marketdata/ratelimit.py:100-128 | The loop over the window gives the specified decision and state, other endpoints untouched; no policy is an error |
| RateLimiting.RateLimitGovernor.Penalised | oipulse/marketdata/ratelimit.py:130-138 | The endpoint backs off until now + retry, others untouched |
| RateLimiting.RateLimitGovernor.BudgetLeft | oipulse/marketdata/ratelimit.py:140-145 | The count of live hits gives the specified budget |
| FeedRuns.WatermarkIsMaximum | oipulse/marketdata/lifecycle.py:271-295 | The watermark is the largest sequence seen |
| FeedRuns.MissingAccounts | oipulse/marketdata/lifecycle.py:106-110 | Watermark - first = advances + everything reported missing, for any order, repetition or loss |
| FeedRuns.SessionHistory | oipulse/marketdata/lifecycle.py:195-248 | Over any calls: only the last session may be open, ordinals are positions, n sessions carry n - 1 reconnect gaps, one per adjacent pair, and drains concatenate to a prefix of the gaps |
| FeedRuns.GapAccounting | oipulse/marketdata/lifecycle.py:250-295 | In every session and channel, after any calls, the watermark is the largest tracked sequence, the recorded gaps are exactly the holes found there, and its rise is the later advances plus the missing counts of those gaps |
| FeedRuns.WindowOrderedIff | oipulse/marketdata/lifecycle.py:207-241 | A reconnect window is ordered exactly when the previous session was closed first or both clock reads agree |
| FeedRuns.MessagesAreHeard | oipulse/marketdata/lifecycle.py:250-275 | After any calls the last session knows its opening, the number of messages since, and when the last of them came |
| FeedRuns.StaleSpansTheSilence | oipulse/marketdata/lifecycle.py:311-327 | A stale record spans from the last message since the opening, or the opening, or with no session nothing, to now |
| FeedSessions.StreamingIsEarned | oipulse/marketdata/lifecycle.py:56-80 | Over any moves asked for, a connection streams or recovers only after subscribing, and without a disconnection since; subscribing only after authenticating, and that only after connecting |
| FeedSessions.StoppedIsFinal | oipulse/marketdata/lifecycle.py:56-80 | A stopped connection stays stopped |
| FeedSessions.SessionManager.Transition | oipulse/marketdata/lifecycle.py:169-176 | The state changes exactly when the table permits, as one move of any sequence of them |
| FeedSessions.SessionManager.DrainNewGaps | oipulse/marketdata/lifecycle.py:195-205 | Hands over exactly what was recorded since the last drain |
| FeedSessions.SessionManager.Close | oipulse/marketdata/lifecycle.py:243-248 | Closes an open session, else nothing |
| FeedSessions.SessionManager.Open | oipulse/marketdata/lifecycle.py:207-241 | Supersedes an open session, records the reconnect gap, and makes the new one current |
| FeedSessions.SessionManager.Record | oipulse/marketdata/lifecycle.py:250-297 | Updates the session and records the gap revealed; an error exactly when no session was ever opened |
| FeedSessions.SessionManager.MarkStale | oipulse/marketdata/lifecycle.py:311-327 | Records the stale-feed gap since the last message or the opening |
| Subscription.AllocationOk | oipulse/marketdata/subscription.py:208-226 | The allocation covers each mode in order, within its budget per connection, numbered consecutively |
| Subscription.ConnectionLimit | oipulse/marketdata/subscription.py:180-206 | The connections allocated exceed the maximum exactly when GREEKS and LTPC are both present and one pool's count already reached it; then by one |
| Subscription.PlanKeepsLimits | oipulse/marketdata/subscription.py:163-282 | A plan to subscribe drops nothing protected, counts what it plans, stays within the provider's limits less the reserve on each connection and for FULL and for the other modes together, and exceeds the maximum by one connection at most |
| Subscription.AcceptedExactly | oipulse/marketdata/subscription.py:163-206 | A request is accepted exactly when FULL, and the others together, are within the provider's limits less the reserve and one connection for either kind (2^30 where neither limit leaves room for one instrument) is within the maximum; each mode is then allocated just what was asked for |
| Subscription.PlanConservesExactly | oipulse/marketdata/subscription.py:163-334 | Allocated plus dropped is the request exactly if the plan was accepted or everything it shed had been asked for once in the list it was shed from |
| Subscription.PlanConserves | oipulse/marketdata/subscription.py:163-334 | So it is for every request that fits, or that repeats no unprotected instrument in LTPC or in FULL and GREEKS together |
| Subscription.PlanIsFirstFit | oipulse/marketdata/subscription.py:228-282 | The verdict is the earliest that fits: the request, else the first rung that fits, each mode allocated just what that rung leaves, else refusal with nothing allocated and the last rung's record |
| Subscription.ShedTakesTheTail | oipulse/marketdata/subscription.py:319-334 | Of a mode's list the tail is shed: every unprotected instrument after a victim is a victim |
| Subscription.ShedIsAQuarter | oipulse/marketdata/subscription.py:319-334 | The victims are the last quarter of a mode's unprotected instruments, rounded down, at least one |
| Subscription.LadderStartsByDemoting | oipulse/marketdata/subscription.py:234-245 | Where FULL has something unprotected, the first rung moves exactly that to GREEKS and drops nothing |
| Subscription.RungSteps | oipulse/marketdata/subscription.py:228-264 | The steps recorded name what was done, in the ladder's order |
| Subscription.RefusedIffLastFails | oipulse/marketdata/subscription.py:228-282 | For every request, refusal means exactly that neither it nor the last rung of the ladder fits |
| Subscription.RefusedExactly | oipulse/marketdata/subscription.py:228-282 | By counts, where no unprotected instrument repeats in a list: refused exactly when the request does not fit and would not with unprotected FULL moved to GREEKS and a quarter of each mode's unprotected instruments shed three times |
| Subscription.RefusedWithNothingProtected | oipulse/marketdata/subscription.py:265-282 | So with nothing protected, where nothing would have to stay, a request that does not fit is refused exactly when what three sheddings of a quarter leave exceeds the shared quota |
| Subscription.RepeatsAreLostExactly | oipulse/marketdata/subscription.py:319-334 | Shedding a list records everything it removes exactly if each victim was listed once |
| Subscription.SubscriptionPlanner.AllocateMode | oipulse/marketdata/subscription.py:216-225 | The slicing loop appends the mode's connections |
| Subscription.SubscriptionPlanner.AllocateAll | oipulse/marketdata/subscription.py:208-226 | The three modes in order |
| Subscription.SubscriptionPlanner.ShedTail | oipulse/marketdata/subscription.py:319-334 | The loop over modes sheds each tail in turn |
| Subscription.SubscriptionPlanner.DegradeByShedding | oipulse/marketdata/subscription.py:247-282 | The shedding loop returns the plan from where it starts |
| Subscription.SubscriptionPlanner.Degrade | oipulse/marketdata/subscription.py:228-282 | The ladder returns the plan of a request that does not fit |
| Subscription.SubscriptionPlanner.PlanFor | oipulse/marketdata/subscription.py:163-178 | The planner returns the plan |
| Observations.BoundAdmitsExactly | oipulse/marketstate/builder.py:227-266 | Admits exactly observed <= T, observed <= K, ingested <= K; the literal pair for rows without clock skew, a subset of it for the others |
| Observations.BoundGrows | oipulse/marketstate/builder.py:227-266 | Admission is monotone in K |
| Observations.LatestIsNewest | oipulse/marketdata/store/memory.py:107-119 | A query returns the one visible, uncorrected row no other is later than, and nothing exactly when there is none |
| Observations.AnswerIsNewestKnown | oipulse/marketdata/store/memory.py:84-119 | A read at (T, K) answers a row of the asked instrument and kind, observed by T and K, ingested by K, corrected by no such row, and observed no earlier than any other of them; nothing exactly when there is none |
| Observations.VisibleRowsDecide | oipulse/marketdata/store/memory.py:84-119 | A query's answer depends on the rows its bound admits and on no other |
| Observations.AppendedVisibleIff | oipulse/marketdata/store/memory.py:84-105 | Appending rows leaves what is visible alone exactly when none is admitted |
| Observations.AnswerChangesExactly | oipulse/marketdata/store/memory.py:84-119 | Appended rows change an answer exactly if one of them is live and no earlier than it, or corrects it |
| Observations.CorrectionTakesOver | oipulse/marketdata/store/memory.py:107-119 | A corrected row is never returned while its correction is visible, and stays a candidate while it is not |
| Observations.ReplayAddsNothing | oipulse/marketdata/store/memory.py:58-80 | Replaying a batch, or any rows already written, adds nothing |
| Observations.AppendAddsTheUnseen | oipulse/marketdata/store/memory.py:58-80 | A batch adds, in order, exactly its rows whose kind and key no earlier row has |
| Observations.ObservationStore.Append | oipulse/marketdata/store/memory.py:58-80 | The loop leaves the specified log and counts what was new and what was suppressed |
| Observations.ObservationStore.LatestUnder | oipulse/marketdata/store/memory.py:107-119 | The scan returns the specified row |
| Checkpoints.LateRowsChangeNothing | oipulse/marketstate/builder.py:270-345 | Rows ingested after K leave every build at K as it was |
| Checkpoints.BuildHonoursRequest | oipulse/marketstate/builder.py:270-345 | A build carries the underlying, market time and context asked for and the knowledge horizon asked for, the market time where none was; its content is assembled from the newest known answers at just those times |
| Checkpoints.BuildIgnoresTheRest | oipulse/marketstate/builder.py:227-345 | Logs that hold the same rows ingested by the horizon asked for and observed by the market time build the same, whatever else they hold |
| Checkpoints.RequestsAreHonoured | oipulse/marketstate/checkpoints.py:163-218 | At every point of a run a get or a materialization answers for just the underlying, market time, horizon and context asked for, from what that horizon knew of a log the run has had |
| Checkpoints.StoringAgainIsSkipped | oipulse/marketstate/checkpoints.py:105-120 | What is stored is found under its identity; storing the same content again only counts as skipped |
| Checkpoints.CacheIsLastBuild | oipulse/marketstate/checkpoints.py:86-120 | After every run the store holds, per identity, the content of the build that last wrote it, and nothing else |
| Checkpoints.GetAnswers | oipulse/marketstate/checkpoints.py:170-201 | A get returns the build of the log its identity was last built from, and counts as a reuse, else of the log now |
| Checkpoints.CacheAgreesWithRebuild | oipulse/marketstate/checkpoints.py:170-218 | Over any interleaving of ingest, checkpoint and get with late rows stamped after K, a get returns what a fresh build would, up to the assembly time |
| Checkpoints.StaleExactly | oipulse/marketstate/checkpoints.py:170-201 | For every way of assembling contents, a stored answer is what a rebuild gives exactly while no row logged since moves the answer of a query the build makes |
| Checkpoints.MaterializingRepairs | oipulse/marketstate/checkpoints.py:105-120 | Checkpointing again brings the answer up to date |
| Checkpoints.GetsAreCounted | oipulse/marketstate/checkpoints.py:163-201 | Reuses plus reconstructions are the gets; without a store nothing is reused |
| Checkpoints.InMemoryCheckpointStore.Lookup | oipulse/marketstate/checkpoints.py:101-103 | Exact match on the whole identity, or nothing |
| Checkpoints.InMemoryCheckpointStore.Save | oipulse/marketstate/checkpoints.py:105-120 | Stored unless the content is what is there, and says which |
| Checkpoints.StateService.BuildState | oipulse/marketstate/builder.py:270-345 | Every read of a build goes through its one bound |
| Checkpoints.StateService.StateAt | oipulse/marketstate/checkpoints.py:170-201 | The specified answer and new state, reuse or reconstruction |
| Checkpoints.StateService.MakeCheckpoint | oipulse/marketstate/checkpoints.py:203-218 | Builds and persists; an error, and no change, without a store |
| Alerts.AlertsAreDistinctAndSpaced | oipulse/alerts/routing.py:119-180 | Over any run no two alerts share a key or a dedup window, and two about one signal are at least the later one's cooldown apart |
| Alerts.OneAlertPerWindow | oipulse/alerts/routing.py:72-83 | Over any run at most one alert of a rule, settings, stream and status is stamped in any interval from epoch + n windows to epoch + n + 1; without a window, at any instant |
| Alerts.DecisionExactly | oipulse/alerts/routing.py:119-180 | Every decision of a run, from the input and the alerts before it: no match, duplicate of one in the window that holds its time, cooling after the last about the same signal, or emitted with the input's fields |
| Alerts.CooldownKnowsOnlyTheSignal | oipulse/alerts/routing.py:140-161 | Within the cooldown of an alert about a stream, another is held back exactly when an alert about the very same evaluation is within the cooldown too |
| Alerts.StreamAlertsTwiceWithinCooldown | oipulse/signals/model.py:209-243 | Two evaluations of one stream, a second apart in market time, both alert, whatever the cooldown |
| Alerts.RestoreIsTheIndex | oipulse/alerts/routing.py:106-117 | Restoring what was emitted, in any order and however often, gives the uncrashed index |
| Alerts.CrashChangesNoDecision | oipulse/alerts/routing.py:106-180 | After a crash and restore at any point every later decision and alert is the uncrashed one |
| Alerts.RestoringSuppressedLosesAlerts | oipulse/alerts/routing.py:106-117 | Restoring a suppressed occurrence turns a later due alert into a duplicate |
| Alerts.AlertRouter.RestoreAll | oipulse/alerts/routing.py:106-117 | The loop leaves the specified index |
| Alerts.AlertRouter.RouteSignal | oipulse/alerts/routing.py:119-180 | The specified decision and index |
| Migration.EndedAreTheRuns | oipulse/analytics/migration.py:173-187 | The batch definition's ended migrations are exactly the maximal runs a weak measurement follows |
| Migration.TrackerSegments | oipulse/analytics/migration.py:160-224 | For each key the tracker's live and faded migrations are the batch ones, in order, every field included |
| Migration.EntitiesAreTheRuns | oipulse/analytics/migration.py:160-224 | Each maximal run at or above the threshold is one migration, faded exactly when a weak measurement ended it, and every migration is one |
| Migration.MigrationsDescribeTheRuns | oipulse/analytics/migration.py:160-224 | Each maximal run of an expiry, side and direction at or above the threshold either way is one migration, and conversely: origin, destination, magnitude, times, windows, status and evidence are the run's, field by field |
| Migration.ChangedExactly | oipulse/analytics/migration.py:160-224 | A measurement is said to have changed the live migration it began or advanced, the one it ended, or none |
| Migration.WindowsAreConserved | oipulse/analytics/migration.py:160-224 | The windows over live and faded migrations are the measurements at or above the threshold either way |
| Migration.MigrationTracker.ObserveOne | oipulse/analytics/migration.py:160-224 | One measurement leaves the specified tracker and returns the migration changed |
| Events.HandleExactly | oipulse/events/domain.py:112-124 | With ids that name events, a delivery is applied exactly if it is next and does not raise; deferred ones name the number expected; deferred, skipped and failed ones leave no trace |
| Events.AppliedInOrderOnce | oipulse/events/inbox.py:80-98 | Under any reordering, repetition and failure, each subscriber has applied each aggregate's events 1 to k, each once, in order, if no place that can be reached has two ids |
| Events.InOrderOnceExactly | oipulse/events/inbox.py:70-98 | Where each id names one place, that is the exact condition |
| Events.SecondIdAppliesTwice | oipulse/events/inbox.py:70-75 | At every place that can be reached, a second id has a sequence of deliveries that applies the place twice |
| Events.TakenIdBlocks | oipulse/events/inbox.py:70-75 | An id shared by places only blocks: with the claims at the next place taken, no delivery moves the subscriber on |
| Events.PassAdvances | oipulse/events/domain.py:112-124 | A pass that delivers the next event applies it, wherever in the pass it comes |
| Events.RedeliveryFinishes | oipulse/events/inbox.py:80-98 | With every event delivered unfailing once per pass, each pass applies one more at least and n passes apply all n |
| Events.DescendingPassesAreSlow | oipulse/events/domain.py:112-124 | In descending order each pass applies one at most, so n are needed |
| Events.InMemoryInbox.MakeClaim | oipulse/events/inbox.py:70-75 | The claim is made, and mine exactly if it was not there |
| Events.InMemoryInbox.Release | oipulse/events/inbox.py:77-78 | The claim is gone, others untouched |
| Events.InMemoryInbox.ApplyOnceTo | oipulse/events/inbox.py:80-98 | The claim stays exactly if it was there or the mutation returned |
| Events.Consumer.HandleOne | oipulse/events/inbox.py:80-98 | Check, claim and mutate leave the specified database |
| RevisionChain.ChainIsValidExactly | tools/check_migration_chain.py:106-172 | No problem is reported exactly when the revisions form one path from a single root through all, only the last possibly unnamed; that path is what is returned |
| RevisionChain.CycleIsUnreachable | tools/check_migration_chain.py:144-172 | For any files the chain returned is a path and no cycle is ever reported |
| RevisionChain.UnnamedRootIsRefused | tools/check_migration_chain.py:138-142 | An unnamed root with a child is refused, though a path |
| RevisionChain.NoDuplicatesIffApart | tools/check_migration_chain.py:112-120 | Duplicates are reported exactly when two revisions share an id |
| RevisionChain.FaultsExactly | tools/check_migration_chain.py:112-142 | Each repetition is reported with the file that had the id first, each dependency on an unknown id, the roots unless there is one, and the heads unless there is one, and nothing else of those kinds |
| RevisionChain.WalkEndsExactly | tools/check_migration_chain.py:144-170 | The walk goes from the single root until not just one revision depends on the last; a branch is reported there exactly if several do, and detached revisions exactly when nothing else is wrong |
| RevisionChain.KeepFirst | tools/check_migration_chain.py:112-120 | The loop keeps the first of each id and reports the others |
| RevisionChain.FindMissing | tools/check_migration_chain.py:122-128 | The loop reports each dependency that does not exist |
| RevisionChain.ByDown | tools/check_migration_chain.py:147-149 | The dictionary holds, per id, what depends on it, in order |
| RevisionChain.WalkFrom | tools/check_migration_chain.py:151-164 | The walk, with its seen set, is the specified one and terminates |
| RevisionChain.Validate | tools/check_migration_chain.py:106-172 | The whole check returns the specified chain and problems |

## Left out

- Decimal arithmetic: the 28-digit context rounding (it could round the average price at ledger.py:271) and the textual form of a price inside a fill key are not modelled; amounts are exact reals.
- Floating point: the reserve fraction and the conversions of durations to seconds are exact.
- Hashing: SHA digests, UUIDs and JSON rendering; the deterministic unit draw is a function given to the simulator.
- Backtest.Run: a strategy is a function of the step, the underlying and the account it is shown, so a strategy with memory of its own is not captured; result digests, warning texts and the statistics counted from fills and outcomes afterwards are not modelled.
- FeatureEngine.Run: parameter overrides are part of the compute function; due-time selection and the registry are not modelled.
- FeatureEngine.NoLookAhead: assumes that computes build their values with `emit`, as the engine itself does not enforce it.
- Subscription.RefusedExactly: the count is closed only where no unprotected instrument repeats in a list; with repeats, `RefusedIffLastFails` says what refusal means.
- Checkpoints.StateService.BuildState: the content a build assembles (staleness, coverage, surfaces, coherence) is one function of the rows read; chain anchors are not read.
- Observations.ObservationStore.LatestUnder: the PostgreSQL twin, partitioning and concurrent writers are not part of this model; a dedup key is a number in the keys' order.
- Alerts: the texts of reasons, delivery attempts and acknowledgement; time zones of the epoch.
- Events.Consumer.HandleOne: the transaction itself is one step; the outbox, leases and the dispatcher's schedule are not modelled.
- RevisionChain.Validate: reading and parsing the revision files; names in a problem are a set rather than a sorted text.
- FeedSessions.SessionManager: the watchdog verdict and reconnect backoff, which are single comparisons.
- Subscription: the summary text, and the validation of the budget's own fields.
- HTTP routes, the frontend, persistence, metrics, identity and sessions, and the source scanners under tools.
