# Margin, liquidation and market-making: a verified model

A Dafny model of the arithmetic and the protocols that decide when an account of the
exchange is liquidated, how much of it is closed, how the market maker keeps its book, and
how the vault indexer keeps its ledger.

| file | models |
|---|---|
| `Arithmetic.dfy` | bigint division (truncating), the floor correction, and the rounding and convexity facts the proofs share |
| `Margin.dfy`, `MarginShape.dfy` | `portfolio-margin/src/mm.ts`: the IM and MM requirement as a function of price, and its shape |
| `Thresholds.dfy`, `MonotoneIntervals.dfy`, `ThresholdGuarantees.dfy`, `MissedThresholds.dfy` | `portfolio-margin/src/solve.ts`: the liquidation and alert price search, when its premise of monotone intervals holds, what it guarantees, and exactly what it misses |
| `OrderFills.dfy` | what filling resting futures orders does to the requirement |
| `FuturesClose.dfy`, `FuturesSizing.dfy` | simulating and sizing a batched futures close |
| `PerpClose.dfy`, `PerpCloseGuarantee.dfy`, `PerpCloseMaximality.dfy` | simulating and sizing a partial perp close |
| `PredictiveIndex.dfy`, `NoMissedLiquidation.dfy` | `keeper/src/predict/predictiveIndex.ts`, and solver and index together over runs of prices |
| `CoordinatorQueue.dfy`, `WorkerPool.dfy` | `keeper/src/coordinator/`: the work queue and the worker pool as interleaved steps |
| `OrderDiff.dfy`, `OrderReconciliation.dfy` | `market-maker/src/core/orderExecutor.ts`: the diff of desired quotes against resting orders, and what applying it achieves |
| `NonceSubmission.dfy`, `SubmissionQueue.dfy` | `market-maker/src/core/nonceManager.ts`: one submission's retry loop, and the promise chain that serializes submissions |
| `VaultLedger.dfy`, `VaultConservation.dfy`, `VaultTotals.dfy` | `indexer/src/vault.ts`: the event handlers, what every run of events conserves, and every counter as the sum of its events |

**Form.** Expressions of the source are functions. Loops are methods with invariants, proved
against functions that say what they compute. `PredictiveIndex`, `CoordinatorQueue`,
`CoordinatorExecutor`, `OrderExecutor`, `NonceManager` and `Indexer` are classes over their
source's fields; each method gives its whole new state as a function of the old one, and the
run theorems are lemmas about that function. bigint is `int`, and its `/` is `TruncDiv`. A
promise settling, a plan throwing, a node's reply and a nonce read are inputs: the theorems
hold for every choice of them.

**Where code and comments disagree** the model follows the code.

- `portfolio-margin/src/solve.ts:160` says the surplus is monotone between kinks. A fill-loss
  break-even is one kink, not a straddle, so the first tick of an interval can lie on the wrong
  side of it. For whole-contract accounts and either requirement the surplus is monotone from
  that tick on (`MonotonePastFirstTick`), and on the whole interval if and only if the first tick
  does not rise above both ends (`MonotoneExactly`; `SurplusIsNotMonotoneBetweenKinks` is an
  instance that fails). The guarantees of the search need only that the requirement is a bounded
  rounding of a convex function, exactly quasi-convex for whole-contract accounts.
- A root that falls on spot is dropped (`portfolio-margin/src/solve.ts:302-311`), so an account
  solvent at spot can become insolvent with nothing watching (`ZeroSurplusIsDropped`).
  `MissedBelowExactly` and `MissedAboveExactly` say when, for every solvent whole-contract
  account: with a positive surplus, when the neighbouring price is insolvent; with a zero
  surplus, when the neighbouring boundary of the search is.
- `portfolio-margin/src/types.ts:76` sums signed fills, so an entry value can have the opposite
  sign of its position. The average entry (`portfolio-margin/src/solve.ts:42-46`) drops the sign.
  A close conserves equity if and only if the entry has the position's sign or is under one unit
  per contract (`LegConservesEquityExactly`; `WrongSignedEntryLosesEquity` is an instance).
- The simulated perp close divides by 10^6 whatever the quantity decimals are
  (`portfolio-margin/src/solve.ts:405-408`). It conserves equity up to the fee, the gap
  between the two scales and one unit (`PerpCloseConservesEquity`). Every close costs only the fee
  and at most one unit if and only if there are six decimals (`SixDecimalsExactly`).
- `market-maker/src/core/orderExecutor.ts:131-132` calls recording a requote idempotent; its
  counters grow with every call (`RecordRequote`).
- `market-maker/src/core/nonceManager.ts:43-45` says replacing at the same nonce lets at most one
  transaction of a job land, safe even for creates. A broadcast that timed out or failed can land
  late; the replacement's nonce is then refused, and the job is sent again at another nonce
  (`market-maker/src/core/nonceManager.ts:146-169`). At most one lands, whatever the chain does, if
  and only if no resync intervenes in that way (`LandsOnceExactly`; `AJobThatLandsTwice` is an
  instance).
- The cancel of a stuck transaction logs that it will resync when it fails
  (`market-maker/src/core/nonceManager.ts:232`). After repeated timeouts the code advances the
  cached nonce all the same (`market-maker/src/core/nonceManager.ts:189-190`); `Ends` says so.
- A transfer from the zero address to itself breaks the supply-to-inflow laws except in the
  cases of `ZeroToZeroExactly`.

**As documented, and worth knowing.** A failed plan is put back with its stale snapshot, even
over a newer one (`FailedPlanIsRequeued`). Entries skipped by a pick go back behind equal ones,
so ties can change order; membership never does.

"Whole-contract account" means: no perp position, order deltas that are multiples of
`10^tokenDecimals`, unsigned order values, deltas and shocks.

## Model

| member | source | states |
|---|---|---|
| Arithmetic.FloorDivIsFloor | portfolio-margin/src/solve.ts:27-30 | the corrected truncating quotient is the floor, for every sign of the operands |
| Margin.ComputeNetDeltaWad | portfolio-margin/src/mm.ts:76-84 | the loop's net delta is the perp quantity in WAD, truncated, plus a WAD per unsettled contract |
| Margin.ComputeVenueFillLoss | portfolio-margin/src/mm.ts:153-161 | the two guarded additions give the per-side clamped loss |
| Margin.ComputeFuturesUnrealizedPnl | portfolio-margin/src/mm.ts:204-211 | the loop nets every leg at its own mark |
| Margin.FuturesPnlTerms | portfolio-margin/src/solve.ts:72-84 | one pass folds the unsettled quantity and the frozen value |
| Margin.FuturesPnlIsAffine | portfolio-margin/src/solve.ts:63-84 | the futures PnL is price times that quantity minus that value, at every price |
| Margin.StressIsOneFloor | portfolio-margin/src/mm.ts:118-127 | scaling the price up to WAD and the loss down again cancels: the stress is one floor of the exact product |
| Margin.MmNeverExceedsIm | portfolio-margin/src/mm.ts:225-258 | with the smaller MM shock, MM is at most IM at every price although the two clamp PnL differently |
| MarginShape.RequirementsInClosedForm | portfolio-margin/src/mm.ts:118-284 | both surpluses on the account's fields: one floor of the worse exposure at the requirement's own shock, the fill loss, the loss netted (MM) or clamped per venue (IM), and funding |
| MarginShape.ImExceedsMmBy | portfolio-margin/src/mm.ts:225-258 | IM exceeds MM by the difference of the two shocks on the worse exposure, to within a unit, and by the gain that MM nets and IM ignores; a flat perp has no such gain |
| MarginShape.StressIgnoresVenue | portfolio-margin/src/mm.ts:90-140 | resting delta counts alike on either venue: moving it between the books leaves the exposure |
| MarginShape.ExactRequiredIsConvex | portfolio-margin/src/mm.ts:118-258 | without rounding both requirements are convex in price |
| MarginShape.RequiredRounding | portfolio-margin/src/mm.ts:118-258 | the code's requirement lies less than four units below and three above the exact one for any account, and is its floor for whole-contract accounts |
| MarginShape.RequiredIsQuasiConvex | portfolio-margin/src/mm.ts:118-258 | between two prices the requirement exceeds the larger end by at most the slack: six units, zero for whole-contract accounts |
| MarginShape.SurplusIsUnimodal | portfolio-margin/src/mm.ts:276-284 | for whole-contract accounts both surpluses rise, then fall, exactly |
| MarginShape.SolventPricesAreContiguous | portfolio-margin/src/mm.ts:276-279 | their solvent prices form one range |
| Thresholds.SortDistinct | portfolio-margin/src/solve.ts:270-274 | the kinks, ascending and each once |
| Thresholds.SearchIntervals | portfolio-margin/src/solve.ts:276-286 | adjacent intervals from the floor to the cap whose inner ends are exactly the kinks |
| Thresholds.Bisect | portfolio-margin/src/solve.ts:746-772 | for any function with opposite signs at the ends: a zero, or the positive side of a sign change between neighbours, within the iteration cap |
| Thresholds.ClosestOver | portfolio-margin/src/solve.ts:288-314 | each threshold found is a root on its side of spot, and no boundary between it and spot shows a crossing |
| Thresholds.FindClosestCrossings | portfolio-margin/src/solve.ts:258-315 | the same for the kinks of the account and requirement being solved; a zero on spot hides only the two intervals that end there |
| Thresholds.SolveLiquidationThresholds | portfolio-margin/src/solve.ts:169-187 | nothing for an underwater account, else the closest crossings of the MM surplus |
| Thresholds.SolveAlertThresholds | portfolio-margin/src/solve.ts:200-241 | nothing without balance or past the target, else the closest crossings of each IM target |
| MonotoneIntervals.MonotonePastFirstTick | portfolio-margin/src/solve.ts:153-162 | on an interval without kinks strictly inside, the surplus of a whole-contract account is monotone from its second price on, MM and IM |
| MonotoneIntervals.MonotoneExactly | portfolio-margin/src/solve.ts:159-162 | on the whole interval it is monotone if and only if the surplus one price past the lower end is not above the surplus at both ends |
| MonotoneIntervals.SurplusIsNotMonotoneBetweenKinks | portfolio-margin/src/solve.ts:55-61 | a whole-contract account and an interval of the search that fail that condition |
| MonotoneIntervals.NettedPnlKeepsSign | portfolio-margin/src/solve.ts:86-139 | for every account, perp included, the netted PnL changes sign only at the kinks of MM |
| MonotoneIntervals.VenuePnlKeepsSign | portfolio-margin/src/solve.ts:86-139 | and the PnL of each venue only at the kinks of IM |
| ThresholdGuarantees.SolventBetweenThresholds | portfolio-margin/src/solve.ts:169-315 | for any account solvent at spot, no price between a threshold and spot is short by more than the slack, zero for whole-contract accounts |
| ThresholdGuarantees.InsolventPricesAreOutside | portfolio-margin/src/solve.ts:169-315 | every searched price short by more than the slack lies strictly outside the solved thresholds, given solvency at spot and, for a side without a threshold, a margin towards it |
| ThresholdGuarantees.EveryRiseIsWatched | portfolio-margin/src/solve.ts:276-315 | from a spot solvent with a margin, every price up to 1024 times spot that is short by more than the slack has an upper threshold strictly before it |
| ThresholdGuarantees.EveryDropIsWatched | portfolio-margin/src/solve.ts:276-315 | the mirror below spot, down to price 1 |
| ThresholdGuarantees.RealRangesAreInReach | portfolio-margin/src/solve.ts:746-772 | the cap on halvings cuts no search of a range up to 10^76 short |
| ThresholdGuarantees.AlertLevelIsUtilization | portfolio-margin/src/solve.ts:217-233 | a requirement is short of an alert target exactly when one unit more still fits in so many millionths of the balance |
| ThresholdGuarantees.LowerThresholdExactly | portfolio-margin/src/solve.ts:169-315 | for a whole-contract account: exactly when a lower threshold exists, and that it splits the prices below spot by the sign of the surplus |
| ThresholdGuarantees.UpperThresholdExactly | portfolio-margin/src/solve.ts:169-315 | the mirror above spot, up to the cap |
| ThresholdGuarantees.ZeroSurplusIsDropped | portfolio-margin/src/solve.ts:310-311 | an account with zero surplus at spot that gets no lower threshold while one tick down it is insolvent |
| MissedThresholds.MissedBelowExactly | portfolio-margin/src/solve.ts:291-312 | for a whole-contract account solvent at spot, an insolvent searched price below escapes the threshold if and only if: with a positive surplus at spot the price one below is insolvent, with a zero surplus the nearest boundary below is |
| MissedThresholds.MissedAboveExactly | portfolio-margin/src/solve.ts:291-312 | the mirror above spot, up to the cap |
| ThresholdGuarantees.BreachIsBracketedBelow | portfolio-margin/src/solve.ts:222-233 | a searched price below spot at or past an alert target forces a lower threshold, itself at or past the target; every price between it and spot is at most the target, so no breach above the target is nearer spot |
| ThresholdGuarantees.BreachIsBracketedAbove | portfolio-margin/src/solve.ts:222-233 | the mirror above spot, up to the cap |
| ThresholdGuarantees.AlertsAreArmed | portfolio-margin/src/solve.ts:217-241 | one solved alert level: nothing when IM at spot is at or past the target, else a threshold before every price up to 1024 times spot that is past it, on both sides |
| ThresholdGuarantees.LowerThresholdsNest | portfolio-margin/src/solve.ts:169-241 | a lower liquidation threshold forces both alert thresholds, ordered between one tick under it and spot |
| ThresholdGuarantees.UpperThresholdsNest | portfolio-margin/src/solve.ts:169-241 | the mirror above spot, within the IM search cap |
| PredictiveIndexing.LowerBound | keeper/src/predict/predictiveIndex.ts:154-164 | the binary search returns how many entries lie under the target |
| PredictiveIndexing.UpperBound | keeper/src/predict/predictiveIndex.ts:167-177 | and how many lie at or under it |
| PredictiveIndexing.InsertSorted | keeper/src/predict/predictiveIndex.ts:144-151 | the splice puts the entry before its equals |
| PredictiveIndexing.PredictiveIndex.UpsertUser | keeper/src/predict/predictiveIndex.ts:50-62 | the new map and arrays, still consistent; true exactly when the user is watched |
| PredictiveIndexing.PredictiveIndex.InvalidateUser | keeper/src/predict/predictiveIndex.ts:65-67 | the user is gone from the map and both arrays |
| PredictiveIndexing.PredictiveIndex.Crossings | keeper/src/predict/predictiveIndex.ts:101-124 | exactly the users a filter of the map over the closed price range gives, each once, in threshold order |
| PredictiveIndexing.SliceIsTheFilter | keeper/src/predict/predictiveIndex.ts:101-124 | the slice between the two bounds holds exactly the map's thresholds in the range |
| PredictiveIndexing.UpsertedKeepsConsistent | keeper/src/predict/predictiveIndex.ts:50-62 | an upsert keeps both arrays sorted and in one-to-one correspondence with the map |
| PredictiveIndexing.RemovedKeepsConsistent | keeper/src/predict/predictiveIndex.ts:131-136 | so does a removal |
| PredictiveIndexing.EveryRunIsConsistent | keeper/src/predict/predictiveIndex.ts:39-137 | after any run of upserts and invalidations the arrays mirror the map, and the map holds what each user was last given |
| NoMissedLiquidation.PathCrosses | keeper/src/predict/predictiveIndex.ts:84-124 | a run of ticks that starts between a user's thresholds and ends outside them had a move that reported the user |
| NoMissedLiquidation.ReportedExactly | keeper/src/predict/predictiveIndex.ts:84-124 | a move from strictly between a user's thresholds reports the user exactly when it reaches one of them |
| NoMissedLiquidation.FirstReportIsFirstReach | keeper/src/predict/predictiveIndex.ts:84-124 | along a run the first report of a user comes with the move that first reaches a threshold, no earlier and no later |
| NoMissedLiquidation.NoMissedLiquidationInAnyRun | portfolio-margin/src/solve.ts:169-315 | solve at a solvent spot (with a margin towards a side that got no threshold), store in any consistent index, replay any ticks from 1 up to 1024 times spot: by the first tick short by more than the slack the user has been reported |
| NoMissedLiquidation.ARunThatEndsInsolvent | portfolio-margin/src/mm.ts:204-284 | an account and a run that meet every premise of that theorem and end insolvent |
| NoMissedLiquidation.WatchRun | keeper/src/predict/predictiveIndex.ts:50-124 | solve at the first tick, store, query every move: whenever the solved thresholds are guarded as above, a tick short by more than the slack has been reported before |
| NoMissedLiquidation.ReplayTicks | keeper/src/predict/predictiveIndex.ts:101-124 | querying the index move by move reports the user at exactly the moves that cross one of its thresholds |
| OrderFills.FillingNeverRaisesStress | portfolio-margin/src/mm.ts:133-144 | a fill of one side into one leg never raises the stress |
| OrderFills.FillsNeverRaiseStress | portfolio-margin/src/mm.ts:129-144 | neither does any sequence of fills on both sides and across expiries |
| OrderFills.FillLossDrops | portfolio-margin/src/mm.ts:153-169 | a fill takes at most its own clamped loss out of the fill loss, and exactly that if and only if fill and rest sit on one side of break-even |
| OrderFills.FillingNeverRaises | portfolio-margin/src/mm.ts:204-258 | such a fill never raises IM or MM at the same price, whatever else the account holds |
| OrderFills.BookAloneIsCoveredExactly | portfolio-margin/src/mm.ts:153-258 | for the same book without positions or shock the fill leaves MM no higher if and only if it does not straddle break-even |
| OrderFills.SafeForEveryAccountExactly | portfolio-margin/src/mm.ts:153-258 | so that condition is exactly what keeps a fill from raising a requirement of some account resting this book at this price |
| OrderFills.FillingAWholeSide | portfolio-margin/src/mm.ts:153-258 | in particular filling a whole side |
| OrderFills.FillingBothSides | portfolio-margin/src/mm.ts:153-258 | and both sides in turn |
| OrderFills.FillingAtOnePrice | portfolio-margin/src/mm.ts:153-258 | and any part of a side resting at one limit price |
| OrderFills.MixedPriceFillCanRaise | portfolio-margin/src/mm.ts:146-161 | a partial fill across two limit prices that raises MM by 50, because the clamp is on the side's total |
| FuturesClose.SimulateFuturesClose | portfolio-margin/src/solve.ts:335-384 | the loops compute the remaining legs and the balance change, whatever the number of legs an expiry is asked in |
| FuturesClose.SimulationSeesTotals | portfolio-margin/src/solve.ts:341-349 | two batches asking the same total at every expiry simulate the same |
| FuturesClose.ClosesWhatIsAsked | portfolio-margin/src/solve.ts:335-390 | at each expiry a batch leaves the contracts open less those asked for, on the same side, down to none |
| FuturesClose.AveragingLoss | portfolio-margin/src/solve.ts:42-46 | averaging the entry of a partial close loses between nothing and one unit per contract closed |
| FuturesClose.LegConservesEquityExactly | portfolio-margin/src/solve.ts:354-376 | closing part of a leg moves equity by the fee, up to one unit per contract, if and only if the entry value has the position's sign or is under one unit per contract |
| FuturesClose.FuturesCloseConservesEquity | portfolio-margin/src/solve.ts:335-384 | balance plus futures PnL changes by the fee per touched leg, up to one unit per contract closed, when every touched leg meets that condition |
| FuturesClose.WrongSignedEntryLosesEquity | portfolio-margin/src/solve.ts:42-46 | a leg whose entry value has the wrong sign, and the 200 units its close loses |
| FuturesSizing.CoalesceUnitPrefix | portfolio-margin/src/solve.ts:719-728 | one leg an expiry, ascending, each closing as many contracts as the prefix names it |
| FuturesSizing.UnitsSimulateAsCoalesced | portfolio-margin/src/solve.ts:480-486 | simulating the emitted unit legs equals simulating the coalesced batch that was scanned |
| FuturesSizing.Interleave | portfolio-margin/src/solve.ts:703-716 | the round-robin terminates; each expiry appears once per contract, and in every prefix none is more than a unit ahead of one with contracts left |
| FuturesSizing.RankOrder | portfolio-margin/src/solve.ts:690-701 | the larger drop first, then the larger position at average entry, then the earlier expiry |
| FuturesSizing.FirstUnitHelpsMost | portfolio-margin/src/solve.ts:677-716 | the first contract closed is one whose closing alone leaves the lowest maintenance requirement |
| FuturesSizing.RankUnitCloses | portfolio-margin/src/solve.ts:677-717 | the open legs ordered by requirement drop, notional and expiry, then interleaved fairly |
| FuturesSizing.SolveFuturesClosesToTarget | portfolio-margin/src/solve.ts:425-487 | units interleaved fairly from legs ranked by requirement drop; with an IM buffer the deepest acceptable prefix, without one the shallowest, everything when none is acceptable; never more than an expiry's quantity |
| FuturesSizing.ChosenLandsInBand | portfolio-margin/src/solve.ts:425-510 | the chosen batch, simulated, is solvent at MM and (with a buffer) not over IM, and no deeper prefix is (without one, no shallower); everything is closed only when no prefix is |
| PerpClose.PerpCloseConservesEquity | portfolio-margin/src/solve.ts:392-415 | a perp close changes balance plus perp PnL by the fee and the gap between the two quantity scales, up to one unit, at any quantity decimals |
| PerpClose.SixDecimalsExactly | portfolio-margin/src/solve.ts:405-408 | every close of every perp position, at every price and fee, costs only the fee and at most one unit if and only if quantities have six decimals |
| PerpClose.PerpCloseKinks | portfolio-margin/src/solve.ts:584-617 | zero, the whole position, and exactly the interior straddles of the stress and clamp roots, ascending |
| PerpClose.NonNegativeRange | portfolio-margin/src/solve.ts:627-653 | for any function: nothing when both ends are negative, else a range whose moved ends have negative neighbours |
| PerpClose.SolvePerpCloseToTarget | portfolio-margin/src/solve.ts:512-549 | zero when flat or healthy; else between one and the whole position: with a buffer the deepest offer of the intervals between kinks, under IM, everything only when in band itself or nothing is offered; without one the shallowest healthy close |
| PerpCloseGuarantee.ShortfallIsConvex | portfolio-margin/src/solve.ts:497-510 | without rounding the MM and the IM shortfall are convex in the closed quantity |
| PerpCloseGuarantee.BetweenCloses | portfolio-margin/src/solve.ts:497-510 | for either requirement, a close between two whose surplus reaches a level falls short of it by at most two units |
| PerpCloseGuarantee.BetweenHealthyCloses | portfolio-margin/src/solve.ts:497-510 | a close between two healthy ones is healthy up to two units |
| PerpCloseGuarantee.PartialCloseLandsInBand | portfolio-margin/src/solve.ts:489-549 | a partial close leaves the account at or under IM exactly and at or over MM up to two units |
| PerpCloseMaximality.ShortfallIsLinear | portfolio-margin/src/solve.ts:506-510 | while the same stress leg is the worse one and the netted PnL keeps its sign, the exact MM shortfall is linear in the closed quantity |
| PerpCloseMaximality.LegBalanceKeepsSign | portfolio-margin/src/solve.ts:560-562 | between neighbouring kinks the worse stress leg never changes |
| PerpCloseMaximality.TotalKeepsSign | portfolio-margin/src/solve.ts:563-582 | nor does the sign of the netted PnL |
| PerpCloseMaximality.EvenBelowEighteen | portfolio-margin/src/mm.ts:90-99 | below eighteen token decimals the lift to WAD makes every order delta even, so halving their difference loses nothing |
| PerpCloseMaximality.NoDeeperCloseIsInBand | portfolio-margin/src/solve.ts:489-549 | no close deeper than the solver's is over MM and under IM by two units each |
| PerpCloseMaximality.FullCloseIsForced | portfolio-margin/src/solve.ts:547-548 | the fall-back to a full close that is out of band happens only when no close at all is in the band by that much |
| CoordinatorQueueing.CoordinatorQueue.Upsert | keeper/src/coordinator/queue.ts:34-40 | the user's old entry goes; an underwater snapshot takes its place in rank order, behind ties; true exactly when the user is queued |
| CoordinatorQueueing.CoordinatorQueue.Remove | keeper/src/coordinator/queue.ts:42-44 | the user's entry goes, nothing else |
| CoordinatorQueueing.CoordinatorQueue.Pop | keeper/src/coordinator/queue.ts:47-49 | the head comes off, and nobody queued is deeper under water |
| CoordinatorQueueing.CoordinatorQueue.FindInsertIndex | keeper/src/coordinator/queue.ts:70-78 | the first position whose entry ranks strictly after the snapshot |
| CoordinatorQueueing.UpsertKeeps | keeper/src/coordinator/queue.ts:34-40 | an upsert keeps the queue ranked, one entry a user, underwater only, and changes membership at that user alone |
| CoordinatorQueueing.InsertedBehindTies | keeper/src/coordinator/queue.ts:70-78 | a snapshot goes behind every account at least as far under water and in front of all others |
| CoordinatorQueueing.BatchKeepsLatest | keeper/src/coordinator/queue.ts:34-40 | after a batch a user is queued exactly with its last snapshot, if that is underwater |
| WorkerPool.PickIsMostUnderwater | keeper/src/coordinator/executor.ts:123-132 | the pick is the most underwater account not in flight, and is missing exactly when every queued account is in flight |
| WorkerPool.PickLosesNothing | keeper/src/coordinator/executor.ts:123-132 | apart from the pick the queue holds the same entries, still well kept |
| WorkerPool.CoordinatorExecutor.PopNonInflight | keeper/src/coordinator/executor.ts:123-132 | the popping and re-queueing loops compute that pick and that queue |
| WorkerPool.CoordinatorExecutor.ResumeWorker | keeper/src/coordinator/executor.ts:94-102 | one turn of the loop from its check of `running` to its next `await` is one step of the pool |
| WorkerPool.CoordinatorExecutor.SettlePlan | keeper/src/coordinator/executor.ts:102-112 | so is a plan coming back or throwing |
| WorkerPool.CoordinatorExecutor.KickAll | keeper/src/coordinator/executor.ts:67-72 | the chain of resolvers wakes exactly the workers on it and is then empty |
| WorkerPool.CoordinatorExecutor.StartAll | keeper/src/coordinator/executor.ts:50-60 | at least one worker is spawned, or nothing when already running |
| WorkerPool.CoordinatorExecutor.StopAll | keeper/src/coordinator/executor.ts:74-79 | `running` falls and everyone parked is released |
| WorkerPool.CoordinatorExecutor.Sweep | keeper/src/runtime/scheduler.ts:98-132 | a sweep upserts every snapshot and kicks if any was underwater, as one step |
| WorkerPool.StepKeeps | keeper/src/coordinator/executor.ts:50-143 | every step keeps the pool's invariant |
| WorkerPool.EveryRunIsSound | keeper/src/coordinator/executor.ts:50-143 | so every state of every interleaving satisfies it |
| WorkerPool.NoUserIsPlannedTwice | keeper/src/coordinator/executor.ts:10-16 | in no reachable state do two workers plan one account |
| WorkerPool.OpenWorkIsPickedUp | keeper/src/coordinator/executor.ts:94-143 | no wake-up is lost: while a worker is parked and an open account is queued, another worker is on its way |
| WorkerPool.NobodyParksAfterStop | keeper/src/coordinator/executor.ts:74-100 | once stopped nobody parks or stays parked |
| WorkerPool.KickReleasesAll | keeper/src/coordinator/executor.ts:62-72 | a kick releases every parked worker and moves no other |
| WorkerPool.NoAccountIsLost | keeper/src/coordinator/executor.ts:94-132 | a queued account stays queued or goes to a worker, until a caller removes it or its latest snapshot is healthy |
| WorkerPool.QueueEntriesExactly | keeper/src/coordinator/executor.ts:91-132 | exactly which entries the queue holds after each step: only a batch's latest underwater snapshots and the snapshot of a plan that threw may enter, and a plan that returned queues nothing |
| WorkerPool.NothingIsInvented | keeper/src/coordinator/executor.ts:91-132 | in every run whatever is queued or planned is a snapshot some batch reported underwater |
| WorkerPool.WorkerMovesExactly | keeper/src/coordinator/executor.ts:64-115 | where each step leaves each worker: planning when a queued account is free, parked only when none is, exited only once stopped, woken exactly by a kick, a stop or a batch with an underwater account |
| WorkerPool.StartSpawns | keeper/src/coordinator/executor.ts:50-60 | a start spawns as many loops as asked for, at least one, and none while running |
| WorkerPool.FailedPlanIsRequeued | keeper/src/coordinator/executor.ts:105-112 | a plan that throws puts its own snapshot back, over any newer one, and clears its flight mark |
| WorkerPool.StopDrains | keeper/src/coordinator/executor.ts:22-23 | once stopped every worker step brings the pool strictly nearer to drained and no plan starts |
| WorkerPool.StoppedPoolCanStep | keeper/src/coordinator/executor.ts:74-79 | until all have exited some worker can step, without any further kick |
| OrderDiff.NotionalToSizeIsNearest | market-maker/src/core/math.ts:67-74 | the size is nearest to the notional, halves rounding up |
| OrderDiff.OrderExecutor.FindStaleOrders | market-maker/src/core/orderExecutor.ts:276-377 | exactly the stale orders and the trims of the over-full levels; none cancelled twice, reduced twice, or both |
| OrderDiff.OrderExecutor.TrimLevel | market-maker/src/core/orderExecutor.ts:357-374 | from the trailing order: cancels while they fit in the excess, then at most one reduce |
| OrderDiff.OrderExecutor.AggregateOwnSize | market-maker/src/core/orderExecutor.ts:428-442 | the size at every level once cancels and reduces are applied |
| OrderDiff.OrderExecutor.FindNewOrders | market-maker/src/core/orderExecutor.ts:385-400 | one create per level still short past the allowance, of the whole deficit |
| OrderDiff.OrderExecutor.HasQuantityDeficit | market-maker/src/core/orderExecutor.ts:402-412 | true exactly when some level needs a top-up |
| OrderDiff.OrderExecutor.ShouldRequote | market-maker/src/core/orderExecutor.ts:211-264 | past the cooldown, tripled when throttled, it says no exactly when the order count suffices and the full diff is empty |
| OrderDiff.OrderExecutor.MakePlan | market-maker/src/core/orderExecutor.ts:97-127 | a plan exactly when past the cooldown, not held by a gas spike and not empty; then the full diff |
| OrderDiff.OrderExecutor.RecordRequote | market-maker/src/core/orderExecutor.ts:134-140 | what a recorded requote means for later plans: cooling down exactly until the cooldown has passed since then, and during a gas spike held exactly while the oracle stays nearer than the urgent threshold to the price quoted |
| OrderDiff.EmptyDiff | market-maker/src/core/orderExecutor.ts:276-377 | the stale diff is empty exactly when nothing is stale and nothing over-full |
| OrderReconciliation.EdgesBound | market-maker/src/core/orderExecutor.ts:280-303 | the scanned edges enclose every desired price of their side |
| OrderReconciliation.BidsCancelledExactly | market-maker/src/core/orderExecutor.ts:310-327 | a resting bid off the grid is cancelled if and only if it is further than the allowance below every desired bid, above every desired bid, or at or above a desired ask |
| OrderReconciliation.AsksCancelledExactly | market-maker/src/core/orderExecutor.ts:328-341 | the mirror for asks |
| OrderReconciliation.AppliedTrim | market-maker/src/core/orderExecutor.ts:357-374 | trimming takes out exactly the excess, keeps a prefix in arrival order and shrinks at most one order to a smaller positive size |
| OrderReconciliation.SizeAfter | market-maker/src/core/orderExecutor.ts:349-375 | a level that stays holds its target if it was over-full past the allowance, else what it held |
| OrderReconciliation.PlanUncrossesBook | market-maker/src/core/orderExecutor.ts:305-342 | after the plan every own bid is strictly below every own ask |
| OrderReconciliation.LevelReachesTarget | market-maker/src/core/orderExecutor.ts:276-442 | after the plan every desired level is within the size allowance of its target |
| OrderReconciliation.LevelAfterExactly | market-maker/src/core/orderExecutor.ts:276-442 | after the plan a desired level holds its target if it was off by more than the allowance's notional (half a price rounding up), and its old size otherwise |
| OrderReconciliation.PlanReachesFixpoint | market-maker/src/core/orderExecutor.ts:276-442 | the diff of the resulting book is empty |
| NonceSubmission.NonceManager.NextNonce | market-maker/src/core/nonceManager.ts:107-115 | the cached nonce, or one chain read that is then cached |
| NonceSubmission.NonceManager.SubmitInner | market-maker/src/core/nonceManager.ts:117-194 | every broadcast, its nonce and its fee follow the replacement protocol within the broadcast budget, and each way it ends fixes the outcome, the cancel transaction and the cached nonce (one past a landed nonce) |
| NonceSubmission.NonceManager.SubmitInTurn | market-maker/src/core/nonceManager.ts:34-48 | queued jobs whose broadcasts the node takes use consecutive nonces, one each, landed or stuck |
| NonceSubmission.TraceFits | market-maker/src/core/nonceManager.ts:125-186 | each resync costs at most a full round of attempts, and resyncs are limited |
| NonceSubmission.BroadcastsAreBounded | market-maker/src/core/nonceManager.ts:125-186 | at most (resyncs + 1) times (replacements + 1) broadcasts although the loop counter is reset |
| NonceSubmission.OutcomeIsLastReply | market-maker/src/core/nonceManager.ts:125-194 | the last answer decides the end: landed only by a receipt and with its figures, cancelled only when stuck or failed |
| NonceSubmission.GivesUpOnlyWhenSpent | market-maker/src/core/nonceManager.ts:125-194 | a job that ends stuck or failed made every attempt allowed at its last nonce; one whose nonce is taken used every resync allowed |
| NonceSubmission.CancelOutbids | market-maker/src/core/nonceManager.ts:178-190 | the cancel transaction takes the last nonce at a fee bumped past every broadcast there |
| NonceSubmission.NextJobStartsAt | market-maker/src/core/nonceManager.ts:107-194 | the next job starts one past the nonce of one that landed or stuck, at what the chain says after any other end, and at its own base fee |
| NonceSubmission.BumpRaises | market-maker/src/core/nonceManager.ts:196-198 | a bump never lowers a fee and raises it if and only if the percentage is worth a unit |
| NonceSubmission.ReplacementsKeepNonce | market-maker/src/core/nonceManager.ts:41-47 | between resyncs the nonce stays, fees never drop, and each is the base fee raised once per replacement |
| NonceSubmission.LandsOnceExactly | market-maker/src/core/nonceManager.ts:41-47 | whatever the chain does at most one broadcast of a job lands, if and only if no resync gives up a nonce whose broadcast timed out or failed and sends the job again at another |
| NonceSubmission.AJobThatLandsTwice | market-maker/src/core/nonceManager.ts:146-169 | with the default limits: a late landing, a refused replacement and a second confirmation one nonce on |
| NonceSubmission.SubmissionIsDetermined | market-maker/src/core/nonceManager.ts:117-194 | the node's answers leave one trace, outcome, cancel and next nonce |
| NonceSubmission.QuietJobKeepsNonce | market-maker/src/core/nonceManager.ts:125-194 | a job with no submission error uses the cached nonce alone and advances it by one, landed or stuck |
| SubmissionQueue.SubmissionsAreSerial | market-maker/src/core/nonceManager.ts:97-105 | in every run submissions begin in the order enqueued, never two at once |
| SubmissionQueue.QueueNeverBlocks | market-maker/src/core/nonceManager.ts:97-105 | a failed submission blocks nobody behind it |
| VaultLedger.Indexer.RecomputeDebtSplit | indexer/src/vault.ts:188-203 | the three branches give the uncovered loss and the timing debt of their formulas |
| VaultLedger.Indexer.NoteDebtOpened | indexer/src/vault.ts:223-230 | the time the debt opened, cleared when it is zero |
| VaultLedger.Indexer.NoteBorrow | indexer/src/vault.ts:242-262 | debt, borrowed total, split and the recipient's inflow together |
| VaultLedger.Indexer.ConsumePendingDeposit | indexer/src/vault.ts:265-276 | true exactly when the open mark matches transaction, user and amount; only then cleared |
| VaultLedger.Indexer.NoteRepay | indexer/src/vault.ts:279-299 | nothing without debt or past it, else a repayment |
| VaultLedger.Indexer.BumpCategoryNet | indexer/src/vault.ts:307-319 | inflow and one bucket move together; unknown users are skipped |
| VaultLedger.Indexer.HandleTransfer | indexer/src/vault.ts:354-432 | the entity updates, field by field, give one atomic step of the ledger for mints, burns, borrows, repayments and internal transfers, self-transfers included |
| VaultLedger.Indexer.HandleDeposited | indexer/src/vault.ts:436-478 | the user's deposit totals, the vault's unless the fund deposits, the user count and the deposit mark move together; no balance does |
| VaultLedger.Indexer.HandleWithdrawn | indexer/src/vault.ts:482-525 | the owner's withdrawal totals, the vault's unless fund or backstop withdraws, and the user count move together; no balance does |
| VaultLedger.Indexer.HandleInsuranceFundDeposited | indexer/src/vault.ts:529-541 | capital rises and the split follows |
| VaultLedger.Indexer.HandleInsuranceFundWithdrawn | indexer/src/vault.ts:543-555 | capital falls and the split follows |
| VaultLedger.Indexer.HandleBadDebt | indexer/src/vault.ts:559-610 | reserve losses and fees on venue and vault, the split, and the payer's row |
| VaultLedger.Indexer.HandleBackstopWithdrawn | indexer/src/vault.ts:614-624 | only the backstop's own counter moves: the paired logs carry the balance |
| VaultLedger.Indexer.HandleInitialized | indexer/src/vault.ts:323-341 | any version stamps the start; version 2 with a successful read seeds capital and resplits the debt, a reverted read leaves both |
| VaultConservation.TransferKeeps | indexer/src/vault.ts:354-432 | every transfer except zero-to-zero keeps all the conservation laws |
| VaultConservation.ZeroToZeroExactly | indexer/src/vault.ts:359-428 | a zero-to-zero transfer keeps them if and only if nothing moves, a deposit marked it, or the zero address has a row |
| VaultConservation.StepKeeps | indexer/src/vault.ts:354-624 | every event keeps them |
| VaultConservation.EveryRunIsConserved | indexer/src/vault.ts:88-624 | over every run: supply is the sum of balances, fund and backstop balances mirror their rows, users are counted, inflow is the sum of its buckets, total inflow is the total borrowed, debt is borrowed minus repaid and never negative, and the debt split is never stale |
| VaultConservation.ActionKeepsBoundary | indexer/src/vault.ts:343-478 | a contract action leads from one transaction boundary to the next |
| VaultConservation.EveryContractRunIsExplained | indexer/src/vault.ts:354-624 | after every run of contract actions each account but the fund has balance = deposited - withdrawn + net inflow |
| VaultTotals.EveryTotalIsItsEvents | indexer/src/vault.ts:354-624 | after every run each total on the vault row (deposits, withdrawals, fund moves, supply, internal transfers, reserve and backstop losses) is the sum of its own events, with the fund's and backstop's carve-outs |
| VaultTotals.CapitalSinceSeed | indexer/src/vault.ts:323-341 | insurance capital is the last version-2 seed plus the fund deposits and minus the fund withdrawals since |
| VaultTotals.EveryVenueIsItsEvents | indexer/src/vault.ts:559-610 | each venue row holds the reserve losses, backstop losses and unpaid fees of its own venue |
| VaultTotals.VenuesSumToVault | indexer/src/vault.ts:559-610 | trader losses sum over the venues to the vault's total, which is the bad debt paid by the fund; the fee rows sum to all other bad debt |
| VaultTotals.EveryUserIsItsEvents | indexer/src/vault.ts:354-525 | each account's balance is what transfers brought it, and its totals and counts are its own deposits and withdrawals |
| VaultTotals.EveryBucketIsItsEngine | indexer/src/vault.ts:301-319 | each bucket of every account holds exactly the inflow of transactions sent to its own engine |
| VaultTotals.RowsAreStamped | indexer/src/vault.ts:155-182 | an account has a row exactly if an event touched it, stamped with the first and the last such time |
| VaultTotals.VaultIsStamped | indexer/src/vault.ts:323-341 | the vault row carries the time of the last event and of the last initialization |
| VaultTotals.DebtMovesExactly | indexer/src/vault.ts:223-299 | the debt grows by mints to anyone but the fund that no deposit marked, falls by fund burns no larger than it, and nothing else moves it |
| VaultTotals.DebtSinceItOpened | indexer/src/vault.ts:223-230 | an open debt carries the time of the event that opened it, and was open without a break since |
| VaultTotals.OnlyBorrowsAreBorrowed | indexer/src/vault.ts:242-276 | over every run of contract actions the borrowed total is the sum of the borrows: no deposit is taken for one |

## Left out

- Thresholds.Bisect: the root guarantee holds for intervals up to 2^255 wide; past that the 256 iterations of the source can stop early.
- Thresholds.FindClosestCrossings: prices at or below zero and above the search cap (1024 times the largest kink, plus one) are not searched by the source, so nothing is claimed there.
- ThresholdGuarantees.InsolventPricesAreOutside: for accounts that are not whole-contract a shortfall of up to six units may go unreported; that is the rounding of the source, not a choice of the proof.
- PerpClose.SolvePerpCloseToTarget: for at most eighteen quantity decimals; with more the source divides by zero.
- PerpCloseMaximality.NoDeeperCloseIsInBand: with eighteen token decimals it needs the two order deltas to differ by an even number of units, since the source halves the difference; below eighteen they always do (`EvenBelowEighteen`). The fee is not negative.
- MMParams: `tokenDecimals` is at most eighteen, as the source's negative powers would throw otherwise.
- OrderDiff.OrderExecutor.MakePlan: the clock, the throttle, the gas spike and the oracle are inputs; the pre-trade risk gate that may drop creates is not modelled.
- WorkerPool.Worker: a plan is one step that settles or throws; what the planner does on chain is not part of this model. Loops spawned before a restart stay in the pool's list.
- WorkerPool.OpenWorkIsPickedUp: a promised step of a woken worker is not given a time; fairness of the runtime is assumed nowhere and claimed nowhere.
- CoordinatorQueueing.Health: the IM utilization (a floating-point number the queue never reads) is not a field.
- NonceSubmission.Reply: which error texts count as a lost nonce is an input; the cancel transaction is one attempt whose success the source ignores.
- VaultLedger.Indexer: counters are unbounded where the source has 32-bit ones; immutable rows written per event (deposits, withdrawals, transfers, debt events) only copy their event and are left out.
- VaultLedger.Event: cap, halt, resume, parameter and margin-engine events touch no conserved field and are left out, as are the token and decimals an initialization reads.
- The Solidity contracts: agreement of the TypeScript replicas with the chain is not claimed.
- Planner, scheduler timing, notifier, circuit breaker, delivery coordinator, volatility, order pricing: their claims are one-branch facts or weaker copies of the properties above.
- RPC reads, subscriptions, HTTP, configuration and deployment: input and output.
