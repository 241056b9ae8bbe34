# Replay, matching and back-test analysers: a verified model

This project models the decision-making core of a KRW crypto-market research pipeline and proves what it is
supposed to guarantee. Prices, sizes and KRW amounts are real numbers, times are integer milliseconds.

* **The replay session** (`org_coin_data/session_scenario.py`, `exit_policy.py`, `eligibility.py`). Enriched points
  are thinned to one per market and 15 seconds and grouped by timestamp; a loop over those buckets holds at most one
  position, watches it with streaming counters and a running peak, sells it on an exit rule, or else scans the bucket
  for the best eligible entry. `SessionPoints` is the thinning and grouping, `Eligibility` and `ExitPolicy` the two
  decisions, `SessionSpec` what a run computes as a function of its buckets, `SessionReplay` the object with mutable
  fields that the loop updates, proved equal to it. `SessionEntries` says what is bought and for how much, `SessionReport`
  what is recorded and how a run ends; `SessionCarry`, `SessionSafety` and `SessionHistory` prove what every run keeps.
* **The FIFO lot matcher** (`src/cli/analyze-trade-paths.ts`). Buys open lots, snapshots mark them, sells close them
  first in, first out, partially and pro rata. `LotSpec` is the book as a value, `LotMatcher` the queue of mutable
  records, `LotProofs` conservation and the per-unit meaning of every amount, `LotHistory` which buy, marks and sell each
  lot has had.
* **The trade simulators** (`analyze-bithumb-candidate-benchmark.ts`, `analyze-bithumb-momentum.ts`,
  `analyze-binance-derivatives-gated-bithumb-momentum.ts`, `analyze-cross-market-lead-lag.ts`,
  `analyze-order-flow-continuation.ts`). `Greedy` is their shared way of choosing non-overlapping entries, its
  optimality and what cutting the range does to it; `CandleSignals`, `BenchmarkSimulator`, `GatedSimulator`,
  `TimedSimulators` and `Drawdown` are the programs themselves; `IndexFolds`, `FoldExamples` and `ThresholdFolds` are
  the walk-forward folds by index; `TimedCausality` and `TimedTrades` are what the
  book-based simulators know by a given time, and which trades they take.
* **The order-book walk and the two-venue edge** (`analyze-spot-perp-carry.ts`, `analyze-bithumb-execution-universe.ts`,
  `analyze-cross-exchange-relative-value.ts`), in `DepthWalk` and `VenueEdge`.
* **Lookups** (`passive_features.py`, `analyze-maker-fill-quality.ts`): binary searches, minute bars, the nearest
  record and the queue-position fill, each equal to a plain definition, in `Lookups` and `MakerFill`.

`Basics`, `Lexicographic` and `RealArithmetic` hold shared vocabulary.

## What turned out to be the exact condition

Some properties one would expect do not hold of every input. For each, the failing case is shown and the condition
under which it does hold is proved; unless said otherwise that condition is exact.

* A session cut in two composes iff the position handed over, if there is one, holds more than 1e-12 base units
  (`CarryComposes`); a smaller one is silently dropped by the loader, and then no later points and no closing policy
  make the two parts add up (`DustBreaksCarry`, with a session in `DustIsHandedOver`). A cut inside a 15-second bucket
  never composes (`StraddlingCutBreaksSession`). If the second part never mentions the held market, an artificial close
  has no snapshot to use; the source raises a `KeyError`, the model returns `MissingSnapshot`, and `CarryComposes` says
  exactly when.
* Cash never falls below the lesser of the starting cash and 49999.999 KRW, unless a carried short position is bought
  back (`CashFloor`, `ShortPositionBreaksFloor`). The tempting bound of 50000 is missed by one thousandth, because the
  notional is rounded to three decimals: a run ends on the floor in `CashFloorIsTight`, and `EntryLeavesLessIff` says
  which entries leave less than 50000.
* The holding time is bounded in every profile except the unguarded trend-hold one, under which a position can be held
  to any age (`TrendHoldIsUnbounded`).
* A sell whose market is not that of the oldest open lot matches nothing, even if later lots are of its market
  (`SellClosesIffHeadMatches`).
* KRW and basis-point excursions agree iff the buy cost something (`ConsistentIffCostly`).
* Walk-forward folds by index start over at each boundary. Their trades, one fold after another, are the trades of the
  uncut simulation iff at every boundary no bar of the next fold passes while the last trade of the folds before is
  still open, whatever the exit policy (`FoldsAreWholeIff`). Otherwise the folds take different trades. Under a fixed
  hold the counts still differ by at most one per boundary, upwards (`FoldsAddAtMostOnePerBoundary`,
  `FixedHoldFoldsDiffer`); under profit protection they can differ by more, and in both directions
  (`ProtectedFoldsGainFive`, `ProtectedFoldsLoseOne`). Folds by time only sort the trades of one simulation and do
  partition them (`FoldsPartition`).
* In the book-based simulators a trade that has exited by a time depends only on what is known by then
  (`LeadLagIsCausal`, `FlowIsCausal`). An entry may depend on more, because a trade is only taken when the book for its
  exit exists (`LeadLagEntryLooksAhead`): two runs that agree through a time have the same entries by then iff no trade
  is pending there, or the books of both or of neither reach its exit (`EntriesAgreeIff`).
* The momentum program hands the risk threshold it takes from the candles before the split to every walk-forward fold. A
  fold depends only on candles through its own end if no risk filter is set or the split is not after that end
  (`FoldIsCausal`); this is sufficient and not necessary, since a later candle need not move the quantile.
  `FirstFoldLooksAhead` is a first fold of 500 candles whose trades change with candles after it.
* `depthSummary` and `executableDepth` consume the same iff the requested notional is not negative or there is no
  usable level (`SummaryAgreesWithWalk`).
* A maker order with nothing to consume still waits for the first eligible trade (`FreeOrderWaitsForTrade`).
* At a given moment the fall from the running peak is the worst fall from any earlier moment iff the path is not in
  debt there or was never positive below its peak (`PeakIsDeepestIff`). If that holds at every moment the drawdown is
  the worst fall between any two (`WorstOfAllPairs`). Exactly, it bounds every pair iff it bounds those that end in debt
  (`DebtDecides`). `DebtFallsFurther` shows the failure.

## Model

| member | source | states |
|---|---|---|
| SessionPoints.DownsampleMembers | org_coin_data/session_scenario.py:551-559 | of each market and 15-second bucket exactly one point survives, and it is one of the input |
| SessionPoints.DownsampleKeepsLatest | org_coin_data/session_scenario.py:551-559 | exactly one point per market and 15 seconds survives, and of sorted input it is the latest |
| SessionPoints.DownsampleSorted | org_coin_data/session_scenario.py:551-559 | the survivors of sorted input come in strict order of time, then market |
| SessionPoints.DownsampleConcat | org_coin_data/session_scenario.py:551-559 | a cut that shares no bucket commutes with the thinning |
| SessionPoints.StraddlingCutDiffers | org_coin_data/session_scenario.py:551-559 | a cut inside a bucket never does |
| SessionPoints.SortedListingUnique | org_coin_data/session_scenario.py:551-559 | sorting the dictionary values has one possible outcome, whatever the dictionary's order |
| SessionPoints.LatestByMarketBucket | org_coin_data/session_scenario.py:552-555 | the loop's dictionary holds exactly the surviving points under their keys |
| SessionPoints.InsertSorted | org_coin_data/session_scenario.py:556-559 | one insertion keeps the list strictly sorted and adds exactly that point |
| SessionPoints.DownsamplePoints | org_coin_data/session_scenario.py:551-559 | the dictionary algorithm keeps exactly the points no later point of their bucket replaces, in order |
| SessionPoints.BucketsPartition | org_coin_data/session_scenario.py:718-747 | grouping loses no point; buckets are non-empty, simultaneous, one point per market, strictly increasing in time |
| SessionPoints.BucketsConcat | org_coin_data/session_scenario.py:718-747 | a cut between two instants is a cut between two buckets |
| Eligibility.EligibleClearsHurdle | org_coin_data/eligibility.py:281-485 | a decision is a tier or a suppression, never both; an eligible point's return strictly exceeds two fees, spread and buffer |
| Eligibility.StaleIffCoverageShort | org_coin_data/eligibility.py:292-456 | a suppression is called stale iff the profile's or the market's coverage window is missed by more than half a second |
| Eligibility.FailuresAreGenuine | org_coin_data/eligibility.py:304-456 | every recorded failure has a positive deficit, except a return equal to its strict threshold or a missing one-minute return |
| Eligibility.FailuresAreExact | org_coin_data/eligibility.py:292-447 | a failure is recorded iff the metric misses the profile's or the market's threshold, with the value and the threshold, gate by gate |
| Eligibility.FailuresAreCounted | org_coin_data/eligibility.py:292-447 | each field is recorded as often as a threshold of it is missed |
| Eligibility.TierIsExact | org_coin_data/eligibility.py:448-485 | a point is eligible iff no threshold is missed and the medium or high tier is met, high iff the high one is |
| Eligibility.BetterMetricsKeepTier | org_coin_data/eligibility.py:296-485 | improving the metrics never loses a tier, although the required return moves with the spread |
| ExitPolicy.PnlPctInPrices | org_coin_data/exit_policy.py:157-158 | a percentage threshold is a price threshold relative to the entry |
| ExitPolicy.KeptPositionIsYoung | org_coin_data/exit_policy.py:189-203 | a position that is kept is younger than its profile's bound, or its five-minute return is positive |
| ExitPolicy.ExitInPrices | org_coin_data/exit_policy.py:156-203 | each of the five exits happens exactly under its condition in prices, times and counts, the earlier ones taking precedence; a position is kept iff none is met |
| SessionReplay.PositionState.constructor | org_coin_data/session_scenario.py:60-69 | the mutable record starts as the position given |
| SessionReplay.PositionState.ObservePoint | org_coin_data/session_scenario.py:766-781 | the in-place update of peak and both counters is the streaming update |
| SessionReplay.SessionReplay.constructor | org_coin_data/session_scenario.py:719-744 | the run starts with the carried position, the cash and no events or counts |
| SessionReplay.SessionReplay.RecordSnapshots | org_coin_data/session_scenario.py:750-752 | appends one snapshot event per point and remembers the latest per market |
| SessionReplay.SessionReplay.ObserveHeld | org_coin_data/session_scenario.py:759-796 | updates the held position with its market's point and decides its exit on the updated state |
| SessionReplay.SessionReplay.ManagePosition | org_coin_data/session_scenario.py:754-840 | a bucket that starts with a position sells it or keeps it, and evaluates no entry either way |
| SessionReplay.SessionReplay.CountFields | org_coin_data/session_scenario.py:863-864 | counts each failing field once per failure |
| SessionReplay.SessionReplay.CountDecision | org_coin_data/session_scenario.py:853-871 | counts one suppressed decision under reason, fields and combination |
| SessionReplay.SessionReplay.Consider | org_coin_data/session_scenario.py:878-886 | only a strictly larger score replaces the leader |
| SessionReplay.SessionReplay.ConsiderPoint | org_coin_data/session_scenario.py:849-886 | each point runs in the race of the eligible or of the suppressed |
| SessionReplay.SessionReplay.ScanCandidates | org_coin_data/session_scenario.py:844-886 | finds both leaders and counts every suppressed point |
| SessionReplay.SessionReplay.TakeDecision | org_coin_data/session_scenario.py:888-956 | enters at the leader, counts a notional below the minimum, or records the leading suppressed point |
| SessionReplay.SessionReplay.EvaluateEntryBucket | org_coin_data/session_scenario.py:842-956 | a bucket without a position is one entry decision and its accounting |
| SessionReplay.SessionReplay.Step | org_coin_data/session_scenario.py:746-956 | one pass of the loop: position, cash, events and every counter |
| SessionReplay.SessionReplay.Run | org_coin_data/session_scenario.py:746-956 | the loop computes the state and the accounting of the whole run |
| SessionReplay.SessionReplay.Close | org_coin_data/session_scenario.py:958-1013 | the artificial close, its missing-snapshot error, or the hand-over |
| SessionPoints.GroupsAreBuckets | org_coin_data/session_scenario.py:718-747 | the points of each distinct time, taken in ascending order of time, are the buckets |
| SessionReplay.SortTimes | org_coin_data/session_scenario.py:746-746 | the dictionary's keys in strictly ascending order, none lost |
| SessionReplay.SortByMarket | org_coin_data/session_scenario.py:747-747 | the points of one time in strict market order, none lost |
| SessionReplay.GroupByTimestamp | org_coin_data/session_scenario.py:718-747 | the dictionary of lists, read in sorted key order with each list sorted, yields the buckets |
| SessionReplay.BuildSessionScenario | org_coin_data/session_scenario.py:686-1067 | the whole program, with its three errors, computes the specified report |
| SessionCarry.CoreAfterConcat | org_coin_data/session_scenario.py:746-956 | position and cash after two parts are those after the whole |
| SessionCarry.RunTotalsConcat | org_coin_data/session_scenario.py:746-956 | events, samples and all counters of two parts add up to those of the whole |
| SessionCarry.LatestCovers | org_coin_data/session_scenario.py:750-752 | a latest snapshot exists for exactly the markets seen |
| SessionCarry.ResumeRestoresPosition | org_coin_data/session_scenario.py:636-683 | a follow-up session starts with the position handed over iff it holds more than 1e-12 units |
| SessionCarry.LoadIsExact | org_coin_data/session_scenario.py:636-683 | a session starts flat iff no carried position exceeds 1e-12 units, fails iff two do, and else holds the one, as its detailed state describes it |
| SessionCarry.CarryComposes | org_coin_data/session_scenario.py:551-1013 | a carry-open session resumed over later points equals one session over both (events, samples, counters, cash, position, and the one case in which the second fails) iff what is handed over exceeds 1e-12 units or is nothing |
| SessionCarry.CutRun | org_coin_data/session_scenario.py:746-1013 | the same for any cut between buckets |
| SessionCarry.FinishJoined | org_coin_data/session_scenario.py:958-1013 | ending the second part is ending the whole, unless the held market was never seen there |
| SessionCarry.DustBreaksCarry | org_coin_data/session_scenario.py:636-650 | a handed-over position of at most 1e-12 units makes the two parts fail to add up, for all later points and closing policies |
| SessionCarry.DustIsHandedOver | org_coin_data/session_scenario.py:636-661 | a concrete carried state and session, under any configuration, in which that happens |
| SessionCarry.StraddlingCutBreaksSession | org_coin_data/session_scenario.py:551-1013 | a cut inside a bucket never composes: the parts record more snapshots than the whole |
| SessionCarry.UnmentionedPositionStays | org_coin_data/session_scenario.py:754-836 | a held market that no bucket mentions freezes position and cash |
| SessionCarry.PositionHasOrigin | org_coin_data/session_scenario.py:746-956 | a position held at the end was carried in or its market was seen |
| SessionEntries.FirstMaxLeads | org_coin_data/session_scenario.py:878-886 | the scan finds the first of the largest scores, and none iff there is none |
| SessionEntries.ScoresRank | org_coin_data/session_scenario.py:478-485 | scores rank a high tier before a medium one, then by return, buy share, depth ratio and smaller spread |
| SessionEntries.SuppressedScoresRank | org_coin_data/session_scenario.py:488-495 | suppressed points rank without tiers, last by turnover |
| SessionEntries.RoundsToNearest | org_coin_data/session_scenario.py:582-582 | rounding gives the nearest thousandth, in a tie the even one |
| SessionEntries.Round3Error | org_coin_data/session_scenario.py:582-582 | so it moves the notional by at most half a thousandth |
| SessionEntries.RequestIsSized | org_coin_data/session_scenario.py:562-582 | the requested notional is, rounded, the smaller of half the cash, or a fifth when live, and of 1.5 times what the best ask offers |
| SessionEntries.EntryIsBestEligible | org_coin_data/session_scenario.py:842-956 | an entry is the best eligible point, ranked as above, at that notional, if it is at least 50000, bought in full at the ask; otherwise nothing is bought, and with no eligible point the sample is the best suppressed one, at its own notional |
| SessionEntries.SessionGates | org_coin_data/session_scenario.py:401-415 | a session finds a point eligible iff the point clears every gate of the profile and of its market and the thresholds of a tier; it suppresses any other |
| SessionEntries.EverySessionBuysRight | org_coin_data/session_scenario.py:842-956 | over a whole session, whatever is bought clears every gate; where a bucket leaves a sample, none of its points does |
| SessionSafety.SignalsPair | org_coin_data/session_scenario.py:754-956 | buys and sells alternate, a sell names the held market strictly after its buy, and the signals determine what is held |
| SessionSafety.HeldCount | org_coin_data/session_scenario.py:754-956 | carried plus entries minus exits is the number of positions held, never above one |
| SessionSafety.ReportIsPaired | org_coin_data/session_scenario.py:746-1013 | the same with the ending: a state is handed on iff one is up, only under carry_open; else nothing is held |
| SessionSafety.CashLedger | org_coin_data/session_scenario.py:828-937 | cash is starting cash minus entry notionals plus quantity times bid of the exits |
| SessionSafety.CashFloor | org_coin_data/session_scenario.py:562-582 | cash stays at or above the lesser of the start, less what buying back a carried short position cost, and 49999.999 |
| SessionSafety.ShortPositionBreaksFloor | org_coin_data/session_scenario.py:828-828 | a carried short position does break the plain floor in some bucket |
| SessionSafety.EntryLeavesLessIff | org_coin_data/session_scenario.py:562-582 | an entry leaves less than 50000 iff the session is not live, spends exactly 50000 and held less than 100000 |
| SessionSafety.CashFloorIsTight | org_coin_data/session_scenario.py:564-582 | a run that ends with exactly 49999.999 |
| SessionSafety.EligibilityIsDecisive | org_coin_data/session_scenario.py:401-415 | every point is eligible or suppressed for a reason |
| SessionSafety.NeverIdle | org_coin_data/session_scenario.py:842-956 | an evaluated bucket always enters, falls below the minimum or leaves a sample |
| SessionSafety.CompleteAccounting | org_coin_data/session_scenario.py:834-956 | every bucket is counted exactly once; suppressions and gate combinations both count the ineligible points of evaluated buckets |
| SessionSafety.ReplayIsSafe | org_coin_data/session_scenario.py:746-1063 | pairing, cash and accounting for any run with any decisive entry rule |
| SessionSafety.EverySessionIsSafe | org_coin_data/session_scenario.py:686-1063 | the same for every session over any points with the source's entry gates |
| SessionHistory.PositionHasHistory | org_coin_data/session_scenario.py:766-781 | counters equal the run lengths recomputed from the points since the entry, or on top of the carried counters; the peak is the highest of the base's and their bids |
| SessionHistory.ExitsAreDecidedByHistory | org_coin_data/session_scenario.py:754-832 | whenever the held market is in a bucket, the opened or carried position is sold for a reason iff the points since and what was carried call for it, and kept iff they call for none |
| SessionHistory.HoldingIsBounded | org_coin_data/exit_policy.py:189-201 | after any bucket with the held market the position is younger than its profile's bound |
| SessionHistory.TrendHoldIsUnbounded | org_coin_data/exit_policy.py:107-117 | without the guard there are runs, with a point every 15 seconds, after which a bought position is held at any age |
| SessionReport.BucketIsRecorded | org_coin_data/session_scenario.py:750-956 | a bucket appends its snapshots in order, then its signal, its sample and its market, if it has one |
| SessionReport.TradedAreBought | org_coin_data/session_scenario.py:939-939 | the markets traded are those of the buy signals |
| SessionReport.LatestIsLastSeen | org_coin_data/session_scenario.py:750-752 | a market's latest snapshot is that of the last point seen of it |
| SessionReport.SnapshotMoves | org_coin_data/session_scenario.py:72-88 | a closing snapshot is the last one moved in time: otherwise unchanged to force the bid, all prices at the midpoint to mark |
| SessionReport.EndingIsExact | org_coin_data/session_scenario.py:958-1014 | a run ends flat, hands its position over, or closes it on the last snapshot of its market, unchanged or at the midpoint as the policy says, with a synthetic sell a second after the last point or the maximum hold, whichever is later |
| SessionReport.FailuresOfSession | org_coin_data/session_scenario.py:686-971 | which of the three errors a session ends with, and when |
| SessionReport.CountsAreExact | org_coin_data/session_scenario.py:853-871 | the counting dictionaries count exactly the suppressed points of the buckets that start flat, by reason, by each failure and by combination of fields |
| LotMatcher.OpenTrade.constructor | src/cli/analyze-trade-paths.ts:787-804 | the mutable record starts as the lot given |
| LotMatcher.OpenTrade.UpdateMark | src/cli/analyze-trade-paths.ts:182-201 | marks one open trade in place |
| LotMatcher.OpenTrade.Close | src/cli/analyze-trade-paths.ts:821-858 | closes part of a trade in place and keeps the rest |
| LotMatcher.LotMatcher.UpdateMarks | src/cli/analyze-trade-paths.ts:182-201 | marks every open trade with one snapshot |
| LotMatcher.LotMatcher.ProcessFill | src/cli/analyze-trade-paths.ts:778-863 | one fill on the queue, in place |
| LotMatcher.LotMatcher.OpenFromBuy | src/cli/analyze-trade-paths.ts:784-806 | a buy appends one lot |
| LotMatcher.LotMatcher.CloseFromSell | src/cli/analyze-trade-paths.ts:815-862 | the matching loop, which ends |
| LotMatcher.LotMatcher.CloseHead | src/cli/analyze-trade-paths.ts:817-861 | one pass: the head lot is closed, replaced by its rest, or retired |
| LotProofs.Conservation | src/cli/analyze-trade-paths.ts:778-863 | bought quantity, cost and quote each equal open plus closed plus retired, over any fills and marks |
| LotProofs.EveryBookIsWellFormed | src/cli/analyze-trade-paths.ts:182-863 | each amount is quantity times its per-unit history, marks included; lots close in buying order; at most 1e-12 units retire per lot |
| LotProofs.MarkKeepsScaled | src/cli/analyze-trade-paths.ts:182-201 | a mark extends the per-unit extremes by bid minus unit cost |
| LotProofs.CloseKeepsScaled | src/cli/analyze-trade-paths.ts:821-858 | a partial close leaves the per-unit history of both parts unchanged |
| LotProofs.ExcursionsAreConsistent | src/cli/analyze-trade-paths.ts:182-201 | KRW excursion times 10000 is bps excursion times cost, open and closed |
| LotProofs.ConsistentIffCostly | src/cli/analyze-trade-paths.ts:188-201 | iff the buy cost something |
| LotProofs.SellAllocates | src/cli/analyze-trade-paths.ts:815-862 | proceeds and fee are shared in proportion to quantity; what stays unmatched is dust, or the queue is empty or blocked |
| LotProofs.FullyMatchedSell | src/cli/analyze-trade-paths.ts:825-831 | a fully matched sell realizes its net proceeds minus the cost it closed |
| LotProofs.RealizedIsNetProceeds | src/cli/analyze-trade-paths.ts:778-863 | over a run, total realized result is matched net proceeds minus closed cost |
| LotProofs.SellClosesIffHeadMatches | src/cli/analyze-trade-paths.ts:815-820 | a sell changes the book iff it exceeds 1e-12 and the oldest lot is of its market |
| LotHistory.BooksAreLabelled | src/cli/analyze-trade-paths.ts:784-858 | every lot and closed trade has the market and time of its buy, and a closed one those of a sell |
| LotHistory.EveryMarkIsSeen | src/cli/analyze-trade-paths.ts:182-201 | the history of an open lot is exactly the bids shown of its market since its buy |
| Greedy.GreedyIsRival | src/cli/analyze-bithumb-momentum.ts:486-522 | the entries taken are passing bars of the range at least the hold apart |
| Greedy.GreedyStaysAhead | src/cli/analyze-bithumb-momentum.ts:486-522 | no other such choice has more entries or an earlier k-th one |
| Greedy.StricterFilterIsBehind | src/cli/analyze-binance-derivatives-gated-bithumb-momentum.ts:427-434 | a stricter filter never has more entries nor an earlier k-th one |
| Greedy.ChosenFollow | src/cli/analyze-bithumb-candidate-benchmark.ts:363-411 | with varying exits, entries still come no earlier than the exit before |
| Greedy.ChoiceIsCausal | src/cli/analyze-bithumb-candidate-benchmark.ts:363-411 | entries and exits through k depend only on signals and exits known by k |
| Greedy.RestartGainsAtMostOne | src/cli/analyze-bithumb-momentum.ts:546-566 | restarting the loop gains at most one entry and loses none |
| Greedy.FoldStartsIncrease | src/cli/analyze-bithumb-momentum.ts:548-549 | floor-computed fold bounds start at 0, end at the length and never decrease |
| Greedy.FoldStartIsShare | src/cli/analyze-bithumb-momentum.ts:548-549 | a fold starts at the whole number of candles in its share |
| Greedy.FoldsNearlyPartition | src/cli/analyze-bithumb-momentum.ts:538-566 | under a fixed hold k folds count between the whole and k - 1 more |
| Greedy.ChosenSplits | src/cli/analyze-bithumb-candidate-benchmark.ts:363-411 | the loop over a range is the loop over its first part, continued |
| Greedy.BlockedLonger | src/cli/analyze-bithumb-candidate-benchmark.ts:369-408 | being blocked longer changes the choice iff a bar passes in the meantime |
| Greedy.RestartAgreesIff | src/cli/analyze-bithumb-candidate-benchmark.ts:363-411 | starting over at a cut gives the same entries iff no bar after it passes while the last trade before it is open, for any exits |
| Greedy.FoldedAgreesIff | src/cli/analyze-bithumb-candidate-benchmark.ts:434-447 | the same for any number of folds |
| CandleSignals.AccumulateSquares | src/cli/analyze-bithumb-candidate-benchmark.ts:331-338 | the loop sums the squared returns of the last 24 bars |
| CandleSignals.ComputeRisk | src/cli/analyze-bithumb-candidate-benchmark.ts:327-345 | the risk measure, with its loop, is the specified one |
| CandleSignals.TestSignal | src/cli/analyze-bithumb-candidate-benchmark.ts:347-361 | the early returns amount to the signal predicate |
| CandleSignals.SignalInPrices | src/cli/analyze-bithumb-candidate-benchmark.ts:327-361 | a bar passes iff its close has moved by the minimum since the lookback, up or down as the mode says, and the last 24 bars are calm by the filter's own measure |
| CandleSignals.SampleAt | src/cli/analyze-bithumb-momentum.ts:431-439 | the sample of a threshold has one risk value per bar from bar 24 up to the split |
| CandleSignals.SignalIsCausal | src/cli/analyze-bithumb-candidate-benchmark.ts:327-361 | the signal at a bar depends only on candles through it |
| CandleSignals.ThresholdsAreCausal | src/cli/analyze-bithumb-momentum.ts:421-453 | the sample behind the risk thresholds depends only on candles before the split |
| BenchmarkSimulator.EarlyExitIsFirstGiveBack | src/cli/analyze-bithumb-candidate-benchmark.ts:374-396 | a protective exit is the first bar in profit that has given back the threshold from its peak, none if there is no such bar |
| BenchmarkSimulator.FindEarlyExit | src/cli/analyze-bithumb-candidate-benchmark.ts:379-395 | the inner loop with its running peak finds it |
| BenchmarkSimulator.OpenTrade | src/cli/analyze-bithumb-candidate-benchmark.ts:370-407 | one trade with its exit, result and reason |
| BenchmarkSimulator.Simulate | src/cli/analyze-bithumb-candidate-benchmark.ts:363-411 | the simulation loop takes exactly the chosen entries |
| BenchmarkSimulator.TradesPayOff | src/cli/analyze-bithumb-candidate-benchmark.ts:363-411 | every trade exits at the first bar that has given back too much of its best one, else at the end of the hold, and makes its notional's share of the price change less the round-trip fee: a gain iff the price rose by more than the fee |
| BenchmarkSimulator.RangeIsExact | src/cli/analyze-bithumb-candidate-benchmark.ts:366-367 | the bars at which an entry is looked for |
| BenchmarkSimulator.TradesNeverOverlap | src/cli/analyze-bithumb-candidate-benchmark.ts:363-411 | trades enter at passing bars, in order, each no earlier than the exit before |
| BenchmarkSimulator.SimulationIsCausal | src/cli/analyze-bithumb-candidate-benchmark.ts:363-411 | series that agree through k give the same entries and the same finished trades through k, protection included |
| BenchmarkSimulator.FixedHoldIsOptimal | src/cli/analyze-bithumb-momentum.ts:486-522 | without protection no choice of passing bars the hold apart has more trades or an earlier k-th |
| IndexFolds.FoldsAreWholeIff | src/cli/analyze-bithumb-candidate-benchmark.ts:434-447 | under any exit policy the five folds take the trades of the whole run iff no bar of a fold passes while the last trade of the folds before is open |
| IndexFolds.FoldsAddAtMostOnePerBoundary | src/cli/analyze-bithumb-momentum.ts:538-566 | counts, fixed hold: the five folds count at least as many trades as the whole run and at most four more |
| IndexFolds.RangeEntries | src/cli/analyze-bithumb-candidate-benchmark.ts:363-369 | simulating a range is the plain loop between the clamped bounds |
| FoldExamples.FixedHoldFoldsDiffer | src/cli/analyze-bithumb-candidate-benchmark.ts:363-447 | a fixed-hold series with three trades uncut and four in the folds |
| FoldExamples.ProtectedFoldsGainFive | src/cli/analyze-bithumb-candidate-benchmark.ts:374-447 | a protected series with one trade uncut and six in the folds |
| FoldExamples.ProtectedFoldsLoseOne | src/cli/analyze-bithumb-candidate-benchmark.ts:374-447 | a protected series with three trades uncut and two in the folds |
| ThresholdFolds.FoldIsCausal | src/cli/analyze-bithumb-momentum.ts:421-566 | series that agree through a fold's end give it the same threshold and entries, if no filter is set or the split is not after that end |
| ThresholdFolds.FirstFoldLooksAhead | src/cli/analyze-bithumb-momentum.ts:421-566 | two series that agree through the first fold, with the range filter at its 70% quantile: the fold trades in one and not in the other |
| GatedSimulator.LowerOrEqual | src/cli/analyze-binance-derivatives-gated-bithumb-momentum.ts:351-364 | the scan returns the last row whose time is known and not later |
| GatedSimulator.RegimeIsCausal | src/cli/analyze-binance-derivatives-gated-bithumb-momentum.ts:366-393 | later rows and rows without a time never matter to the gate |
| GatedSimulator.TestRegime | src/cli/analyze-binance-derivatives-gated-bithumb-momentum.ts:366-393 | five scans decide the regime; a missing or unreadable figure never passes |
| GatedSimulator.RegimeIsDecided | src/cli/analyze-binance-derivatives-gated-bithumb-momentum.ts:351-393 | the regime passes iff all five figures can be read, each from the last row known at its time, and are favourable |
| GatedSimulator.BetterFiguresKeepRegime | src/cli/analyze-binance-derivatives-gated-bithumb-momentum.ts:366-393 | lower funding, more open interest, fewer longs and more taker buying never close the gate |
| GatedSimulator.Offer | src/cli/analyze-binance-derivatives-gated-bithumb-momentum.ts:427-434 | one of the two lists takes the bar or stays as it is |
| GatedSimulator.Simulate | src/cli/analyze-binance-derivatives-gated-bithumb-momentum.ts:399-437 | one loop builds both lists, each the greedy choice of its own bars |
| GatedSimulator.SignalsInPrices | src/cli/analyze-binance-derivatives-gated-bithumb-momentum.ts:415-420 | a momentum bar's close exceeds that of the lookback by the minimum; a gated bar passes the regime at its time as well |
| GatedSimulator.RangeIsExact | src/cli/analyze-binance-derivatives-gated-bithumb-momentum.ts:411-412 | the bars at which an entry is looked for |
| GatedSimulator.TradesPayOff | src/cli/analyze-binance-derivatives-gated-bithumb-momentum.ts:421-426 | every trade is held for the fixed time and makes its notional's share of the price change less the fee |
| GatedSimulator.BaselineIsOptimal | src/cli/analyze-binance-derivatives-gated-bithumb-momentum.ts:399-437 | the baseline's count is the maximum over all choices and its k-th entry is earliest |
| GatedSimulator.GatingNeverAddsTrades | src/cli/analyze-binance-derivatives-gated-bithumb-momentum.ts:399-437 | the gated list is no longer and never ahead, passes the regime, and among gated bars has the most entries and the earliest k-th |
| GatedSimulator.SimulationIsCausal | src/cli/analyze-binance-derivatives-gated-bithumb-momentum.ts:351-437 | candles and derivative rows that agree through k give both lists the same entries and finished trades through k |
| TimedSimulators.LowerBoundBook | src/cli/analyze-cross-market-lead-lag.ts:272-281 | the binary search returns the scan's book |
| TimedSimulators.BookAtIsFirst | src/cli/analyze-cross-market-lead-lag.ts:272-281 | it is the earliest book at or after the time, none iff all are earlier |
| TimedSimulators.OpenLeadLag | src/cli/analyze-cross-market-lead-lag.ts:379-399 | one trade, if both books exist |
| TimedSimulators.SimulateLeadLag | src/cli/analyze-cross-market-lead-lag.ts:324-404 | the loop with its blocked-until time |
| TimedSimulators.LeadLagIsSequential | src/cli/analyze-cross-market-lead-lag.ts:335-401 | trades exit after they enter and never overlap, in whatever order the signals come |
| TimedSimulators.Advance | src/cli/analyze-order-flow-continuation.ts:420-425 | the pointer stops at the last snapshot at or before the target |
| TimedSimulators.MovePointer | src/cli/analyze-order-flow-continuation.ts:417-429 | the moving pointer finds at every step what a scan from the end finds |
| TimedSimulators.OpenFlow | src/cli/analyze-order-flow-continuation.ts:433-450 | one trade, if both books exist |
| TimedSimulators.SimulateFlow | src/cli/analyze-order-flow-continuation.ts:407-457 | the loop equals the one that scans at every snapshot, with at most n pointer moves in all |
| TimedSimulators.FlowIsSequential | src/cli/analyze-order-flow-continuation.ts:431-453 | order-flow trades never overlap |
| TimedSimulators.FilterFold | src/cli/analyze-cross-market-lead-lag.ts:448-448 | count and total of the trades entered in a half-open interval |
| TimedSimulators.WalkForward | src/cli/analyze-cross-market-lead-lag.ts:430-449 | the five folds with their floor-computed bounds |
| TimedSimulators.FoldsPartition | src/cli/analyze-cross-market-lead-lag.ts:430-461 | every trade is in exactly one fold; counts and unrounded totals add up |
| TimedSimulators.LeadLagFoldsPartition | src/cli/analyze-cross-market-lead-lag.ts:324-461 | so for the trades of every lead-lag simulation, membership and sums |
| TimedSimulators.FlowFoldsPartition | src/cli/analyze-order-flow-continuation.ts:407-504 | and for the trades of every order-flow simulation |
| TimedCausality.ExitsAreCausal | src/cli/analyze-cross-market-lead-lag.ts:324-404 | trades that have exited by t are those of a run that knows only books and moments by t |
| TimedCausality.EntriesByTime | src/cli/analyze-cross-market-lead-lag.ts:379-401 | entries by t are those of the finished trades and, iff the books ever reach its exit, the pending one |
| TimedCausality.EntriesAgreeIff | src/cli/analyze-cross-market-lead-lag.ts:379-401 | two runs that agree through t have the same entries by t iff nothing is pending or both or neither see the pending exit |
| TimedCausality.EntryLooksAhead | src/cli/analyze-cross-market-lead-lag.ts:379-388 | two runs with the same books and moments by 5 whose entries by 5 differ |
| TimedCausality.LeadLagEntryLooksAhead | src/cli/analyze-cross-market-lead-lag.ts:379-388 | an entry at 1 that exists only if a book at 11 does |
| TimedCausality.LeadLagIsCausal | src/cli/analyze-cross-market-lead-lag.ts:324-404 | finished lead-lag trades depend only on the books and signals by t |
| TimedCausality.FlowIsCausal | src/cli/analyze-order-flow-continuation.ts:407-457 | finished order-flow trades depend only on the books and snapshots by t, recovery base included |
| TimedTrades.LeadLagTradeIsOpened | src/cli/analyze-cross-market-lead-lag.ts:324-404 | every lead-lag trade is that of a passing signal, on the first books for it, bought at the ask and sold at the bid less the fee |
| TimedTrades.NoLeadLagSignalIsMissed | src/cli/analyze-cross-market-lead-lag.ts:335-401 | no passing signal whose exit book comes is left out, except while a trade is open |
| TimedTrades.PassesIffCalls | src/cli/analyze-order-flow-continuation.ts:362-404 | a snapshot passes iff it calls for a trade in its mode, a recovery measured against the last snapshot a lookback before |
| TimedTrades.FlowTradeIsOpened | src/cli/analyze-order-flow-continuation.ts:407-457 | every order-flow trade is that of a snapshot that calls for it, on the first books for it, at ask and bid less the fee |
| TimedTrades.NoFlowCallIsMissed | src/cli/analyze-order-flow-continuation.ts:417-455 | no snapshot that calls for a trade, and whose exit book comes, is left out, except while one is open |
| Drawdown.MaxDrawdown | src/cli/analyze-bithumb-candidate-benchmark.ts:464-472 | the loop finds the deepest fall from the running peak |
| Drawdown.PeakIsDeepestIff | src/cli/analyze-bithumb-candidate-benchmark.ts:464-472 | at a moment, the fall from the peak is the worst from any earlier one iff the path is not in debt or was never positive below its peak |
| Drawdown.WorstOfAllPairs | src/cli/analyze-bithumb-candidate-benchmark.ts:464-472 | if that holds throughout, the drawdown is the worst fall between any two moments |
| Drawdown.DebtDecides | src/cli/analyze-bithumb-candidate-benchmark.ts:464-472 | the drawdown bounds the fall of every pair of moments iff it bounds those of the pairs that end in debt |
| Drawdown.DebtFallsFurther | src/cli/analyze-bithumb-candidate-benchmark.ts:464-472 | with debt it is not |
| DepthWalk.ExecutableDepth | src/cli/analyze-spot-perp-carry.ts:1129-1149 | the loop computes the walk's average price; coverage holds iff the total depth reaches the requirement |
| DepthWalk.WalkConsumes | src/cli/analyze-spot-perp-carry.ts:1129-1149 | consumed notional is the smaller of the requirement and the total |
| DepthWalk.WalkIsPurchase | src/cli/analyze-spot-perp-carry.ts:1129-1149 | the walk is a purchase level by level: no level gives more than it has, nor anything before those ahead of it are used up, until the requirement is met or nothing is left |
| DepthWalk.ExtraUnitsCost | src/cli/analyze-spot-perp-carry.ts:1135-1142 | every extra unit of a larger order costs at least the best price |
| DepthWalk.AverageNoBetter | src/cli/analyze-spot-perp-carry.ts:1129-1149 | the average is no better than the best price, on either side |
| DepthWalk.AverageIsMonotone | src/cli/analyze-spot-perp-carry.ts:1129-1149 | on sorted levels the average never improves with the notional, on either side |
| DepthWalk.WalkScales | src/cli/analyze-spot-perp-carry.ts:1119-1149 | scaling prices and notional by q scales what is paid by q and leaves the size |
| DepthWalk.AverageScales | src/cli/analyze-spot-perp-carry.ts:1119-1149 | and so the average by q |
| DepthWalk.DepthSummary | src/cli/analyze-bithumb-execution-universe.ts:300-345 | the loop over unchecked levels summarizes the usable ones |
| DepthWalk.GoodAreUsable | src/cli/analyze-bithumb-execution-universe.ts:300-345 | the usable levels are those with positive price and size |
| DepthWalk.SummaryAgreesWithWalk | src/cli/analyze-bithumb-execution-universe.ts:300-345 | both walks agree on the usable levels iff the notional is not negative or none is usable; coverage and average always agree |
| DepthWalk.SummaryStopsAtCover | src/cli/analyze-bithumb-execution-universe.ts:322-326 | the summary uses the shortest covering prefix, at least one level, and names its last price |
| VenueEdge.EdgeForReference | src/cli/analyze-cross-exchange-relative-value.ts:667-733 | the reported edge is the larger of both directions, ties to selling on Bithumb, with its result and coverage |
| VenueEdge.EdgePays | src/cli/analyze-cross-exchange-relative-value.ts:685-692 | the result of an edge is what the units bought for the notional, fee included, bring when sold, less their fee, minus the notional |
| VenueEdge.OnlyBinanceConverts | src/cli/analyze-cross-exchange-relative-value.ts:639-661 | only Binance books are converted, and only with a rate or a quote |
| VenueEdge.ExecutablePricesUncrossed | src/cli/analyze-cross-exchange-relative-value.ts:681-684 | executable prices of an uncrossed book are no better than its best prices |
| VenueEdge.SortedIsUncrossed | src/cli/analyze-cross-exchange-relative-value.ts:677-684 | sorted levels below uncrossed best prices make a book uncrossed |
| VenueEdge.NoTwoWayGain | src/cli/analyze-cross-exchange-relative-value.ts:667-692 | the two edges are never both positive, for any non-negative fees |
| VenueEdge.SelfEdgeIsNotPositive | src/cli/analyze-cross-exchange-relative-value.ts:685-690 | a book against itself never gains |
| VenueEdge.ConvertKeepsUncrossed | src/cli/analyze-cross-exchange-relative-value.ts:639-661 | conversion at a bid rate no higher than the ask rate keeps a book uncrossed |
| VenueEdge.NoTwoWayGainAfterConversion | src/cli/analyze-cross-exchange-relative-value.ts:639-692 | both results survive both conversions |
| VenueEdge.ConvertedPrice | src/cli/analyze-cross-exchange-relative-value.ts:651-661 | walking a converted side is walking the original for the notional in its own currency |
| VenueEdge.HigherRateHigherPrice | src/cli/analyze-cross-exchange-relative-value.ts:651-684 | a higher rate never lowers an executable price, sorted levels or not |
| VenueEdge.QuoteBookIsConservative | src/cli/analyze-cross-exchange-relative-value.ts:651-692 | converting through a quote book never shows a better edge than a single rate between its bid and ask |
| VenueEdge.EdgeIsCurrencyFree | src/cli/analyze-cross-exchange-relative-value.ts:639-692 | converting both books and the notional at one rate leaves the edge unchanged |
| VenueEdge.ConversionsAgree | src/cli/analyze-cross-exchange-relative-value.ts:639-661 | both conversions agree iff the quote has no spread and sits at the rate |
| Lookups.FirstSeparates | src/cli/analyze-maker-fill-quality.ts:270-285 | the scan's index is the only one that separates earlier items from the rest |
| Lookups.LowerBound | src/cli/analyze-maker-fill-quality.ts:270-285 | the binary search returns the scan's index |
| Lookups.BisectFindsLast | org_coin_data/passive_features.py:241-246 | bisect_right minus one is the last item at or before the cutoff |
| Lookups.BuildMinuteBars | org_coin_data/passive_features.py:74-85 | the two parallel lists hold the minute bars |
| Lookups.BarsArePerMinute | org_coin_data/passive_features.py:74-85 | one bar per minute traded in, in strict order, closing at the price of the minute's last trade |
| Lookups.LookUpReference | org_coin_data/session_scenario.py:147-157 | the binary lookup returns the reference price |
| Lookups.BarsAgreeWithTrades | org_coin_data/passive_features.py:74-85 | the last bar at or before t closes at the price of the last trade whose minute starts by t |
| Lookups.ReferencePriceIsLastTrade | org_coin_data/session_scenario.py:119-157 | so the reference price is that trade's, and with an offset of a minute it precedes the anchor |
| Lookups.NearestRecord | org_coin_data/passive_features.py:109-128 | a nearest record of all, the later one on a tie, none iff none is within 15 seconds |
| MakerFill.FindMakerBuyFill | src/cli/analyze-maker-fill-quality.ts:287-312 | the earliest eligible trade in the window at which eaten volume reaches queue plus order, none iff there is none |
| MakerFill.FillIsUnique | src/cli/analyze-maker-fill-quality.ts:287-312 | there is only one such answer |
| MakerFill.MoreNeverFillsEarlier | src/cli/analyze-maker-fill-quality.ts:293-308 | more queue or a larger order never fills earlier |
| MakerFill.LongerWaitKeepsFills | src/cli/analyze-maker-fill-quality.ts:296-302 | a longer wait never changes a fill and only adds later ones |
| MakerFill.FillIsFirstInstant | src/cli/analyze-maker-fill-quality.ts:287-312 | the fill is the first instant at which enough is eaten; none iff too little is eaten by expiry |
| MakerFill.FreeOrderWaitsForTrade | src/cli/analyze-maker-fill-quality.ts:293-308 | with nothing to eat the fill is the first eligible trade of the window |

## Left out

- Fetching, reconnecting, files, paths, JSON schemas, Markdown and command lines: plumbing without an invariant.
- `_load_enriched_points`, the required-market check and the feature computations behind a point: points are an input, sorted by time and market as the loader leaves them.
- ISO timestamps and their truncation to seconds: times stay integer milliseconds.
- Signal identifiers, confidences, expiry, slippage limits, reason-code lists and feature metadata: they are copied, not decided on.
- Averages and near misses of gate failures (`_record_gate_failure_stat`, `_summarize_gate_failure_stats`) and the fields of a suppressed sample beyond point, reason, failures and notional: bookkeeping beside the counters that are modelled.
- Initial portfolio normalization (`_normalize_initial_portfolio`) and missing fields of a carried state: the carried state is given complete.
- A carried position with an entry price of zero: the source divides by it when its market is observed; the model's type excludes it.
- Counting dictionaries are multisets; their sorted rendering is not modelled.
- Metadata of fills and closed trades (signal identifiers, feature snapshots, tiers, reason codes) and the interleaving of fills and snapshots by the report reader: the event order is an input.
- The square root in the volatility measure is a parameter, since nothing proved depends on its value; the quantile taken of the risk sample is any function of that sample, and in `ThresholdFolds` the element at its index of the sorted sample; the sort is not computed.
- The lead-lag signal from candle maps is given as one pass or fail per time; the candidate grids, scores, rankings and promotion tests are not modelled.
- Medians, winners, losers and percentages of summaries, and all rounding to six digits: results are stated on unrounded values.
- Floating-point error: arithmetic is over the reals; the literal 1e-12 thresholds are kept because they decide control flow.
- Gross edges, spreads, top-of-book sizes and snapshot skew of an edge row, the choice of conversion in `buildEdges`, and `carryRow` with its funding terms.
- Sampling and future marks in `analyzeRun`; the other variants of the simulator with session, regime or volatility signals; the `audit-*` scripts; observability counters.
- TimedSimulators.FlowIsSequential: assumes a non-negative horizon, as the command line requires.
- TimedTrades.NoLeadLagSignalIsMissed: assumes signals in order of time, as the candles they come from are.
- TimedTrades.NoFlowCallIsMissed: assumes a non-negative horizon, as the command line requires.
- TimedCausality.FlowIsCausal: assumes a non-negative horizon, as the command line requires, and a non-negative recovery lookback, as the candidate grid has.
- ThresholdFolds.FoldIsCausal: covers the momentum program's fixed hold only; the condition is sufficient, since whether a later candle moves the quantile depends on the series.
- VenueEdge.QuoteBookIsConservative: assumes fees of at most 100% and a notional that is not negative; beyond that proceeds after fees would be negative.
