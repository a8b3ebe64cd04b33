# Verified models of the adaptive signal engine

This project models the stateful parts of the trading-signal backend and proves what they keep over
whole runs: the paper position ledger and the webhook chain that feeds it, the lease protocol that
hands trade candidates to workers, the volume profile with its value area, the evaluate-once signal
outcomes, the crash-safe batch ingest, the walk-forward selector and policy audit, swing pivots, the
feature lifecycle, and the indicators with the divergence scan. `dafny verify dfyconfig.toml` checks
everything.

Each component has its module. What the program updates in place is a class (a table or a set of
files) whose methods are proved equal to a step function; the laws are lemmas about that function
over every run. Loops over bars, rows and bins are methods with invariants, proved against a
specification function.

- `Common.dfy`: optional values, sums, multisets, a stable sort.
- `PositionLedger.dfy`: positions opened, scaled, reduced, closed and flipped at average cost.
- `PaperPipeline.dfy`, `PaperBook.dfy`: payload hash, event, signal, decisions, request, order, fill, position;
  the book of a run told from its deliveries.
- `LeaseProtocol.dfy`: claim, heartbeat, release and status patch by any number of workers.
- `VolumeProfile.dfy`: histogram, point of control, value area, ordering of the levels.
- `SignalOutcomes.dfy`: truth labels and the evaluation of each signal once.
- `IngestBatch.dfy`, `IngestCycle.dfy`, `EventFiles.dfy`, `BatchJournal.dfy`: queued batches, cycles and
  replays with or without overwriting, each stopped at any write; which events share a file, which context
  files a crash loses and a replay supplies, and which signals reach the journal.
- `WalkForward.dfy`: policy selection from past rows only, and the policy audit.
- `SwingPivots.dfy`, `FeatureLifecycle.dfy`, `Indicators.dfy`, `DivergenceScan.dfy`.

## Where the program differs from what one would expect

Each of these is proved, with the exact condition and inputs that show it.

- A fill conserves profit at every mark exactly when it meets no open row of its symbol or one whose entry
  is known just when its price is, and a run does so all along exactly when each of its fills does
  (`ConservesExactly`, `RunConservesExactly`). A fill without a price against a row with an entry loses marked
  profit, whether it scales the row or closes it (`UnpricedFillExample`).
- An order's status is the verdict of the first delivery of its payload that reaches the order step
  (`OrderStatusIsFirst`). A later delivery may decide otherwise and fill an order that stays rejected
  (`RejectedOrderMayFill`).
- Fill and position are two commits. The positions equal the fold of the fills after a delivery exactly
  when it did not stop between them with a new fill (`DeliverPositions`, `LostFillExample`); in every run they
  are the fold of the fills that were not lost that way (`PositionsAreAppliedFold`).
- The UPDATE of a release or heartbeat names only the row id. When it runs apart from its SELECT, a
  release that lands ends exactly the lease of the row it names, and a heartbeat that lands sets that
  row's claim time to its own, perhaps older, stamp (`LeaseEndsExactly`, `ReleaseLandsExactly`,
  `BeatLandsExactly`; interleavings in `SplitReleaseBreaksLease` and `SplitHeartbeatBreaksLease`).
- The levels of a volume profile, rounded to three decimals, are refused exactly when the mean peak index
  lies in the upper half of the centre bin, the bins at and below the centre reach the target before the bin
  above gets its turn, and the point of control and the top of the centre bin round to different prices: a
  condition on the histogram, the target and the grid (`OrderingExact`; refused bars in `OrderingCanFail`, bars
  that only rounding saves in `RoundingHidesDisorder`).
- The value area is the narrowest for every target exactly when every window the expansion passes is a fullest
  one of its width (`NarrowestExactly`; the windows it ends with are not enough, `EmptyBinIsPassed`). A single
  peak is enough for that (`ValueAreaOptimal`) and not needed (`SinglePeakNotNeeded`); a second peak behind a
  dip can break it (`GreedyCanBeBeaten`).
- The divergence score is rounded to six decimals, so it is positive exactly when an RSI flag is up or a MACD
  strength is above a millionth (`BiasHasFlag`); a fainter MACD flag comes with a bias and a score of zero
  (`FaintFlagScoresZero`).
- Bar counts and level hits agree with the excursions of a window exactly when a complete bar holds the
  window's extreme (`ExtremeAgreesExactly`, `HitAgreesExactly`); a bar that knows only one of high and low can
  break that (`HalfBarsDisagree`).
- A store leaves a context file missing exactly when it stops inside the three writes of an event
  (`StoreContexts`, `CutShortExample`). A later run supplies it exactly when an overwriting replay of a batch
  with an event under that key gets to the file (`LostContextExactly`); no other step does
  (`LostContextStaysLost`, `LostThenSupplied`).
- Event ids share a file exactly when they are equal up to unsafe characters (`SameFileExactly`,
  `UnsafeIdsCollide`). Without overwriting each file holds the first event that belongs there, for good
  (`FileHoldsFirst`, `FirstContentStays`); an overwriting replay leaves the last one of its batch
  (`FileHoldsLast`).
- A delivery is queued exactly when it has an id, gets to the active file, and no earlier step left a status
  under its key (`QueuedExactly`). A replay of a delivery that was cut short leaves such a status, and so does
  a batch whose id shares the file: the batch is then never queued (`ReplayBlocksDelivery`,
  `SharedFileDropsBatch`). A queued file is archived even when its journal rows failed
  (`ArchivedJournaledExactly`), and nothing adds them later (`NothingMoreJournaled`); a signal is in the journal
  exactly when some delivery carried it all the way (`SignalJournaledExactly`).

## Model

| member | source | states |
|---|---|---|
| PositionLedger.PositionBook.ApplyFillToPositions | backend/event_writer.py:1655-1702 | one fill moves the table as specified, keeps the ledger invariant, fails only for a positive quantity without a side, and its receipt names the branch taken and shows the symbol's open row |
| PositionLedger.PositionBook.ApplyOppositeSideFill | backend/event_writer.py:1568-1604 | the row is reduced or closed; the rest of a larger fill opens a row on the other side; the receipt says which |
| PositionLedger.PositionBook.ApplySameSideFill | backend/event_writer.py:1531-1565 | only the open row changes: quantities add and the entry is averaged unless a price is missing |
| PositionLedger.PositionBook.UpdateExistingPosition | backend/event_writer.py:1607-1648 | a positive remainder keeps the row open, otherwise it is closed with quantity zero and a closing time |
| PositionLedger.PositionBook.InsertOpenPosition | backend/event_writer.py:1498-1514 | appends one open row with no realized profit |
| PositionLedger.PositionBook.ComputeRealizedDelta | backend/event_writer.py:1517-1528 | the signed gain of the closed quantity, or zero when a price is unknown |
| PositionLedger.ApplyKeepsLedger | backend/event_writer.py:1655-1702 | a fill keeps: at most one open row a symbol, open quantities positive, closed ones zero; it adds at most one row and touches no row but the symbol's open one |
| PositionLedger.FillStampsRows | backend/event_writer.py:1498-1702 | a row that a fill opens or changes carries the fill's ids and time; a changed row keeps its side and opening time, a new one its price |
| PositionLedger.ReplayKeepsLedger | backend/event_writer.py:1655-1702 | the ledger invariant holds after every run of fills |
| PositionLedger.NetConservation | backend/event_writer.py:1531-1702 | over any run the signed open quantity of a symbol moves by exactly the sum of its signed fills, priced or not |
| PositionLedger.NetIsOpenRow | backend/event_writer.py:1680-1689 | that net quantity sits in the one open row, and is zero when there is none |
| PositionLedger.PnlConservation | backend/event_writer.py:1517-1702 | for every mark price, realized plus open profit of a symbol moves over any run whose fills of that symbol are priced by exactly the marked value of the fills; other symbols need no prices |
| PositionLedger.FlatRealizedIsCashFlow | backend/event_writer.py:1517-1604 | once the priced fills of a symbol net to zero no row of it is open and its realized profit is the cash paid in and out, whatever the mark |
| PositionLedger.ScaleEquity | backend/event_writer.py:1546-1549 | averaging the entry keeps the marked profit: the scaled row is worth the old row plus the fill |
| PositionLedger.FlipEquity | backend/event_writer.py:1585-1596 | the closed row and the row opened by the rest are together worth the old row plus the fill |
| PositionLedger.UnpricedCloseForgoesProfit | backend/event_writer.py:1524-1525 | closing without a price loses exactly the marked profit of the closed quantity |
| PositionLedger.UnpricedScaleForgoesProfit | backend/event_writer.py:1546-1547 | scaling without a price forgets the entry and loses exactly the marked profit of the whole row |
| PositionLedger.MixedEquity | backend/event_writer.py:1517-1604 | how far off conservation is, at every mark, for a fill whose price is known and the row's entry is not, or the other way round |
| PositionLedger.ConservesExactly | backend/event_writer.py:1517-1702 | one fill conserves profit at every mark if and only if it meets no open row or one whose entry is known just when its price is |
| PositionLedger.UnpricedBreaksConservation | backend/event_writer.py:1524-1547 | on rows with entries conservation fails exactly for unpriced fills against an open row |
| PositionLedger.RunConservesExactly | backend/event_writer.py:1517-1702 | a run conserves a symbol's profit after every fill if and only if each fill of the symbol is priced like the row it meets |
| PositionLedger.UnpricedFillExample | backend/event_writer.py:1524-1547 | an unpriced scale and an unpriced close each wipe out an open profit of 5 |
| PositionLedger.AverageEntryBounded | backend/event_writer.py:1531-1604 | when the fills of the symbol are priced, its open row agrees with an account kept from the fills alone: same signed quantity, and an average entry between the lowest and highest same-side fill price since that side was opened |
| PositionLedger.OpenIndexAfter | backend/event_writer.py:1680-1702 | which row is open after a fill, and what it holds, from the row that was open before |
| PositionLedger.ApplyRespectsBook | backend/event_writer.py:1531-1702 | time stamps and order or fill ids never influence quantities, entries, profit or status |
| PositionLedger.SplitInvariance | backend/event_writer.py:1531-1604 | two fills at one price leave the table of the single fill of their total, also across a close or a flip and also without a price |
| PositionLedger.PieceInvariance | backend/event_writer.py:1531-1604 | filling a trade in any number of pieces leaves the table one fill leaves, up to stamps |
| PaperPipeline.PaperStore.ProcessWebhook | backend/api_server.py:5126-5207 | one delivery, stopped after any number of commits, takes the tables where the specification says and keeps their invariant |
| PaperPipeline.PaperStore.ExecuteFill | backend/api_server.py:1471-1548 | the fill step runs for an actionable decision only |
| PaperPipeline.PaperStore.UpsertPaperFillAndPosition | backend/api_server.py:1410-1468 | a new fill is applied to the positions, a duplicate one is not |
| PaperPipeline.InsertOnce | backend/event_writer.py:626-678 | select by key, insert when absent: the key is found afterwards, with its first id |
| PaperPipeline.PaperStore.InsertRawEvent | backend/event_writer.py:612-678 | a payload hash gets one event, and the event returned is the one stored |
| PaperPipeline.PaperStore.InsertSignal | backend/event_writer.py:682-763 | an event gets one signal |
| PaperPipeline.PaperStore.InsertStrategyDecision | backend/event_writer.py:766-831 | a signal gets one strategy decision |
| PaperPipeline.PaperStore.InsertRiskEvent | backend/event_writer.py:834-902 | a strategy decision gets one risk event |
| PaperPipeline.PaperStore.InsertExecutionRequest | backend/event_writer.py:905-985 | a signal gets one execution request, whatever later decisions say |
| PaperPipeline.PaperStore.InsertBrokerOrder | backend/event_writer.py:1285-1366 | a request gets one order, filled when this delivery is actionable and rejected otherwise |
| PaperPipeline.AtMostOncePerPayload | backend/api_server.py:1410-1556 | over any deliveries, with decisions recomputed and crashes anywhere, no two orders and no two fills come from one payload |
| PaperPipeline.RunKeeps | backend/event_writer.py:612-985 | every run keeps the keys and ids of all tables unique and every order and fill linked to the event of its own payload |
| PaperPipeline.FillInserted | backend/api_server.py:1498-1548 | a delivery that runs through inserts a fill exactly when it is actionable and its payload has none yet, and the fill is the trade it decided on |
| PaperPipeline.NewFill | backend/api_server.py:1424-1460 | the new fill has the symbol, side, quantity, price and time of the decision and comes from the payload; the positions take it exactly when the delivery gets to the position step |
| PaperPipeline.RedeliveryChangesNothing | backend/api_server.py:1443-1447 | once a payload is filled, delivering it again leaves every table as it is |
| PaperPipeline.ActionableIsFilled | backend/api_server.py:1535-1548 | a delivery that reached the fill leaves its payload filled after any later deliveries |
| PaperPipeline.DeliverPositions | backend/api_server.py:1424-1460 | a delivery keeps positions equal to the fold of the fills if and only if it does not stop between a new fill and its position step |
| PaperPipeline.PositionsAreFold | backend/api_server.py:1424-1460 | over runs without such a stop the positions table is the fold of the fills table in insertion order |
| PaperPipeline.PositionsAreAppliedFold | backend/api_server.py:1424-1460 | in every run, stops anywhere, the positions table is the fold of exactly those fills whose own delivery did not stop before the position step |
| PaperPipeline.LostFillExample | backend/api_server.py:1424-1460 | one actionable alert stopped after its seventh commit leaves a fill and no position |
| PaperBook.FillsComeFromAlerts | backend/api_server.py:1410-1548 | in every run the fills are, in order, the trades of the deliveries that are the first of their payload to be actionable and reach the fill, and a payload is filled exactly when it has one |
| PaperBook.FillingIsFirst | backend/api_server.py:1443-1447 | those deliveries are exactly the first of their payload to reach the fill |
| PaperBook.DeliveryMovesNet | backend/api_server.py:1448-1460 | a delivery that runs through and fills its payload moves the net quantity of its symbol by its own signed quantity, up for a long and down for a short, and of no other symbol |
| PaperBook.AppliedAreSettling | backend/api_server.py:1424-1460 | the fills that are not lost are the trades of those deliveries that got to the position step |
| PaperBook.PaperBookConservation | backend/api_server.py:1410-1556 | end to end, told from the deliveries alone: in every run no payload has two orders or fills, the fills are the trades of the first deliveries to reach them, and net quantity and, with known prices, marked profit are those asked for by the ones that got to the position step; a clean run loses none |
| PaperPipeline.FirstOrderRow | backend/api_server.py:1490-1519 | the first delivery of a payload to reach the order step fixes the status of its order |
| PaperPipeline.RejectedOrderMayFill | backend/event_writer.py:1289-1307 | a refused delivery followed by an actionable one leaves the payload filled under a rejected order |
| PaperPipeline.OrdersAfter | backend/event_writer.py:1289-1307 | a delivery writes one order exactly when it reaches the order step and its payload has none, and otherwise leaves the orders alone |
| PaperPipeline.OrderStatusIsFirst | backend/event_writer.py:1289-1307 | over every run a payload's order is stored as filled if and only if the first delivery of it to reach the order step is actionable, and as rejected if and only if that one is not |
| LeaseProtocol.CandidateStore.ClaimNextTradeCandidate | backend/event_writer.py:2458-2515 | grants the claimable row with the latest timestamp under a new token, or reports an empty queue |
| LeaseProtocol.CandidateStore.HeartbeatTradeCandidateClaim | backend/event_writer.py:2518-2557 | refreshes the claim time of the holder's row and refuses everybody else |
| LeaseProtocol.CandidateStore.ReleaseTradeCandidateClaim | backend/event_writer.py:2560-2622 | frees the holder's row with one of three statuses and refuses everybody else |
| LeaseProtocol.CandidateStore.UpdateTradeCandidateStatus | backend/event_writer.py:2386-2424 | sets the status of any row without a token and leaves the lease fields alone |
| LeaseProtocol.CandidateStore.LandHeartbeat | backend/event_writer.py:2543-2547 | sets the claim time of the row, whoever holds it |
| LeaseProtocol.CandidateStore.LandRelease | backend/event_writer.py:2607-2612 | clears the lease of the row, whoever holds it |
| LeaseProtocol.CandidateStore.InsertTradeCandidate | backend/event_writer.py:2225-2298 | a candidate with symbol and timestamp is appended as pending |
| LeaseProtocol.Pick | backend/event_writer.py:2471-2481 | the row chosen is claimable and no claimable row is later in time, or equal in time and newer |
| LeaseProtocol.ExclusiveLease | backend/event_writer.py:2454-2557 | in any interleaving, heartbeats landing anywhere and releases landing on other rows included, while the claim time stays within each claim's timeout and nobody releases the lease or patches the row to pending, nobody is granted the row and the lease survives |
| LeaseProtocol.LeaseEndsExactly | backend/event_writer.py:2386-2612 | a step ends a lease if and only if it is a claim at which the row is stale and no claimable row is later in time, or equal in time and newer, or the holder's release, any release landing on the row, or a patch to pending |
| LeaseProtocol.LeaseLastsExactly | backend/event_writer.py:2386-2612 | a lease lasts through a run if and only if no step of the run ends it |
| LeaseProtocol.HalvesMakeSteps | backend/event_writer.py:2531-2612 | a heartbeat or release is its check followed by the UPDATE that names the row alone |
| LeaseProtocol.ReleaseLandsExactly | backend/event_writer.py:2607-2612 | a release that lands ends a lease if and only if it names that row, and with status pending the row is claimable at once |
| LeaseProtocol.BeatLandsExactly | backend/event_writer.py:2543-2547 | a heartbeat that lands keeps the lease, and the row goes stale exactly one timeout after the heartbeat's own stamp |
| LeaseProtocol.SplitHeartbeatBreaksLease | backend/event_writer.py:2529-2547 | a heartbeat stamped before a newer claim and landing after it lets a third worker take the row while its holder keeps up |
| LeaseProtocol.SplitReleaseBreaksLease | backend/event_writer.py:2595-2612 | a release split into its SELECT and UPDATE lets a third worker take a row under a live lease |
| LeaseProtocol.StepKeepsFenced | backend/event_writer.py:2464-2503 | no step makes two rows share a token, revives a spent token or changes what a candidate asks for |
| LeaseProtocol.TokensNeverShared | backend/event_writer.py:2464-2503 | no run from an empty table ever has two rows with one token |
| LeaseProtocol.StaleTokenRefusedForever | backend/event_writer.py:2540-2605 | after a re-claim or a release every later heartbeat or release with the earlier token is a lease mismatch and changes nothing, forever |
| LeaseProtocol.ExecutionWorker.ProcessClaim | backend/execution_worker.py:227-276 | without interference the claimed row ends filled exactly with all its fields and a confidence of at least the threshold, skipped exactly with a lower one, rejected otherwise, and nothing else changes but the heartbeat |
| LeaseProtocol.ExecutionWorker.RunOneshot | backend/execution_worker.py:194-225 | one-shot mode processes exactly the head of the queue, or nothing when it is empty |
| LeaseProtocol.FleetConverges | backend/execution_worker.py:227-276 | a candidate that is filled, skipped or rejected is never claimed again, and its status is its row's decision ever after, despite expiry, dying workers, double processing, late heartbeats and late patches |
| LeaseProtocol.FleetRunsConverge | backend/execution_worker.py:321-348 | every run of shipped workers with one threshold keeps every final status equal to the decision of its row |
| LeaseProtocol.FleetFromEmptyConverges | backend/execution_worker.py:321-348 | from an empty table, in every run of the fleet a filled row has all its fields and a confidence of at least the threshold, a skipped one a lower confidence, and a rejected one misses a field or the confidence |
| LeaseProtocol.DecisionExactly | backend/execution_worker.py:321-348 | filled, skipped and rejected, each if and only if its condition on fields, confidence and threshold holds |
| LeaseProtocol.WorkerEnds | backend/execution_worker.py:227-276 | a heartbeat is let through exactly for the holder and otherwise ends the worker; a patch and a death end it too |
| LeaseProtocol.ClaimableExactly | backend/event_writer.py:2458-2485 | a row can be claimed if and only if it is pending, or submitted without a claim time or with one at least a timeout old |
| LeaseProtocol.ClaimAndReleaseExactly | backend/event_writer.py:2458-2612 | who gets a claim or a release through, and what the row looks like then |
| LeaseProtocol.InsertExactly | backend/event_writer.py:2225-2298 | an insert is refused exactly without symbol or timestamp and otherwise adds a pending row nobody holds |
| VolumeProfile.ComputeVolumeProfileSnapshot | backend/volume_profile_engine.py:72-181 | which error comes out for which input, the flat profiles without range or volume, and otherwise rounded and validated levels whose val and vah are the ends of the area that holds the asked share of the volume |
| VolumeProfile.ProfileMeaning | backend/volume_profile_engine.py:108-181 | for bars with range: no bin is negative, the bins hold the counted volume, the value area holds at least pct times the counted volume and less without its last bin, val and vah are its ends, and exactly when, told from the histogram, the rounded levels are in order |
| VolumeProfile.OverlapsTelescope | backend/volume_profile_engine.py:122-130 | the overlaps of a bar with the first bins telescope |
| VolumeProfile.OverlapsCoverBar | backend/volume_profile_engine.py:122-130 | over the grid the overlaps of a bar add up to its high less its low |
| VolumeProfile.SharesConserve | backend/volume_profile_engine.py:112-135 | what a bar puts into the bins is non-negative and adds up to the volume it counts for |
| VolumeProfile.HistogramConserves | backend/volume_profile_engine.py:108-135 | the bins are non-negative and sum to the volume of all counted bars |
| VolumeProfile.RangeIsExact | backend/volume_profile_engine.py:87-88 | profile low and high are reached by bars and bound all bars |
| VolumeProfile.GridCovers | backend/volume_profile_engine.py:108-125 | the grid ends at the profile high and covers every bar |
| VolumeProfile.PriceRange | backend/volume_profile_engine.py:87-88 | the loop computes the lowest low and the highest high, with close or zero for missing prices |
| VolumeProfile.SpreadBar | backend/volume_profile_engine.py:122-135 | one bar is spread in proportion to its overlaps and the total grows by what was put in |
| VolumeProfile.ShareIsProportional | backend/volume_profile_engine.py:122-135 | a bar with a range puts volume into each bin in proportion to the part of it that lies in the bin |
| VolumeProfile.FlatShare | backend/volume_profile_engine.py:116-120 | a flat bar puts all its volume into the bin that holds its price and nothing elsewhere |
| VolumeProfile.HitBinHolds | backend/volume_profile_engine.py:116-118 | the bin of a flat bar holds its price, the upper one on an edge and the last one at the top |
| VolumeProfile.CountedExactly | backend/volume_profile_engine.py:113-115 | a bar without volume counts 1, one upside down or without high or low counts nothing |
| VolumeProfile.BuildHistogram | backend/volume_profile_engine.py:109-135 | the loop builds the histogram and its running total is the sum of the bins |
| VolumeProfile.PointOfControl | backend/volume_profile_engine.py:151-153 | the mean index of the bins tied for the maximum within the tolerance |
| VolumeProfile.PeakMean | backend/volume_profile_engine.py:151-158 | that mean lies on the grid, so the centre bin exists |
| VolumeProfile.PeakMeanTimes | backend/volume_profile_engine.py:151-154 | the mean times the number of tied bins is the sum of their places |
| VolumeProfile.PeakMeanOfOne | backend/volume_profile_engine.py:151-154 | with a single peak it is that bin |
| VolumeProfile.GrowValueArea | backend/volume_profile_engine.py:156-178 | the two-ended loop terminates with the window of the expansion, the volume that window holds, and the end at which it added its last bin |
| VolumeProfile.ValueAreaReaches | backend/volume_profile_engine.py:162-178 | the expansion reaches the target if and only if the whole histogram does, and without the bin added last, at the end where it was added, it falls short |
| VolumeProfile.DominatingIsMaximal | backend/volume_profile_engine.py:162-178 | a window whose bins all dominate the others holds at least as much as any window no wider |
| VolumeProfile.ExpansionIsOptimal | backend/volume_profile_engine.py:162-178 | on a single-peaked histogram every round keeps the window dominating and no narrower window reaching the target |
| VolumeProfile.ValueAreaOptimal | backend/volume_profile_engine.py:156-178 | on a histogram that rises to the centre and falls after it, the value area is a fullest window of its width and no narrower window reaches the target |
| VolumeProfile.ProfileIsOptimal | backend/volume_profile_engine.py:108-181 | on bars whose histogram has its single peak at the centre, the band from val to vah is no wider than any band of whole bins that holds pct times the counted volume |
| VolumeProfile.NarrowestExactly | backend/volume_profile_engine.py:158-178 | whatever the target no narrower window reaches it, if and only if every window the expansion passes, also between the two bins of a tie, is a fullest one of its width |
| VolumeProfile.EmptyBinIsPassed | backend/volume_profile_engine.py:158-178 | on the histogram 10, 0, 6, 7 every window the expansion can end with is a fullest one of its width, and yet the last two bins reach the target 12 that takes it three bins |
| VolumeProfile.SinglePeakNotNeeded | backend/volume_profile_engine.py:158-178 | the histogram 3, 2, 10 around its last bin has no single peak and its value area is the narrowest for every target |
| VolumeProfile.GreedyCanBeBeaten | backend/volume_profile_engine.py:162-178 | with a second peak behind a dip the expansion ends wider than a window that reaches the target |
| VolumeProfile.UpperEndExact | backend/volume_profile_engine.py:162-178 | the value area ends at its centre bin if and only if the bins going down from the centre reach the target while each is richer than the bin above the centre, the last at least as rich |
| VolumeProfile.OrderingExact | backend/volume_profile_engine.py:62-70 | the levels, rounded to three decimals as the snapshot stores them, are in order if and only if the mean peak is at most half a bin above the centre, the histogram makes the area take a bin above the centre, or the point of control and the top of the centre bin round to one price |
| VolumeProfile.OrderingCanFail | backend/volume_profile_engine.py:151-220 | bars from 0 to 1, 1 to 2 and 4 to 5 on five bins have a point of control of 13/6 above their value area from 0 to 2, and are refused (the bars are spelled out in UnitBars) |
| VolumeProfile.RoundingHidesDisorder | backend/volume_profile_engine.py:217-221 | the same shape on bins of a ten-thousandth from 1 up is out of order and accepted, as every level rounds to 1 |
| SignalOutcomes.ComputeTruthLabels | backend/signal_outcome_engine.py:1203-1263 | the bar counts name the first bars whose excursions are the window's mfe and mae if and only if complete bars hold the window's extremes, as they do without half bars; then target and invalidation are hit exactly when the matching excursion covers the distance, for long and short |
| SignalOutcomes.MfeMaeExactly | backend/signal_outcome_engine.py:973-990 | which price is ahead and which behind, for long and short, and when the excursions are known |
| SignalOutcomes.BarsToExtreme | backend/signal_outcome_engine.py:1098-1118 | the first complete bar with the largest excursion, or none when no bar is complete |
| SignalOutcomes.DidPriceReachLevel | backend/signal_outcome_engine.py:1070-1087 | whether some complete bar reaches the level, unknown without level or bars |
| SignalOutcomes.FirstExtremeIsWindowExtreme | backend/signal_outcome_engine.py:973-1118 | the largest excursion of any bar is the window-wide excursion |
| SignalOutcomes.ExtremeAgreesExactly | backend/signal_outcome_engine.py:961-1118 | on every window, for mfe and mae, long and short, the first bar with the largest excursion has the window-wide excursion if and only if some complete bar holds the window's extreme |
| SignalOutcomes.HitAgreesExactly | backend/signal_outcome_engine.py:1070-1087 | on every window, level hits agree with the window's extreme at every level if and only if some complete bar holds it or no bar knows one |
| SignalOutcomes.NoHalfBarsIsWhole | backend/signal_outcome_engine.py:961-970 | without half bars some complete bar holds the window's extreme |
| SignalOutcomes.HalfBarsDisagree | backend/signal_outcome_engine.py:961-970 | with a bar that only knows its high the two differ |
| SignalOutcomes.HitIsExtremePast | backend/signal_outcome_engine.py:1070-1087 | without half bars a level is reached exactly when the window's extreme passes it |
| SignalOutcomes.HitIsExcursionPast | backend/signal_outcome_engine.py:1252-1260 | at every level, hits ahead are the distances the mfe covers if and only if a complete bar holds the extreme ahead, and likewise hits behind with the mae |
| SignalOutcomes.JournalIsOrdered | backend/signal_outcome_engine.py:152-155 | loading sorts the journal by event time and loses no row |
| SignalOutcomes.GroupsAreOrdered | backend/signal_outcome_engine.py:1338-1340 | the second sort, inside each group, changes nothing after that |
| SignalOutcomes.GroupJournalRows | backend/signal_outcome_engine.py:1332-1340 | one group for each symbol and timeframe, holding exactly its rows in order |
| SignalOutcomes.OutcomeStore.EvaluateGroupRows | backend/signal_outcome_engine.py:1343-1375 | appends the ready, unknown signals of a group once each and counts written and pending |
| SignalOutcomes.OutcomeStore.RunSignalOutcomeEvaluationOnce | backend/signal_outcome_engine.py:1378-1414 | a run appends what the whole journal calls for and reports the true counts; too small a minimum is refused and changes nothing |
| SignalOutcomes.WrittenComplete | backend/signal_outcome_engine.py:1355-1373 | every ready signal ends up known, nothing is written twice, and only ready unknown signals are written |
| SignalOutcomes.WrittenConcat | backend/signal_outcome_engine.py:1397-1407 | evaluating group after group with a growing set of ids is evaluating all groups at once |
| SignalOutcomes.RowHasEntry | backend/signal_outcome_engine.py:1355-1361 | each journal row is evaluated with exactly the later rows of its symbol and timeframe |
| SignalOutcomes.EvaluateOnce | backend/signal_outcome_engine.py:1378-1414 | after a run every signal with enough later rows has exactly one outcome, and a second run on the same journal writes nothing |
| SignalOutcomes.EntryHasRow | backend/signal_outcome_engine.py:1355-1361 | everything evaluated is a journal row with the later rows of its group |
| SignalOutcomes.EvaluationAddsReady | backend/signal_outcome_engine.py:1378-1414 | one run adds exactly the signals that are ready in its journal, each once |
| SignalOutcomes.HistoryEvaluatesOnce | backend/signal_outcome_engine.py:1378-1414 | over any series of runs, however the journal changes between them and wherever each stops between two appends, outcomes only grow and no signal gets two; a signal ready in a run that finished has one and every one that has was ready in some run, so that they are the same when all runs finish |
| SignalOutcomes.StoppedAddsReady | backend/signal_outcome_engine.py:1355-1373 | a run that stops between two appends adds only ready signals, each once |
| SignalOutcomes.EvaluationCounts | backend/signal_outcome_engine.py:1394-1414 | with unique ids, evaluated, pending and already done together are the rows with an id |
| IngestBatch.NormalizeBatchRecord | backend/tradingview_ingest_service.py:213-270 | the loop yields one event for each object of the payload, keeps its place, and fails when a time is no number |
| IngestBatch.NormalizeIsExact | backend/tradingview_ingest_service.py:213-270 | the events are exactly the objects of the payload, in order, each with its own id, time, side and contexts; normalization fails exactly when some time is no number |
| EventFiles.SideExactly | backend/tradingview_ingest_service.py:102-111 | an event is a sale exactly when its side, trimmed, reads sell or short in any case |
| EventFiles.TrimExactly | backend/tradingview_ingest_storage.py:38-40 | trimming takes the spaces at both ends away and nothing else |
| IngestCycle.IngestStore.SaveRawBatchToActive | backend/tradingview_ingest_storage.py:161-247 | a delivery stopped after any write leaves that many files; a known batch is a duplicate and changes nothing |
| IngestCycle.IngestStore.PersistNormalizedEvents | backend/tradingview_ingest_storage.py:349-391 | stores the planned files up to a failure, with overwriting those of every named event, and in full reports the true numbers of written and duplicate events |
| IngestCycle.IngestStore.RecordSignalSnapshots | backend/signal_outcome_engine.py:854-882 | appends the new signal ids in order up to a failure and counts them |
| IngestCycle.IngestStore.ProcessActiveFile | backend/tradingview_ingest_cycle.py:116-157 | the work on one file, failing anywhere, and when it counts as processed |
| IngestCycle.IngestStore.RunIngestCycleOnce | backend/tradingview_ingest_cycle.py:95-160 | a cycle consumes each file that was active at its start once, in order, and counts those taken all the way |
| IngestCycle.IngestStore.PersistReplay | backend/tradingview_ingest_service.py:273-301 | a replay, overwriting or not, stores the raw batch again and marks its status, and is found exactly when the raw file exists |
| IngestBatch.IngestAtMostOnce | backend/tradingview_ingest_storage.py:161-391 | over any deliveries, cycles and replays, each stopped anywhere: the journal has one row a signal, every queued file is in active or used, everything archived is stored, and contexts belong to stored events; without overwriting replays every event key is written once and contexts match their event |
| IngestBatch.FirstContentStays | backend/tradingview_ingest_storage.py:364-367 | from any state on, a run without overwriting replays leaves every stored event its content and never writes its key again |
| IngestBatch.StoreFirst | backend/tradingview_ingest_storage.py:359-386 | a store without overwriting, stopped after any write, writes no stored key again |
| IngestBatch.StoreGrows | backend/tradingview_ingest_storage.py:359-386 | a store stopped after any write keeps what was stored |
| IngestBatch.RewriteGrows | backend/tradingview_ingest_storage.py:359-386 | so does an overwriting one, but for the contents |
| IngestBatch.StoreInFull | backend/tradingview_ingest_storage.py:359-386 | a store that is not stopped leaves exactly the old keys and the batch's keys |
| EventFiles.StoreContexts | backend/tradingview_ingest_storage.py:383-386 | contexts stay complete if and only if the store does not stop inside the three writes of one event |
| EventFiles.PersistSupplies | backend/tradingview_ingest_storage.py:359-386 | after a store, overwriting or not and stopped anywhere, a key has its event, micro or macro file if and only if it had it before or the writes got to that file of the first event under the key |
| EventFiles.FileExactly | backend/tradingview_ingest_storage.py:359-386 | over any run a key has each of its three files if and only if it had it at the start or some step writes it |
| EventFiles.LostContextExactly | backend/tradingview_ingest_service.py:273-301 | once an event is stored, a context file of it is there after a run if and only if it was there before or an overwriting replay got to it |
| EventFiles.LostContextStaysLost | backend/tradingview_ingest_storage.py:364-367 | without overwriting replays a lost context is never supplied by any later step, and one that exists stays |
| EventFiles.RewriteInFull | backend/tradingview_ingest_storage.py:364-386 | an overwriting store carried out in full supplies all three files of every key of the batch |
| EventFiles.FullReplaySupplies | backend/tradingview_ingest_service.py:273-301 | an overwriting replay that runs through leaves every event of its raw batch with both contexts |
| EventFiles.LostThenSupplied | backend/tradingview_ingest_service.py:273-301 | contexts lost to a cut-short cycle are missing through any steps without overwriting, and there after an overwriting replay |
| EventFiles.FileHoldsLast | backend/tradingview_ingest_storage.py:364-386 | after an overwriting store stopped anywhere, each file of a key holds what the last event under that key whose file was reached says, else what it held |
| EventFiles.LastReachedIsLast | backend/tradingview_ingest_storage.py:364-386 | that event is the last one under the key with few enough named events before it for the writes to get there |
| EventFiles.CutShortExample | backend/tradingview_ingest_storage.py:383-386 | a store that stops after its first write leaves an event without contexts |
| IngestBatch.ConsumeKeeps | backend/tradingview_ingest_cycle.py:116-157 | consuming a file keeps the invariant wherever it fails, so a retry is safe |
| EventFiles.SameFileExactly | backend/tradingview_ingest_storage.py:38-40 | two ids share a file if and only if, trimmed, they are equal up to unsafe characters |
| EventFiles.SafeIdsAreApart | backend/tradingview_ingest_storage.py:38-40 | ids made of safe characters share a file only when they are equal |
| EventFiles.MaskExactly | backend/tradingview_ingest_storage.py:38-40 | letters, digits, hyphen and underscore are kept in a file name, everything else becomes an underscore |
| EventFiles.DuplicateExactly | backend/tradingview_ingest_storage.py:359-367 | without overwriting the later of two events is taken for a duplicate if and only if their ids share a file |
| EventFiles.OwnFileExactly | backend/tradingview_ingest_storage.py:359-386 | without overwriting an event gets files of its own if and only if its key is not stored and no earlier event of the batch has it |
| EventFiles.FileHoldsFirst | backend/tradingview_ingest_storage.py:359-386 | after a full store without overwriting every key holds what was stored before, else the first event of the batch under it, with its contexts |
| EventFiles.UnsafeIdsCollide | backend/tradingview_ingest_storage.py:38-40 | the ids a:b and a_b share a file and the later event is not stored |
| BatchJournal.StatusExactly | backend/tradingview_ingest_storage.py:250-257 | a key has a status if and only if some earlier delivery, consumption or replay left one |
| BatchJournal.StatusRowStep | backend/tradingview_ingest_storage.py:225-257 | the state and the paths a delivery, a consumption and a replay leave in the status of a batch |
| BatchJournal.StateIsLast | backend/tradingview_ingest_storage.py:250-257 | the state of a batch is the one given by the last step that marked it |
| BatchJournal.QueuedExactly | backend/tradingview_ingest_storage.py:169-238 | a delivery queues its batch if and only if it has an id, gets to the second write, and no earlier step left a status under its key |
| BatchJournal.ActiveExactly | backend/tradingview_ingest_storage.py:319-324 | a file is active if and only if some delivery queued it and no consumption archived it since |
| BatchJournal.RowExactly | backend/signal_outcome_engine.py:859-871 | a signal gets its row if and only if it is new and fewer rows come before it than the writes that succeed |
| BatchJournal.SignalJournaledExactly | backend/tradingview_ingest_cycle.py:109-137 | over any run a signal is in the journal if and only if some delivery of it was queued, its file was still active when a consumption took it, stored its events and got to its row |
| BatchJournal.ArchivedJournaledExactly | backend/tradingview_ingest_cycle.py:69-136 | a consumption that archives its file leaves all its signals in the journal if and only if no journal write fails |
| BatchJournal.NothingMoreJournaled | backend/tradingview_ingest_cycle.py:109-160 | with nothing active, deliveries under known keys, cycles and replays never add to the journal |
| BatchJournal.ReplayBlocksDelivery | backend/tradingview_ingest_service.py:285-291 | a delivery cut short after its raw file and replayed is not queued when it is delivered again |
| BatchJournal.SharedFileDropsBatch | backend/tradingview_ingest_storage.py:173-193 | of two batches whose ids share a file the later changes nothing |
| WalkForward.SimulateSelector | backend/api_server.py:3335-3382 | the simulation is the walk over the rows in time order, with its tallies and the hindsight baseline; each step chooses the unique best policy of the rows before its own, or nothing when none is eligible |
| WalkForward.SelectTopFromHistory | backend/api_server.py:3122-3144 | the loop finds the head of the sorted eligible statistics |
| WalkForward.WalkRows | backend/api_server.py:3348-3369 | the loop over chronological rows produces the walk, every step of it decided from the rows before its own, and tallies its steps |
| WalkForward.AccumulateStepMetrics | backend/api_server.py:3225-3245 | wins, losses and points move by what a selected step says, and by nothing otherwise |
| WalkForward.StatisticsIgnoreOrder | backend/api_server.py:3092-3117 | counts and totals depend on the rows, not on their order |
| WalkForward.ChooseIsBest | backend/api_server.py:3135-3143 | the choice is eligible and strictly before every other eligible name, and there is none only when nothing is eligible |
| WalkForward.SelectionIsUniqueBest | backend/api_server.py:3084-3144 | the selected policy is the unique best under score, expectancy, rate and name, and independent of the order of the history |
| WalkForward.WalkIsPrefixStable | backend/api_server.py:3348-3369 | the steps on the first rows are the first steps on all rows |
| WalkForward.StepLooksBack | backend/api_server.py:3348-3369 | what a step chooses is the same on any two row lists that agree before its own row |
| WalkForward.WalkIsHonest | backend/api_server.py:3146-3170 | each step chooses the unique best of the rows before its own and is judged by its own row |
| WalkForward.FirstStepSelectsNothing | backend/api_server.py:3344-3354 | the first step selects nothing |
| WalkForward.ChronologicalIsOrdered | backend/api_server.py:3337-3340 | the rows are walked in order of time and id, none lost |
| WalkForward.MetricsMean | backend/api_server.py:3225-3245 | wins and losses count the selected steps that were right and wrong, points add up those of the selected steps |
| WalkForward.DirectionCorrectExactly | backend/api_server.py:3067-3081 | following the policy's side pays exactly when the points are won on that side |
| WalkForward.EligibleExactly | backend/api_server.py:3084-3144 | a policy is eligible exactly with a name and at least the asked number of rows |
| WalkForward.ExpectancyMeans | backend/api_server.py:3092-3117 | expectancy is the mean of the policy's known points |
| WalkForward.RateMeans | backend/api_server.py:3092-3117 | the rate is the share of judged rows that went the policy's way |
| WalkForward.WalkIgnoresInputOrder | backend/api_server.py:3337-3340 | with unique time and id pairs the order in which rows come in changes nothing |
| WalkForward.AuditLoop | backend/event_writer.py:4247-4312 | the loop ends and yields the audit of every cutoff that leaves a forward row |
| WalkForward.PolicyAudit | backend/event_writer.py:4211-4312 | the audit of a scoring mode with its parameters forced into range |
| WalkForward.RecommendIsBest | backend/event_writer.py:3792-3845 | the recommended cohort has enough samples and ranks strictly before every other that has, in every scoring mode |
| WalkForward.AuditLooksBack | backend/event_writer.py:4252-4274 | at every cutoff the recommendation depends on nothing but the rows before it and is their unique best cohort |
| WalkForward.AuditIsStable | backend/event_writer.py:4251-4312 | rows that arrive later change no audit row whose forward slice was complete |
| WalkForward.AuditMeasuresAhead | backend/event_writer.py:4252-4310 | an audit row counts and averages the rows of its cohort among the next ones after its cutoff, up to the horizon |
| WalkForward.AuditRowsAre | backend/event_writer.py:4247-4312 | the audit holds the rows of exactly the cutoffs start, start + step, ... that leave a row ahead |
| WalkForward.SafeAuditSettings | backend/event_writer.py:4230-4233 | at least one sample, pace and horizon between 1 and 5000 |
| WalkForward.CohortExpectancy | backend/event_writer.py:3792-3815 | the expectancy of a cohort is the mean over its labeled rows |
| WalkForward.RankingModes | backend/event_writer.py:3792-3815 | each scoring mode ranks by its own mean |
| WalkForward.BlendedScore | backend/event_writer.py:3810-3815 | seven tenths of the expectancy and three of the win rate, shrunk by the count |
| SwingPivots.FindSwingPivots | backend/structure_engine.py:124-167 | the loop returns the highs and lows that stand out in a full window |
| SwingPivots.PivotsAreAll | backend/structure_engine.py:146-165 | the list holds exactly the bars that strictly beat their window, with their price, in order |
| SwingPivots.SwingHighsAre | backend/structure_engine.py:146-158 | a swing high is a bar whose high is above those of the lookback bars on either side |
| SwingPivots.SwingLowsAre | backend/structure_engine.py:146-165 | a swing low is a bar whose low is below those of the lookback bars on either side |
| SwingPivots.PivotsAreApart | backend/structure_engine.py:151-160 | pivots of one kind are more than the lookback apart |
| SwingPivots.NoRepaint | backend/structure_engine.py:146-167 | the pivots of any prefix are a prefix of all pivots: those whose window the prefix covers |
| FeatureLifecycle.StatusIsExplained | backend/cohort_scoring_engine.py:446-503 | after any run of evaluations the status is explained by past evaluations: promising, then against, then against again |
| FeatureLifecycle.RetireHistory | backend/cohort_scoring_engine.py:446-503 | a run that ends in retire holds an evaluation above 0.10 on 40 samples, a later one below -0.6 and a still later one below -0.8 |
| FeatureLifecycle.RetireIsForever | backend/cohort_scoring_engine.py:498-499 | retire is absorbing |
| FeatureLifecycle.NextExactly | backend/cohort_scoring_engine.py:446-503 | from each status, exactly which samples and correlation move a feature and where to |
| FeatureLifecycle.PromotePassesCandidate | backend/cohort_scoring_engine.py:446-503 | a promoted feature was a candidate before |
| FeatureLifecycle.TwoGoodEvaluations | backend/cohort_scoring_engine.py:446-503 | two good evaluations in a row promote a new feature |
| FeatureLifecycle.DecayMeansAgainst | backend/cohort_scoring_engine.py:682-685 | a decay score above a bound means a correlation below its negative |
| FeatureLifecycle.SpreadBounds | backend/cohort_scoring_engine.py:376-381 | the spread lies in [-2, 2], changes sign with its arguments and has the sign of the difference |
| FeatureLifecycle.SpreadExactly | backend/cohort_scoring_engine.py:376-381 | it is the difference measured by the larger of the two sizes |
| FeatureLifecycle.MeanOfValues | backend/cohort_scoring_engine.py:398-443 | the mean of an outcome is that of the known values of its rows |
| FeatureLifecycle.SamplesAreKnown | backend/cohort_scoring_engine.py:398-443 | the samples are the rows whose value is known |
| FeatureLifecycle.ComputeFeatureCorrelation | backend/cohort_scoring_engine.py:398-443 | the loop counts the rows with a value and compares the means of winners and losers |
| FeatureLifecycle.LifecycleStore.UpsertFeatureLifecycle | backend/cohort_scoring_engine.py:506-587 | the row follows the whole history of its feature, records the status it left, and stamps changes only |
| FeatureLifecycle.LifecycleStore.EvaluateFeature | backend/cohort_scoring_engine.py:671-701 | a pass without samples changes nothing; any other appends one evaluation to this feature's history only |
| Indicators.ComputeEmaSeries | backend/feature_math.py:41-53 | the running loop yields the average of every prefix |
| Indicators.EmaStaysInRange | backend/feature_math.py:41-53 | the average never leaves the range of its inputs |
| Indicators.EmaSeriesPrefix | backend/feature_math.py:41-53 | the averages of a prefix are the first averages of the whole |
| Indicators.EmaIsWeightedSum | backend/feature_math.py:41-53 | the average is the exponentially weighted sum of its values |
| Indicators.AlphaExactly | backend/feature_math.py:41-45 | the weight is two over one more than the period |
| Indicators.Macd | backend/feature_math.py:137-162 | the histogram value is the last of the histogram series |
| Indicators.HistogramPrefix | backend/feature_math.py:137-162 | the histogram of a prefix is the histogram of the whole, cut off |
| Indicators.MacdIsPositiveOnRise | backend/feature_math.py:137-162 | on a rising series MACD is positive from the second close on |
| Indicators.HistogramSign | backend/feature_math.py:137-162 | the histogram is positive exactly when MACD is above the signal line of the close before |
| Indicators.Rsi | backend/feature_math.py:111-134 | the two loops compute the smoothed gain and loss, and their index |
| Indicators.RsiOf | backend/feature_math.py:130-134 | the index stays between 0 and 100 |
| Indicators.RsiExactly | backend/feature_math.py:130-134 | the index is the share of the gain in gain and loss, in percent; with a flat loss it is 100 with a gain and 50 without |
| Indicators.RsiAboveMiddle | backend/feature_math.py:130-134 | it is above 50 exactly when the gain exceeds the loss |
| Indicators.RsiCompares | backend/feature_math.py:130-134 | of two readings the one with the larger ratio of gain to loss is higher, so it rises with the gain and falls with the loss |
| Indicators.RsiOfMonotone | backend/feature_math.py:111-134 | a series that never falls reads 100 when a gain is left, else 50; one that never rises and has a loss above the tolerance reads 0 |
| Indicators.StrengthFollowsPrice | backend/feature_math.py:116-129 | over the first period gain less loss is the change of the price; each later change enters with weight one while the rest loses one part in the period |
| Indicators.RsiAboveMiddleOnRise | backend/feature_math.py:111-134 | after exactly one period the index is above 50 exactly when the price is above where it began |
| Indicators.IndicatorsArePrefixStable | backend/feature_math.py:111-162 | RSI and histogram recomputed from a prefix are what one pass over all bars has there |
| DivergenceScan.ReadPrefix | backend/divergence_engine.py:158-169 | reading a reference bar from its prefix gives the reading of a single pass |
| DivergenceScan.ComputeDivergence | backend/divergence_engine.py:90-264 | the scan, with every indicator recomputed from a prefix, is the scan over one pass, so no reference bar sees a later one |
| DivergenceScan.ReadingExactly | backend/divergence_engine.py:113-169 | a reading is RSI over 14 changes and the 12, 26, 9 histogram of the closes up to its bar |
| DivergenceScan.DivergesExactly | backend/divergence_engine.py:173-238 | the four kinds of divergence, spelled out in prices and readings |
| DivergenceScan.ReportIsExact | backend/divergence_engine.py:103-238 | nothing with fewer than 30 bars; otherwise a flag is up exactly when one of the 14 bars before the last diverges that way |
| DivergenceScan.StrengthExactly | backend/divergence_engine.py:188-238 | the strength of one divergence: the RSI points in percent, or the histogram's change against the larger of the two |
| DivergenceScan.StrengthBounds | backend/divergence_engine.py:189-238 | no divergence of the window is stronger than its signal |
| DivergenceScan.StrengthAttained | backend/divergence_engine.py:189-238 | some divergence of the window is as strong as a signal that is up |
| DivergenceScan.FlagsAreExact | backend/divergence_engine.py:153-238 | a flag is up if and only if some reference bar of the window diverges that way, and its unrounded strength lies in [0, 1] and is positive exactly then, for RSI at least 0.02 |
| DivergenceScan.BiasHasFlag | backend/divergence_engine.py:243-254 | a directional bias is backed by a flag of that direction, and the rounded score is in [0, 1] and positive exactly when an RSI flag is up or a MACD strength is above a millionth |
| DivergenceScan.ReportIsWeighed | backend/divergence_engine.py:243-254 | the bias goes to the side with the larger sum of strengths, the score is half of it within half a millionth, the count is that of the flags |
| DivergenceScan.FaintFlagScoresZero | backend/divergence_engine.py:211-254 | a MACD histogram that goes from 1.0 to 1.0000001 raises its flag and the bias with a score of zero |

## Left out

Assumptions and abstractions:

- Floats are real numbers. The explicit rounding of the five price levels and of the divergence score is
  modelled, half to even; that of the derived profile fields is not. The tie tolerance of the point of control
  and the flat-loss tolerance of RSI are modelled too.
- Time stamps and `evaluated_at` texts are integers, `uuid4` values come from a supply of unused numbers,
  and sha256 is taken as free of collisions: a payload is its hash. A candidate with timestamp 0 stands for a
  missing one, and every candidate is inserted as pending.
- The SELECT and the UPDATE of a heartbeat or release may run apart: the UPDATE is a step of its own that may
  land at any time, on any row. Each call carries its own clock reading, so the lease results need no clock
  that only moves forward.
- VolumeProfile.ComputeVolumeProfileSnapshot: asks for volumes that are not negative, because with a negative
  neighbour on both sides the expansion loop makes no progress.
- VolumeProfile.ValueAreaOptimal: is about histograms with a single peak at the centre; the exact condition
  for the narrowest area is VolumeProfile.NarrowestExactly.
- VolumeProfile.ProfileIsOptimal: is about the band before its ends are rounded.
- IngestBatch.FirstContentStays: is about runs without overwriting replays; what those leave is
  EventFiles.FileHoldsLast.
- PaperPipeline.PositionsAreFold: is about runs that never stop between a new fill and its position step;
  for all runs see PaperPipeline.PositionsAreAppliedFold.
- PositionLedger.PnlConservation: asks for prices on the fills of its symbol; for all runs see
  PositionLedger.RunConservesExactly.
- LeaseProtocol.ExclusiveLease: gives a condition on clocks and callers; the exact one, step by step, is
  LeaseProtocol.LeaseLastsExactly.
- Only ASCII letters and digits count as safe in file names, and only space, tab, line feed and carriage
  return are trimmed.
- Active files are worked off in creation order, which stands for modification time.
- SignalOutcomes.RunSignalOutcomeEvaluationOnce: an outcome is its signal id; its labels are those of
  SignalOutcomes.ComputeTruthLabels, on the evaluation window as a parameter.

Not modelled:

- Decisions themselves (strategy, risk, normalization of alerts): each delivery brings its own, at will.
- Metadata, unrealized profit and serialized columns of positions, orders and fills; execution notes,
  execution times and the execution journal; symbol normalization.
- The polling loop of a worker that is not in one-shot mode, and API failures other than a refused heartbeat.
- The contents of status rows beyond state and paths, failed-batch files, receipt and signal logs, market
  bias and outcome evaluation inside a cycle, backfill from storage.
- Outcome labels built by plain arithmetic or thresholds: returns, ATR ratios, quality labels, reversion and
  continuation hits.
- Switch, baseline and outperformance summaries of the selector, the averages of an audit row beyond its
  sample count and expectancy, and audits of more than the top cohort (the source reads only the first).
- Continuation correlation, cohort metrics, scores and horizons beyond the feature lifecycle.
- Flags of the structure engine computed from pivots, shape and balance labels and derived widths of a
  profile, and the comparison of a profile with the stored one.
- HTTP endpoints, authentication, CSV export, schedulers, SQL text, readers of recent rows, threshold tables,
  and the softmax and decay formulas of the model engines: easy or without a state property.
