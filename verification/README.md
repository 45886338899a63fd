# Verification model of the trading system

A Dafny 4.11 model of the parts of the system that carry state or money, with proofs about whole runs. It has five
connected cores.

1. **Orders, fills, positions, equity** (`OrderState`, `FillLedger`, `PositionBook`, `FillService`, `Desk`,
   `OrderLifecycle`, `MoneyRun`, `ExchangePolling`, `Paging`, `CashLedger`, `PaperEngine`, `PaperRun`, `PaperDesk`,
   `Reconciliation`). The same money is followed through the exchange's fills, the re-derived order totals, the
   average-cost position and the equity figure; `MoneyRun` states that the four agree on every run. `Desk.Tables` and
   `PaperEngine.PaperExchange` are the objects the source updates in place; the other modules hold the functions those
   methods are proved against and the theorems about them.
2. **Market data and funding** (`MarketFeed`, `MarketProvider`, `MarketRun`, `Funding`, `FundingRun`). The backlog
   drainer over an exchange that truncates and reorders rows, and the paginated funding collector with its checkpoint.
3. **Sizing and the cost gate** (`RiskEngine`, `CostGate`), connected to the simulator's fill arithmetic.
4. **Control** (`PollEngine`, `Scheduler`). The poll worker and its supervisor as interleaved atomic steps; the
   round-robin scheduler and its health machine.
5. **Fast forms against simple ones** (`Chart`, `Shadow`, `Metrics`, `Migrations`). For the counterfactual engine,
   `Shadow` is one portfolio run alone, `ShadowTables` both on shared tables, `ShadowProjection` the filter between
   them, `ShadowRun` whole runs with rolled-back events, and `ShadowEngine` the object that updates the tables.

`Basics` and `Sorting` hold shared vocabulary. Prices, quantities and money are `real`; times are `int` in the unit each
module names. Whatever comes from outside (exchange answers, clocks, candles, signals, schema upgrades) is a parameter,
and the theorems hold for every value of it. Every lemma turns automatic induction off, so each proof is the one written.

`dafny verify dfyconfig.toml` checks the project.

## What the proofs found

Where a promise does not hold as it is worded, a lemma names the inputs and another says exactly when it does hold.

- A close that reaches a position on its own side is applied with the position's sign, so equity and cash part ways
  (`CashLedger.SameSideCloseBreaksEquity`). Equity agrees with cash plus holdings after a fill exactly when the fill is
  an entry onto nothing or onto its own side, or a close of an opposite position that reduces it or consumes it exactly.
- Equity agrees with what the exchange executed up to the fills not yet seen and the residuals of unfaithful ones
  (`MoneyRun.EquityIsWhatTheExchangeExecuted`).
- An order whose create request timed out keeps status UNKNOWN without an exchange id. The poller never selects it, so
  no fill of it is ever recorded (`OrderLifecycle.TimedOutCreateLosesItsFills`). Neither is any of an order whose tick
  ended between the create request and the commit (`OrderLifecycle.StraysLeaveNoTrace`).
- A cancel request on an order already in CANCEL_PENDING makes the transition raise
  (`OrderLifecycle.CancelRaisesOnlyWhileCancelling`). The kill switch cancels all orders in one transaction, so it
  engages exactly when no order the exchange knows is in that status; otherwise the request changes nothing at all
  (`OrderLifecycle.KillSwitchEngagesExactlyWhen`).
- The stored candles are gapless exactly when no process stores a candle after one of its deliveries was rolled back
  while the table or the configuration said which candle was due (`MarketRun.GaplessExactlyWhen`). A rolled-back tick
  that delivered nothing, one followed by a restart before the next stored candle, and one over an empty table
  without a configured start leave no hole; any other leaves out what it had popped.
- With a simulated partial fill ratio the order half of reconciliation is never clean again after the first trade
  (`PaperRun.OrdersReconcileExactlyWhen`), and a close that leaves between 1e-12 and 1e-9 parts the simulator's book
  from the table (`PaperRun.LockstepIsKeptExactlyWhen`). With full fills the two books agree throughout a run exactly
  when no tick was rolled back after it had traded (`PaperRun.LockstepThroughoutExactlyWhen`); after one that was, a
  restart brings them together again (`PaperRun.RestartsRestoreLockstep`).
- Before a first funding window completes, a failed cycle moves the start of what will ever be covered; the exact set of
  recorded settlements is stated (`FundingRun.FundingIsRecordedExactlyOnce`).
- A heartbeat stop does not reset the count of successes in a row, so after a healthy spell one success ends it
  (`PollEngine.HeartbeatStopCanEndAtOnce`).
- A tick that ends with a TimeoutError of its own is taken for one that is still running. Its finished future is awaited
  for ever, so in that process no tick is ever submitted again and the engine is never healthy again
  (`PollEngine.ATimeoutErrorEndsTheTicks`).
- A symbol's gap flag is cleared by a complete bucket but also by any failure that is not a gap
  (`Scheduler.GapIsClearedExactlyWhen`, `Scheduler.AnErrorForgetsTheGap`).
- Without a cost model the sizing overshoots its room exactly when it buys under positive slippage
  (`RiskEngine.UnmodelledEntryOvershootsExactlyWhenBuying`).
- A window that moves back passes the divergence check. Point-by-point drawing then shows it exactly when it does not end
  before the old one and, where it starts before it, just its own points are already drawn there
  (`Chart.IncrementalIsExactExactlyWhen`). With nothing older drawn those are exactly the windows that move forward
  (`Chart.IncrementalIsExactExactlyForward`).
- A shadow trade subtracts slippage that its fill prices already contain (`Shadow.ShadowNetIsPaperNetLessSlippage`), and
  a restart forgets cooldown and daily loss: its memory is the fold over all recorded trades exactly when none of them
  lost (`Shadow.RestartForgets`).
- The two shadow models do not interfere, except through a SAVEPOINT rolled back while the process lives on: memory keeps
  a loss whose trade is gone, or the id of an experiment that is gone. The exact conditions are
  `ShadowRun.RollbackIsHarmlessExactlyWhen`; after the loss of the very first signal the second model is starved until
  a restart (`ShadowRun.SecondModelIsStarved`).
- Expectancy is the mean result per trade exactly when there is a win, and either no loss or no break-even; without a
  win it is not reported at all (`Metrics.ExpectancyIsTheMeanExactlyWhen`).
- The relative fall from the running peak is at least as large as the one from an earlier positive point exactly when the
  curve has not gone below zero or that point is the peak (`Metrics.PeakFallIsRelativelyLargestExactlyWhen`). Below zero
  a larger one goes unreported (`Metrics.NegativeEquityHidesRelativeFalls`).

## Assumptions

- **Exchange fills** (`OrderLifecycle.Possible`, `Honest`): the fill ids of one order are distinct, nothing executes after
  an order is final, and a snapshot that claims a complete history of a filled or cancelled order has it.
  `ExchangePolling.PollOrder` derives that claim from an order listing that does not change during one walk.
- **Candle exchange** (`MarketFeed.ServedBy`): a reply holds the newest rows of the window, at most the page size, each
  open time once, in any order. Gap soundness further assumes that candles open at least one interval apart and that the
  record does not change. Contiguity of the stored candles needs none of this.
- **Ticks**: a tick commits as a whole or is rolled back. In `OrderLifecycle` one that ends after its create request
  without committing is the event `PlacedThenDied`; `PaperRun`, `MarketRun` and `ShadowRun` have rolled-back steps of
  their own, in a process that lives on.
- **Timeouts** (`PollEngine`): `asyncio.TimeoutError` is the builtin `TimeoutError`, as it is from Python 3.11 on, so the
  worker cannot tell a tick's own TimeoutError from its time limit.
- **Paper runs**: `PaperRun.EveryPaperRun` and `PaperRun.EveryPaperRunKeepsItsBooks` take full fills, an observed price
  that is both the sizing and the reference price, and a cost model that shares the simulator's fee and slippage.
- **Experiment ids** (`ShadowTables.Resolved`): the database numbers experiments one after the other, and a number whose
  row was rolled back is given again.
- **Settlements**: each is listed by the time its window's end has passed, and settlement ids are unique.
- **Migrations**: table creation yields the current shape, and upgrades do not drop tables.

## Model

| member | source | states |
|---|---|---|
| OrderState.TerminalEndsEveryPath | app/execution/order_state.py:28-94 | on any legal status history only the last status can be terminal, and the initial one is never entered again |
| OrderState.UnknownReconnectsEveryLiveStatus | app/execution/order_state.py:41-68 | from every live status UNKNOWN is legal and leads to any status but the initial one; from a terminal status nothing is legal |
| FillLedger.NewFillsAreExactlyTheUnknownOnes | app/execution/fill_ledger.py:29-52 | deduplication keeps only reported fills, each id once, none already on file, and loses no reported id |
| FillLedger.LedgerHoldsWhatWasSeen | app/execution/fill_ledger.py:18-68 | after any history of reports the ledger holds exactly the union of the fills seen, each id once |
| FillLedger.TotalsDependOnlyOnTheUnionSeen | app/execution/fill_ledger.py:54-68 | polling-schedule independence: quantity, average and fees are the same for any two report histories with the same union, however batched, repeated or permuted |
| PositionBook.OneOpenIsKept | app/execution/fill_service.py:143-190 | no execution row ever gives a symbol a second open position |
| PositionBook.OtherRowsAreUntouched | app/execution/fill_service.py:143-190 | a row of another symbol, or a closed one, is never changed by an execution |
| PositionBook.NextFillBuilds | app/persistence/repo.py:432-443 | one more fill of the only entry order keeps incremental average, quantity and fees equal to the totals derived from all fills, and the protection at the frozen distances |
| PositionBook.EntryOrderBuildsItsOwnTotals | app/execution/fill_service.py:143-173 | all rows of one entry order, however many polls brought them and whatever their partial flags, append exactly one position whose average and fees are the re-derived ledger ones and whose stop and target sit exactly the frozen distances from that average |
| PositionBook.OneOrderBuildsTheOpenRow | app/execution/fill_service.py:143-190 | while every row of a flat symbol belongs to one entry order, its open position is what that order's rows amount to, with rows of other symbols interleaved in any way |
| PositionBook.ApplyFillsConcat | app/execution/fill_service.py:143-190 | two batches of rows applied one after the other leave the positions of one batch |
| FillService.ApplyingAStatusNeverRaises | app/execution/fill_service.py:100-130 | no snapshot makes the applier raise; terminal statuses absorb; a terminal status without a complete fill history is only remembered as pending; an illegal move lands in UNKNOWN |
| FillService.BlocksFollowTheirCauses | app/persistence/repo.py:64-116 | deriving the block is idempotent, never activates trading or leaves a shutdown, and any remaining cause keeps trading blocked |
| FillService.SnapshotKeepsConsistency | app/execution/fill_service.py:64-198 | every snapshot, whatever it reports, keeps totals derived from the ledger, fill ids distinct per order and one open position per symbol |
| FillService.SecondApplicationAddsNothing | app/execution/fill_service.py:64-98 | applying the same snapshot twice adds no fill and changes positions and totals once |
| FillService.SavingKeepsConsistency | app/persistence/repo.py:390-401 | saving an order keeps the tables consistent and starts it with an empty ledger |
| FillService.LedgerAfterNewRows | app/execution/fill_ledger.py:39-68 | recording a report changes the ledger of its own order by deduplication and no other |
| Desk.Tables.SaveOrder | app/persistence/repo.py:390-401 | appends a pending order with no fills |
| Desk.Tables.TransitionOrderStatus | app/persistence/repo.py:404-418 | moves the status and writes one audit row exactly when the table allows it, and otherwise changes nothing |
| Desk.Tables.Acknowledge | app/orchestrator.py:871-920 | stores the exchange id, when there is one, and the acknowledged status with its audit row |
| Desk.Tables.FindOpen | app/persistence/repo.py:532-536 | finds the first open row of a symbol |
| Desk.Tables.OpenPosition | app/persistence/repo.py:421-429 | appends the position of a first fill |
| Desk.Tables.AddToPosition | app/persistence/repo.py:432-443 | re-weights average, quantity and fees of one row |
| Desk.Tables.ReanchorProtection | app/persistence/repo.py:478-505 | moves stop and target to the frozen distances from the average, by side, or leaves them |
| Desk.Tables.ClosePosition | app/persistence/repo.py:508-519 | stamps a row closed and adds realized profit and fee |
| Desk.Tables.ReducePosition | app/persistence/repo.py:522-529 | reduces the quantity and adds realized profit and fee |
| Desk.Tables.RecomputeTradingBlocked | app/persistence/repo.py:64-116 | derives the block from its causes, and leaves a lifted block through observation |
| Desk.Tables.RecordNewFills | app/execution/fill_ledger.py:18-68 | appends exactly the unseen fills and derives the totals again from all rows |
| Desk.Tables.ApplyRow | app/execution/fill_service.py:145-190 | one execution row changes positions, realized delta, block cause and open row as the ledger-level step says |
| Desk.Tables.SyncStatus | app/execution/fill_service.py:100-130 | the status half never raises and moves the order as the status function says, with its audit row |
| Desk.Tables.ApplyRows | app/execution/fill_service.py:132-190 | the loop over new rows, which looks the position up once, equals applying them one by one to the table |
| Desk.Tables.ApplyOrderSnapshot | app/execution/fill_service.py:64-198 | the applier in place is the snapshot function on all tables, and keeps them consistent |
| OrderLifecycle.CancelRaisesOnlyWhileCancelling | app/execution/order_state.py:55-58 | a cancel request on a live order raises exactly when it is already being cancelled |
| OrderLifecycle.RequestIsARun | app/api/routes_control.py:109-125 | a kill-switch request that does not raise is the run of its cancellations, order by order, so everything proved of runs holds of it |
| OrderLifecycle.KillSwitchEngagesExactlyWhen | app/api/routes_control.py:96-132 | over all live orders: the request engages the switch exactly when no order known to the exchange is in CANCEL_PENDING, and otherwise leaves everything, the switch included, as it was; the invariant of every run holds after it |
| OrderLifecycle.EveryRunKeepsTheInvariant | app/orchestrator.py:770-947 | every run of submissions, polls, cancel requests, exchange executions, deaths between create request and commit and restarts keeps the ledger inside what the exchange executed |
| OrderLifecycle.NoFillIsEverLost | app/orchestrator.py:922-947 | after any run an order's ledger is a duplicate-free subset of the exchange's fills; once FILLED or CANCELLED it is all of them, once REJECTED both are empty; totals are those of the ledger |
| OrderLifecycle.AcceptedOrdersStayInSight | app/orchestrator.py:927-947 | after every continuation an accepted order still has the exchange id it was given and is selected by the poller, or is terminal with everything the exchange executed on file |
| OrderLifecycle.IdsAreKeptOnRuns | app/execution/fill_service.py:100-130 | an exchange id, once stored, is never lost or changed, and no order is ever removed |
| OrderLifecycle.StraysLeaveNoTrace | app/orchestrator.py:770-788 | after a process death between create request and commit the tables are, on every continuation, those of the run without the order |
| MoneyRun.PositionsFollowTheLedger | app/execution/fill_service.py:132-190 | on every run of polls, cancellations and deaths the positions table is that of all execution rows applied in order |
| MoneyRun.EquityOnEveryRun | app/metrics/engine.py:300-323 | on every run equity is starting balance and funding plus cash and holdings of the rows on file plus their residuals |
| MoneyRun.ExchangeIsLedgerPlusUnseen | app/execution/fill_ledger.py:18-68 | by any measure that adds up over fills, everything the exchange executed is the recorded rows plus the unseen ones, none counted twice |
| MoneyRun.EquityIsWhatTheExchangeExecuted | app/metrics/engine.py:300-323 | on every run equity is starting balance and funding plus cash and units of everything the exchange executed, less those of the fills not yet seen, plus residuals; with every order terminal nothing is unseen but orders without a local row |
| MoneyRun.SettledRunsAgreeWithTheExchange | app/metrics/engine.py:300-323 | with every order terminal and known and every recorded fill faithful, equity is exactly the cash and units of what the exchange executed and each position its net units |
| MoneyRun.OpenPositionCarriesItsOrdersTotals | app/execution/fill_service.py:143-190 | on every run, while only one entry order of a symbol has filled since it was flat, the open position is what that order's rows amount to, with the frozen distances, and carries the order's own quantity, average and fees when all its rows came since |
| MoneyRun.TerminalTotalsAreTheExchanges | app/execution/fill_ledger.py:54-68 | on every run a FILLED or CANCELLED order carries the totals of everything the exchange executed for it, whatever the batching of the polls |
| OrderLifecycle.TerminalAndUnacknowledgedOrdersAreFrozenForever | app/persistence/repo.py:269-277 | terminal orders, and orders without an exchange id, keep status and ledger on every continuation |
| OrderLifecycle.TimedOutCreateLosesItsFills | app/execution/bybit_demo.py:97-105 | an order whose create request timed out stays UNKNOWN with an empty ledger on every continuation, although the exchange may execute it |
| OrderLifecycle.TwoProofsSettleAnOrder | app/execution/fill_service.py:112-130 | two polls that prove the same terminal status settle any pollable order |
| Paging.CleanWalkIsEverything | app/execution/bybit_demo.py:159-196 | a walk that read every page cleanly up to the end gathered exactly the exchange's listing |
| Paging.GatheredRowsAreGenuine | app/execution/bybit_demo.py:171-187 | every gathered row is a row of the listing |
| Paging.EndingListingsDoNotRepeat | app/execution/bybit_demo.py:189-194 | on a listing that ends within the page cap neither the repeated-cursor guard nor the cap ever fires |
| ExchangePolling.FetchAllExecutions | app/execution/bybit_demo.py:145-196 | keeps everything validated before an interruption, is complete only after a clean walk to the end, and then has the whole listing; complete whenever nothing interrupts a listing that fits |
| ExchangePolling.ReadFillsAreGenuine | app/execution/bybit_demo.py:174-187 | whatever a walk read, also from a page it broke off in, the exchange lists |
| ExchangePolling.PollOrder | app/execution/bybit_demo.py:107-143 | maps the status, walks executions only for statuses that can carry fills, and against a truthful exchange returns an honest snapshot whatever was interrupted |
| ExchangePolling.ListOpenOrders | app/execution/bybit_demo.py:213-263 | returns the open orders of the complete listing or raises; an interruption never reads as an empty list |
| CashLedger.FaithfulFillsAreExactlyTheNeutralOnes | app/execution/fill_service.py:145-190 | a fill leaves equity in agreement with cash plus holdings at every mark price if and only if it is an entry onto nothing or its own side, or a close of an opposite position that reduces or exactly consumes it |
| CashLedger.EquityIsCashPlusHoldingsPlusResiduals | app/metrics/engine.py:300-323 | on every run equity is the cash of all fills plus signed holdings at the mark plus exactly the residuals that blocked, orphan, same-side-closing and over-closing fills left |
| CashLedger.EquityRefinesThePlainLedger | app/metrics/engine.py:300-323 | on a faithful run starting balance plus realized less fees plus unrealized equals cash plus holdings, for every mark |
| CashLedger.PositionIsNetUnits | app/execution/fill_service.py:145-190 | on a faithful run each open position is the net signed units traded |
| CashLedger.EquityStaysWithinTheSlack | app/execution/fill_service.py:183-190 | each close within the tolerance adds at most the tolerance times the average price of error |
| CashLedger.SameSideCloseBreaksEquity | app/execution/fill_service.py:175-190 | a concrete closing fill on the position's own side moves equity and cash apart by twice its distance from the mark |
| CashLedger.BookValueStep | app/persistence/repo.py:421-529 | one fill changes realized plus unrealized by its cash, its units at the mark and its residual |
| CostGate.RoundTripCostClosedForm | app/risk/cost_model.py:179-230 | the round-trip cost is quantity times one straight line in the expected move |
| CostGate.GateIsOneThreshold | app/risk/cost_model.py:117-275 | the verdict is one closed-form threshold and does not depend on the quantity |
| CostGate.ThresholdIsLinear | app/risk/cost_model.py:179-250 | the threshold is one linear inequality in the expected move, per side |
| CostGate.ApprovalIsUpwardClosed | app/risk/cost_model.py:181-250 | more volatility keeps an approval, for a SELL exactly up to the clamp of the projected exit |
| CostGate.SellNeedsNoMoreThanBuy | app/risk/cost_model.py:181-250 | whatever volatility approves a BUY approves an unclamped SELL |
| CostGate.PaperFillsAtTheAdversePrice | app/risk/cost_model.py:75-114 | the simulator fills at the price the gate and the sizing estimate |
| CostGate.PaperRoundTripNetsMoveLessCost | app/execution/paper_local.py:55-71 | a paper entry closed at the gate's projected exit nets exactly expected move less round-trip cost |
| CostGate.ApprovalNetsTheCoverage | app/risk/cost_model.py:231-275 | an approval under ratio r nets at least (r - 1) times the cost |
| RiskEngine.ApprovalMeansSized | app/risk/engine.py:182-370 | an approval comes from passed gates, a non-zero sizing price, and a positive quantity of the allowed dollars at that price |
| RiskEngine.ApprovedEntryFitsTheRoom | app/risk/engine.py:287-337 | an approved entry filled at its sizing price is worth exactly its room: within position limit and exposure left, and not below the economic floor less the tolerance |
| RiskEngine.UnmodelledEntryOvershootsExactlyWhenBuying | app/risk/engine.py:300-337 | without a cost model the filled notional exceeds the room exactly for a BUY under positive slippage |
| RiskEngine.ClosingIgnoresEntryGates | app/risk/engine.py:372-439 | gates that bind openings only never change a close; a full close passes exactly when the common gates pass |
| PaperEngine.PaperExchange.Submit | app/execution/paper_local.py:50-72 | fills at once at the adverse price, remembers the snapshot under the local id and books the fill |
| PaperEngine.PaperExchange.PollOrder | app/execution/paper_local.py:74-82 | returns the remembered snapshot, or UNKNOWN |
| PaperEngine.PaperExchange.ApplyToPosition | app/execution/paper_local.py:99-139 | opens, increases, reduces, closes or flips the simulator's holding |
| PaperEngine.PaperExchange.HydratePositions | app/execution/paper_local.py:144-171 | replaces the book by the persisted rows that have quantity |
| PaperRun.LockstepIsKeptExactlyWhen | app/execution/paper_local.py:99-139 | a fill keeps persisted position and simulator holding equal in side, quantity and average, or both absent, for every symbol, if and only if it is an entry onto nothing or its own side, or a close of the opposite side outside the band between the two cut-offs |
| PaperRun.HydrationRestoresLockstep | app/execution/paper_local.py:144-171 | hydration rebuilds a book in lockstep from the positions table alone |
| PaperRun.PaperEntryFitsTheRoom | app/risk/engine.py:287-337 | a full-fill paper entry has notional at least the minimum less the tolerance, within the position limit and the exposure left |
| PaperRun.TradingStaysSound | app/execution/fill_service.py:145-190 | one whole fill keeps one open row per symbol, positive averages, the exposure cap, the table as its rows applied in order, and the faithful history |
| PaperRun.LockstepReconciles | app/execution/reconciliation.py:25-63 | two books in lockstep give an empty position report, whatever symbol is configured |
| PaperRun.TradeWritesOneFill | app/orchestrator.py:770-788 | one trade, whatever the fill ratio, writes one order with the totals of its fill, one row and one step of the positions table, and keeps the tables consistent |
| PaperRun.SoundStatesReconcile | app/orchestrator.py:1046-1177 | in a sound state both halves of a reconciliation are clean, and reconciling leaves it sound |
| PaperRun.EveryPaperRunKeepsItsBooks | app/orchestrator.py:141-445 | on every run without a partial ratio of signals, triggers, polls, reconciliations, restarts and rolled-back ticks, over any symbols and gate states: every order filled in full, one open position per symbol, the order half of reconciliation clean, exposure within the cap, equity equal to cash plus holdings at every mark, positions equal to net units |
| PaperRun.EveryPaperRun | app/orchestrator.py:1046-1177 | on every such run that rolled back no tick after its trade the table and the simulator agree, both halves of a reconciliation are clean, and no cause of a block ever came from orders, fills or reconciliation |
| PaperRun.EveryRunKeepsTheTables | app/orchestrator.py:141-445 | whatever was rolled back, the tables of every run without a partial ratio stay sound |
| PaperRun.LockstepThroughoutExactlyWhen | app/execution/paper_local.py:99-171 | a run without a partial ratio is in lockstep after every step if and only if no tick that traded was rolled back in a process that lived on |
| PaperRun.RestartsRestoreLockstep | app/execution/paper_local.py:144-171 | after any run without a partial ratio, whatever was rolled back, a restart brings table and simulator together and the position report is clean |
| PaperRun.RolledBackStep | app/execution/paper_local.py:99-139 | a rolled-back tick leaves the tables as they were and keeps lockstep exactly when it would not have traded |
| PaperRun.OrdersReconcileExactlyWhen | app/orchestrator.py:1126-1177 | the order half of reconciliation is clean on exactly the runs whose simulator fills in full or that never wrote an order, rolled-back ticks included |
| PaperDesk.SubmitAndTrack | app/orchestrator.py:770-788 | submit, poll and apply on the tables and the simulator is exactly one traded step of a paper run, with any fill ratio, and ends FILLED or PARTIALLY_FILLED with the totals of its fill |
| Reconciliation.NoMismatchMeansAgreement | app/execution/reconciliation.py:25-63 | a local position is free of mismatches exactly when presence, quantity, side and relative price agree |
| Reconciliation.ReconcilePositions | app/execution/reconciliation.py:25-63 | the report lists every mismatch in order and is clean if and only if both sides match |
| Reconciliation.CleanOrderReport | app/execution/reconciliation.py:73-117 | the order report is empty exactly when both sides list the same ids with equal quantity and side |
| Reconciliation.UnknownOrdersAreReportedOnce | app/execution/reconciliation.py:84-94 | the unknown exchange orders reported are exactly those listed there and not open locally, each once |
| Reconciliation.ReconcileOrders | app/execution/reconciliation.py:73-117 | reports every mismatch in order: unknown exchange orders, then missing, quantity and side mismatches of the local ones; clean exactly when both sides agree |
| MarketFeed.CandidatesAreTheWindowRows | app/market_data/bybit_provider.py:192-200 | sorting and filtering a reply keeps exactly its rows inside the window, in order |
| MarketFeed.WindowsAreNeverTruncated | app/market_data/bybit_provider.py:321-330 | because a window has exactly page-size slots, no candle of it can be missing from a newest-first truncated reply |
| MarketFeed.ReportedGapsAreReal | app/market_data/bybit_provider.py:338-352 | when a walk reports a gap, the expected candle is not in the exchange's record and the found one is |
| MarketFeed.WindowIsFullOrCaughtUp | app/market_data/bybit_provider.py:338-385 | on a hole-free exchange a window is consumed whole or the present is reached |
| MarketProvider.Provider.SyncCursor | app/market_data/bybit_provider.py:135-144 | adopts the last persisted candle, only forward |
| MarketProvider.Provider.FetchWindow | app/market_data/bybit_provider.py:163-200 | returns the ordered rows of the window, or nothing on a timeout or rate limit, or raises on any other failure and on a row that does not parse; counts failures in a row |
| MarketProvider.Provider.Accept | app/market_data/bybit_provider.py:332-352 | keeps the longest contiguous closed prefix and says exactly why it ended |
| MarketProvider.Provider.AcceptFirst | app/market_data/bybit_provider.py:225-243 | the first walk keeps the contiguous closed prefix from the oldest candle; a forming candle ends it before continuity is checked |
| MarketProvider.Provider.Bootstrap | app/market_data/bybit_provider.py:202-254 | queues one bounded window's closed prefix and sets the cursor to its end, or changes nothing |
| MarketProvider.Provider.Collect | app/market_data/bybit_provider.py:313-385 | the page loop terminates and collects a contiguous closed batch, up to the cap or the present on a hole-free exchange, with only real gaps; an exception drops what it had collected |
| MarketProvider.Provider.Drain | app/market_data/bybit_provider.py:313-385 | queues exactly what the page loop collected and keeps the gap that ended it |
| MarketProvider.Provider.RefillQueue | app/market_data/bybit_provider.py:294-385 | one refill of a hole-free exchange collects exactly min(closed backlog, pages times page size) candles from the cursor |
| MarketProvider.RefillIsComplete | app/market_data/bybit_provider.py:313-385 | a contiguous closed batch that stopped only at the cap or at the present is as long as the closed backlog, up to the cap, and below the cap is that backlog |
| MarketProvider.Provider.PopFromQueue | app/market_data/bybit_provider.py:282-292 | delivers the queue's head and moves the cursor to it |
| MarketProvider.Provider.PollAfresh | app/market_data/bybit_provider.py:256-280 | with nothing queued: refill, deliver the first candle, or report the pending gap |
| MarketProvider.Provider.NextCandle | app/market_data/bybit_provider.py:256-280 | one poll delivers the candle right after the cursor, as the exchange served it, or nothing; keeps the rest contiguous; raises only when an answer does; reports only real gaps; passes over no closed candle in silence; and leaves none waiting on a hole-free exchange |
| MarketProvider.Provider.NextWindow | app/market_data/bybit_provider.py:319-352 | one window after the cursor: a contiguous closed batch of served rows, a gap only where the record has one, nothing only when nothing closed is there |
| MarketRun.GaplessExactlyWhen | app/market_data/bybit_provider.py:282-292 | after any run of committed ticks, rolled-back ticks, failures and restarts stored open times are one interval apart, from a configured start on, if and only if no process stored a candle after one of its deliveries was rolled back while the table or the configuration said which candle was due |
| MarketRun.EveryRunIsOrdered | app/persistence/repo.py:144-169 | on every run, rolled-back ticks included, stored candles had closed and advance by at least one interval, so none is stored twice |
| MarketRun.EveryCommittedRunIsGapless | app/orchestrator.py:187-195 | on runs of committed ticks, failures and restarts each persisted open time is exactly one interval after the one before it, every candle closed, starting at the configured start |
| MarketRun.TheTableOnlyGrows | app/persistence/repo.py:144-169 | no stored candle is ever lost or reordered |
| MarketRun.EveryStepKeepsOrder | app/orchestrator.py:187-195 | every step keeps table, cursor and queue in order and only appends |
| MarketRun.RolledBackTickSkipsACandle | app/market_data/bybit_provider.py:282-286 | one rolled-back delivery and then a stored one, by the same process, leave out exactly one candle |
| MarketRun.CollectTick | app/orchestrator.py:187-195 | resynchronise, poll and persist on the real provider object is one committed step of such a run, or a rolled-back one when the provider raises |
| Funding.ListFunding | app/execution/funding.py:88-148 | keeps everything validated, is complete only after a clean walk to the end and then has the whole window; complete whenever nothing interrupts a listing that fits |
| Funding.ParsePage | app/execution/funding.py:126-132 | invalid rows are skipped and make the page unclean |
| FundingRun.RecordingAddsTheMissing | app/execution/funding.py:181-211 | recording adds exactly the missing settlements, each once |
| FundingRun.Collector.RecordNew | app/execution/funding.py:181-211 | appends each record whose id is not on file, once |
| FundingRun.Collector.Advance | app/persistence/repo.py:617-635 | the checkpoint never moves back |
| FundingRun.Collector.CollectWindow | app/orchestrator.py:995-1001 | one window persists what it validated, invents nothing, and when complete has recorded every settlement of the window |
| FundingRun.Collector.Collect | app/orchestrator.py:949-1016 | the window loop terminates, stops at the first incomplete window, keeps partial records and advances the checkpoint over complete windows only |
| FundingRun.CheckpointNeverMovesBack | app/persistence/repo.py:617-635 | over any run the checkpoint never moves back |
| FundingRun.FundingIsRecordedExactlyOnce | app/orchestrator.py:978-1016 | once a first window has completed, a settlement up to the checkpoint is recorded if and only if it is not older than that window's start or had been collected before, and never twice |
| PollEngine.EveryRunIsSafe | app/api/poll_engine.py:232-480 | every interleaving keeps: at most one tick executing; SAUDAVEL only with both alerts down, no error, not degraded; timeout reports bounded by ticks; the back-off law |
| PollEngine.TicksNeverOverlap | app/api/poll_engine.py:262-290 | no tick starts while another executes, not even across worker restarts |
| PollEngine.ATimeoutErrorEndsTheTicks | app/api/poll_engine.py:281-313 | after a tick that ended with a TimeoutError of its own no tick is ever submitted again and the engine is never reported healthy again, whatever follows |
| PollEngine.EntriesNeedARecentSuccess | app/api/poll_engine.py:146-161 | an engine reported healthy has a success within the heartbeat age and nothing wrong since |
| PollEngine.TimeoutReports | app/api/poll_engine.py:296-333 | a step records a timeout exactly when it raises the alert, and the alert falls exactly when the tick resolves |
| PollEngine.OneReportPerHungTick | app/api/poll_engine.py:296-310 | from its start until it resolves a tick has exactly one timeout report if any check found it running or ended by its own TimeoutError, and none otherwise |
| PollEngine.HeartbeatReports | app/api/poll_engine.py:426-444 | a heartbeat incident is recorded exactly when the alert rises |
| PollEngine.OneReportPerHeartbeatEpisode | app/api/poll_engine.py:426-444 | while the alert stays up the episode is not recorded again |
| PollEngine.FailuresBackOff | app/api/poll_engine.py:311-333 | the wait after k failures in a row, and before the k-th restart, is min(initial * 2^k, max) |
| PollEngine.EnoughSuccessesRecover | app/api/poll_engine.py:197-229 | enough successes with nothing wrong in between lead any state to SAUDAVEL |
| PollEngine.OneSuccessRecoversExactlyWhen | app/api/poll_engine.py:215-219 | a success ends DEGRADADO or PARADO exactly when it completes the required count |
| PollEngine.HeartbeatStopCanEndAtOnce | app/api/poll_engine.py:426-444 | after a heartbeat stop one success suffices exactly when the count before it was already high enough |
| PollEngine.Loop.SubmitTick | app/api/poll_engine.py:268-273 | submits only when no future is pending |
| PollEngine.Loop.OnTimeout | app/api/poll_engine.py:281-313 | keeps the future, also one that ended with a TimeoutError of its own, degrades, backs off and reports the first timeout only |
| PollEngine.Loop.OnException | app/api/poll_engine.py:314-333 | frees the future, degrades, backs off and reports |
| PollEngine.Loop.OnResult | app/api/poll_engine.py:335-354 | frees the future, resets back-off, counts the success and maybe recovers |
| PollEngine.Loop.MaybeRecover | app/api/poll_engine.py:197-229 | one success is enough from INICIANDO, the configured count from DEGRADADO or PARADO; recovering clears error and alerts and is recorded once for a broken engine |
| PollEngine.Loop.CheckHeartbeat | app/api/poll_engine.py:426-444 | raises the alert, stops the engine and reports once when the heartbeat expires, and lowers the alert when it is fresh again |
| PollEngine.Loop.NoticeWorkerEnded | app/api/poll_engine.py:446-468 | stops after a normal end, otherwise records the death and backs off |
| PollEngine.Loop.RestartWorker | app/api/poll_engine.py:415-424 | starts the next worker with no pending future, initial back-off, no successes, and a new heartbeat reference |
| Scheduler.HealthMeansWhatItSays | app/orchestrator.py:1419-1480 | after any history of ticks SAUDAVEL means no gap, failure or error, and PARADO means exactly three or more failures in a row |
| Scheduler.GapIsClearedExactlyWhen | app/orchestrator.py:1427-1436 | the gap flag is cleared exactly by a non-gap failure or by a complete bucket on a tick that did not fail |
| Scheduler.AnErrorForgetsTheGap | app/orchestrator.py:1435-1480 | a transport error followed by any quiet tick reports SAUDAVEL without a completed bucket |
| Scheduler.NobodyWaitsForever | app/orchestrator.py:1482-1500 | a symbol eligible in n consecutive calls is ticked in one of them, whatever back-offs the others are in |
| Scheduler.NobodyOvertakesTwice | app/orchestrator.py:1482-1500 | while an eligible symbol waits no other symbol is ticked twice |
| Scheduler.OneSickSymbolClosesTheGate | app/orchestrator.py:1392-1417 | the entry gate is open exactly when the aggregated status is SAUDAVEL |
| Scheduler.MultiSymbol.UpdateHealth | app/orchestrator.py:1419-1480 | updates one symbol's health, and no other, as the health function says |
| Scheduler.MultiSymbol.SyncEngineDegraded | app/orchestrator.py:1395-1404 | every orchestrator is degraded exactly when the engine is or some symbol is not healthy |
| Scheduler.MultiSymbol.SetEngineDegraded | app/orchestrator.py:1383-1390 | the setter reaches every orchestrator unconditionally |
| Scheduler.MultiSymbol.Tick | app/orchestrator.py:1482-1500 | ticks the eligible symbol nearest to the index going round, or none, with the gate synchronised first |
| Chart.Classify | frontend/app.js:1159-1207 | a redraw exactly when the windows diverge, otherwise the points from the last drawn one on |
| Chart.Series.Apply | frontend/app.js:1237-1246 | the series after a refresh is the redraw or the incremental result, and it fails exactly when the library refuses a point |
| Chart.ForwardRefreshShows | frontend/app.js:1159-1207 | a forward refresh leaves the series, from the window's first time on, equal to the window, and everything older untouched |
| Chart.IncrementalIsExactExactlyWhen | frontend/app.js:1159-1207 | whatever older points are drawn, incremental drawing shows the new window if and only if it does not end before the old one and, where it starts before it, exactly its own points are already drawn |
| Chart.IncrementalIsExactExactlyForward | frontend/app.js:1159-1207 | with nothing older drawn, incremental drawing shows the new window exactly when windows move forward |
| Chart.GenuineSlidesNeverReset | frontend/app.js:1159-1207 | dropping a prefix, changing the last candle and appending never redraws |
| Chart.EveryRefreshShowsItsWindow | frontend/app.js:1237-1246 | after any number of refreshes over windows that move forward, redraws among them, the drawn suffix is the last window |
| Chart.Sanitize | frontend/app.js:1114-1118 | a sanitised response is strictly ordered and holds exactly the last value received for each time |
| Shadow.EveryEventStaysSound | app/shadow/engine.py:230-434 | every event keeps open notional within the largest cap run under, one open position per symbol, cooldown and daily loss equal to a fold over the trades since the process started |
| PaperDesk.SubmitAndRecord | app/orchestrator.py:770-778 | submitting and acknowledging, with any fill ratio, leaves the order SUBMITTED with its id and audit row, and one fill booked and remembered by the simulator |
| Shadow.ClosingStaysSound | app/shadow/engine.py:230-282 | every close records its trade; the unique key never suppresses one |
| Shadow.EntriesRespectTheCurrentCap | app/shadow/engine.py:397-434 | an entry never takes the open notional past the current cap |
| Shadow.RedeliveryChangesNothing | app/shadow/engine.py:325-340 | a signal delivered again, even with other contents, changes nothing |
| Shadow.NoEntryAfterAnExit | app/shadow/engine.py:362-384 | no position is opened in the tick of an exit or by an opposite signal |
| Shadow.RestartForgets | app/shadow/engine.py:79-85 | a restart keeps the rows, and its memory is the fold over all recorded trades if and only if no recorded trade lost |
| Shadow.ShadowNetIsPaperNetLessSlippage | app/shadow/engine.py:238-246 | a shadow net result is the paper result on the same fills less the slippage of both legs |
| ShadowProjection.ResolvingIsMine | app/shadow/engine.py:161-214 | looking up one model's experiment, continuing, ending or creating one, is that lookup in the model's own view and nothing in the other's |
| ShadowProjection.RecordingIsMine | app/shadow/engine.py:246-270 | no trade of another model can suppress a trade: the unique key includes the experiment |
| ShadowProjection.QueriesAreMine | app/shadow/engine.py:217-228 | the queries filtered by model find what the model's own portfolio holds |
| ShadowProjection.EventIsMine | app/shadow/engine.py:285-359 | one model's part of an event on the shared tables is, in its filtered view, the event in its portfolio run alone, and nothing in the other model's view |
| ShadowRun.ModelsDoNotInterfere | app/shadow/engine.py:285-434 | on every run of committed events, restarts under any configurations and harmless rolled-back events, filtering the shared tables by model gives that model's run alone, and it is sound |
| ShadowRun.RollbackIsHarmlessExactlyWhen | app/orchestrator.py:660-690 | a rolled-back SAVEPOINT in a surviving process: ids stay valid iff no experiment had to be written; a model's view is as before iff it was not reached or the event would move nothing in its memory; its daily loss and cooldown stay the fold over its trades iff the event would close nothing that counts |
| ShadowRun.SecondModelIsStarved | app/shadow/engine.py:161-214 | after the first signal is rolled back behind the baseline, the second model is given the baseline's experiment id and never opens or closes anything until a restart |
| ShadowEngine.Engine.ExperimentId | app/shadow/engine.py:161-214 | the id in memory, the active experiment of the same configuration, or a new one that ends it |
| ShadowEngine.Engine.RegisterClose | app/shadow/engine.py:230-282 | closes one shared row, records the trade unless its key is on file, and updates daily loss and cooldown of its model |
| ShadowEngine.Engine.OnOperationalCandle | app/shadow/engine.py:285-310 | works the candle through both models over the shared tables, one after the other |
| ShadowEngine.Engine.OnStrategySignal | app/shadow/engine.py:313-359 | works the signal through both models: experiment, repetition by experiment, decision |
| ShadowEngine.Engine.Decide | app/shadow/engine.py:362-434 | an exit of the same tick blocks entry, an opposite signal only closes, and an admitted entry takes exactly its room |
| Metrics.MaxDrawdown | app/metrics/engine.py:396-419 | the running peak yields current and largest falls, in money and percent |
| Metrics.PeakFallsAreTheLargest | app/metrics/engine.py:396-419 | the one-pass maximum is the largest curve[i] - curve[j] over all i <= j |
| Metrics.PeakFallsAreTheRelativelyLargest | app/metrics/engine.py:396-419 | between non-negative points no relative fall exceeds the reported percentage |
| Metrics.PeakFallIsRelativelyLargestExactlyWhen | app/metrics/engine.py:396-419 | for every curve and any earlier positive point: the fall reported at a point is relatively as large as the one from the earlier point if and only if the curve is not below zero there or the earlier point is the running peak |
| Metrics.NegativeEquityHidesRelativeFalls | app/metrics/engine.py:396-419 | a concrete curve below zero whose largest reported relative fall is 200 percent although it fell by 10100 percent |
| Metrics.Streaks | app/metrics/engine.py:378-393 | one pass computes the longest run of each sign |
| Metrics.StreaksAreTheLongestRuns | app/metrics/engine.py:378-393 | the streaks are reached by, and bound, all contiguous strictly positive or strictly negative runs |
| Metrics.ComputeMetrics | app/metrics/engine.py:422-524 | figures of the trades in closing order; net profit is the last curve point less the start plus funding, and the net of the trades in any order |
| Metrics.NetProfitIsTheCurvesGain | app/metrics/engine.py:453-493 | wins plus losses less commissions is the gain of the curve and does not depend on the order of the trades |
| Metrics.ExpectancyIsTheMeanExactlyWhen | app/metrics/engine.py:475-481 | for any trades expectancy is the mean result exactly when there is a win and either no loss or no break-even; otherwise each break-even shifts it by one share of the average loss |
| Metrics.ComputeUnrealized | app/metrics/engine.py:221-252 | unmarkable positions are left out of the total and reported as incompleteness |
| Metrics.FullyMarkedTotal | app/metrics/engine.py:221-252 | fully marked, the total is the positions table's unrealized profit |
| Metrics.DashboardEquityIsCashPlusHoldings | app/metrics/engine.py:300-323 | the reported equity is cash plus holdings at the mark on every faithful run |
| Migrations.DetectionFindsTheLongestPrefix | app/persistence/migrations.py:995-1009 | legacy detection returns the longest prefix of versions whose invariants all hold |
| Migrations.SuccessMeansEverything | app/persistence/migrations.py:1097-1188 | a run that is not refused ends with the history of exactly all versions and every invariant, from any schema and history |
| Migrations.GappedAndFutureHistoriesAreRefused | app/persistence/migrations.py:1021-1077 | gapped histories and histories from a newer program are always refused |
| Migrations.SecondRunChangesNothing | app/persistence/migrations.py:1097-1188 | a second run accepts the result and runs no upgrade |
| Migrations.Database.DetectLegacyVersion | app/persistence/migrations.py:995-1009 | the detection loop returns the longest prefix of satisfied versions |
| Migrations.Database.CumulativeInvariantsSatisfied | app/persistence/migrations.py:1012-1018 | true exactly when every invariant of versions 1 to the given one holds |
| Migrations.Database.HistoryIsCredible | app/persistence/migrations.py:1021-1077 | accepts a recorded history exactly when it is known, contiguous and satisfied |
| Migrations.Database.Upgrade | app/persistence/migrations.py:1138-1165 | runs exactly the missing versions in order, each checked against all invariants so far |
| Migrations.Database.RunMigrations | app/persistence/migrations.py:1097-1188 | commits the whole result or leaves the database unchanged, and reports what it ran |

## Left out

- HTTP routes, dashboard JSON, DOM and chart-library calls, logging and message text: presentation.
- Network clients, asyncio, threads and pybit transport: answers are parameters, and the worker and supervisor appear as atomic steps.
- SQL, ORM sessions and DDL text: tables are fields and sequences, and a transaction or SAVEPOINT is a step that takes effect or leaves the tables as they were.
- `app/strategy`: the aggregator and the strategy engine are not part of this model; candles and signals are inputs.
- The AI shadow provider and guard, configuration parsing, host allowlists, hashes and fingerprints: wrappers or opaque functions.
- Freshness policy, stop and target triggers, coverage bands, timeframe aliases: each is settled by reading one branch.
- Floating-point rounding, infinities in position figures and NaN in chart data: quantities are reals.
- Rows written before fill ids existed: the ledger models rows that carry an id.
- PaperRun.EveryPaperRun: lockstep is stated for full fills; with a partial ratio the two closing tolerances differ, and the exact condition for one fill is `PaperRun.LockstepIsKeptExactlyWhen`.
- Bybit position reconciliation: its side is reported in the exchange's spelling, so position reconciliation is proved for the paper engine.
- The price-relative mismatch and the report texts of reconciliation are reported by kind, not by wording.
- Shadow experiment rows carry a model, a configuration and whether they are active; uids, fingerprints and dates are not modelled.
- The shadow engine's health counters of failures and successes: observation only.
- Shadow opportunity columns that only observe (coverage ratio, freshness, operational gate): not modelled.
- Period performance, execution-cost quality, payoff, profit factor and return ratios: single quotients.
- The chart's saved viewport around a redraw: calls into the chart library.
- The final reconciliation at shutdown and the wait for a running tick: only the tick that outlives its worker is modelled.
- PaperEngine.PaperExchange.Submit: the local order id keeps 16 characters of the idempotency key, and the model does not claim that those differ between orders.
- MarketProvider.Provider.Bootstrap: nothing is promised about candles before the single lookback window, as the source documents.
- FundingRun.Collector.Collect: an exception other than a timeout or rate limit loses what its own window had gathered, as in the source; it is collected again from the same checkpoint.
- Scheduler.MultiSymbol.Tick: the result of a symbol's own tick is an input.
