# Verified model of the paper-trading core

A Dafny model of the parts of this repository that decide what a paper trade does to stored state, and
of the engines that read that state back: order submission and its ledger, position episodes and
regime attribution, drawdown, snapshots and daily results, regime classification, performance statistics, the OHLCV date
rules, lazy actor creation, and alert deduplication. `dafny verify dfyconfig.toml` checks everything.

## How it is organised

| module | what it holds |
|---|---|
| `Ledger`, `Gates` | rows, cash and position arithmetic; the pre-trade gates, first failing gate wins |
| `Submission` | the specification of one `submit_order` call, write by write, and of runs of calls |
| `Engine` | the class with mutable tables whose methods are proved to do exactly what `Submission` says |
| `GateMeaning` | the gates against an independent reading of each refusal reason |
| `Books`, `Invariants`, `LedgerTheorems`, `RunSafety`, `RowAccounting` | what every write of every call keeps, the results over whole runs, and what a row's money fields mean |
| `LevelSafety` | which calls keep every row's stop and take-profit around its average price |
| `Allocation` | sizing an order from a cash fraction, and lots over a run |
| `Episodes`, `EpisodeDurations`, `EpisodeBooks` | holding periods, prefix replay, and the episodes of a book's own trades |
| `Pairing`, `Attribution` | episodes of what was recorded against rows of what was booked, and the report per regime |
| `OutcomeMeaning` | what a made report files, outcome by outcome, and the statistics of each regime over the tables |
| `Reconciliation`, `CutOffs` | the consistency check of an account with its exact condition in every reachable state, and which cut-off calls it finds |
| `FindingMeaning` | the condition on the tables that each finding of that check stands for, for any store |
| `Performance` | profit and loss statistics, ungrouped and per regime |
| `Drawdown`, `EquityHistory` | one-pass drawdown, persisted snapshots, daily windows |
| `EquityLedger` | the equity and the daily net result of those services against the ledger |
| `Witnesses`, `FigureWitnesses` | concrete runs and inputs that reach the failures listed below |
| `Regime` | classification of a window of closes and the trailing window of a history |
| `CalendarGaps` | duplicate dates and missing trading days |
| `ActorGenesis` | any interleaving of tool calls and resets around the actor lock |
| `AlertDedup` | the dedup decision and the scheduler's bookkeeping of it |

There is no transaction around a submission: every write commits on its own. A call is therefore modelled with the
number of writes the database still accepts, and `Submission.Partial(s, p, c, k)` is the store after exactly
the first `k` of them. A run is any sequence of calls, each with any such number, and of edits of a position's two levels;
`Submission.Reachable` is the set of stores such runs produce from any accounts. `Order.history`,
`Store.opening`, `Store.cashLog` and `Store.positionLog` are history variables: they record what was written and are never read by an operation.

## What the code does that its comments do not say

Each of these is a lemma below, with the exact condition where there is one.

- `submit_order` sets the stop-loss level for every account that passes one, while its comments call that step a strict no-op
  outside Forex. A spot BUY with a stop at its own price is filled, paid for and held, and then fails without
  recording its key (`StopAtPriceStrandsFilledOrder`, `StopAtPriceStrands`). Completion therefore also needs the levels to fit the
  row's new average price (`LevelsFitExactly`, `SpotCompletion`).
- Averaging into a row moves its average price and leaves its old levels, so a call can carry the average past a level
  (`AveragedPastStop`). `CallKeepsLevelsExactly` says exactly which calls do.
- A call that stopped after its trade row, by a failed write or a refused update, and was then retried makes a second trade for one
  request (`RetryAfterStop`, `RetriedBuyPaysTwice`, `CorrectedStopBuysTwice`).
- Forex gates leave five ways to strand a filled order (`ForexCompletion`), each reached in `Witnesses`. One comes from the composition
  root, which builds the position manager without the account table (`Core/composition_root.py:2503-2527`), so that
  a short can never be opened although the gates admit it. `Policy.managerSeesAccounts` covers both wirings.
- The equal-count guard of the regime attribution does fire, and a silent guard does not mean that the pairs are right. For any
  reachable state `ReportExactly` says when the guard fires and when each row meets the episode of its own trades. Where every trade of
  the symbol was booked, both fail exactly when a short of it has been bought back (`GuardExactly`, `AccountGuardExactly`,
  `ShortRoundTripStopsReport`).
- After a call that was cut off between trade and position, a sale of the whole holding is one closed episode too many. It trips
  the guard unless exactly one short was bought back, which then hides it (`CutOffGuardExactly`, `AbortedSaleTripsGuardExactly`,
  `LostSaleStopsReport`, `ShortHidesLostSale`).
- Retrying that sale to completion silences the guard, and the report then pairs the row the retry closed with the
  episode the unbooked sale ended (`RetriedSaleMispairs`, `RetriedSaleIsReported`). Retrying a sale of half the holding trips it
  (`RetriedHalfStopsReport`). For an account without shorts no
  other retried call does either (`RetriedSpotCallExactly`; `RetriedCallExactly` for every account).
- The ledger of the first of these is oversold, and trading on from there makes the holding-period pass parse a missing opening time; the failure is
  modelled as `None`. `PassFailsExactly` says which ledgers fail, `PassFailsForGood` that no later trade repairs one, and
  `TradingOnStopsReport` gives a spot account that gets there. `WellFormedIffNeverOversold` says which ledgers give well-formed
  episodes.
- The valuation engine multiplies by quantity without its direction (`Business/unrealized_pnl_engine.py:322`), so an open short is
  valued as if it were held. Snapshot equity is too high by twice what open shorts owe (`SnapshotEquityExactly`, `ShortValuedAsHeld`).
- The daily net result subtracts fees and taxes of sales that the realized profit is already net of, so for an account without shorts
  it is too low by exactly those (`LongNetResultExactly`, `SaleFeeChargedTwice`); `NetResultExactly` has the whole difference for any account and period.
- The reconciliation does not find every set of cut-off calls: two that cancel out leave its checks passing (`CutOffsCancel`). In every
  reachable state the order, cash and position checks pass exactly when every traded order is filled, the unpaid trades add up to
  nothing and what was recorded of each symbol fits what was booked (`ReconcilesExactly`). Cut-off calls that do not net out in some
  symbol are found whatever came after them (`CutOffsAreFound`), and so is a single one anywhere in a run (`OneCutOffIsFound`).
- With profit and no loss the profit factor is reported as zero, so it stops agreeing in sign with expectancy
  exactly there (`ProfitFactorAgreesExactly`, `WinnerWithoutFactor`).
- In the gap check the branch for timestamps is unreachable, because a Python `datetime` is also a `date`. A timestamp is
  never equal to a holiday date and keeps its time of day while the loop walks, so the count is too high by the unlisted
  weekday holidays and by the listed days stepped onto, and by nothing else (`StampedGapsOvercount`,
  `NeighboursReportedAsGap`).
- An alert that was delivered but whose row could not be written is sent again by the next identical tick
  (`UnrecordedSendRepeats`, `AlertDeliveredTwice`).

## Model

| member | source | states |
|---|---|---|
| Engine.PaperTradingEngine.SubmitOrder | Business/paper_trading_engine.py:809-978 | whichever write fails, the tables are exactly the store after that many writes, and the outcome is the refusal, the failure or the trade that store calls for |
| Engine.PaperTradingEngine.CreateOrder | Business/order_lifecycle_service.py:143-205 | inserts NEW, then REJECTED, or VALIDATED and PENDING; cut off after any write it leaves exactly the statuses reached |
| Engine.PaperTradingEngine.TransitionStatus | Business/order_lifecycle_service.py:207-250 | moves a status only along a legal transition, and then changes that one row only |
| Engine.PaperTradingEngine.ExecuteOrder | Business/execution_service.py:151-252 | only a PENDING order is executed; its trade is the order's own quantity at the requested price, and the fill is copied only after the trade exists |
| Engine.PaperTradingEngine.ApplyCash | Business/account_balance_service.py:147-231 | one account's cash moves by exactly the trade, or nothing is written when it would go negative |
| Engine.PaperTradingEngine.ApplyPosition | Business/position_manager.py:349-421 | opens, merges, reduces or closes the one open row; oversell, reversal and selling from flat write nothing |
| Engine.PaperTradingEngine.SetLevels | Business/position_manager.py:567-668 | both levels of an existing row are written together, exactly when a stop, if given, is below and a take-profit, if given, above a long average, or the other way round for a short; otherwise nothing is written |
| Engine.PaperTradingEngine.Settle | Business/paper_trading_engine.py:929-978 | cash, then position, then levels, then key: the store after each cut-off |
| Submission.PassedGates | Business/paper_trading_engine.py:1073-1229 | gates 4, 5 and 7 subsume the structural rules of order creation, so only an unknown action can still be rejected there |
| GateMeaning.RefusedForFirstPresent | Business/paper_trading_engine.py:1054-1883 | a call is refused for a reason exactly when that reason's own condition is present and no earlier one in the documented order is |
| GateMeaning.AcceptedIffNonePresent | Business/paper_trading_engine.py:1054-1883 | a call is accepted exactly when no condition is present, with holdings read from the book and not from the row |
| GateMeaning.LotsExactly | Business/paper_trading_engine.py:1135-1227 | the quantity rule in terms of whole lots and whole units, with the zero lot size as an error of its own |
| GateMeaning.SaleStrandedExactly | Business/account_balance_service.py:172-231 | a gated SELL is refused its cash update exactly when its market's costs exceed cash and proceeds; its order then stays filled and its trade recorded, with cash, positions and keys untouched |
| Invariants.SubmissionKeepsInv | Business/paper_trading_engine.py:913-978 | every prefix of a call's writes keeps the whole invariant: order paths, trades, logs, keys, cash, books, long rows, account values |
| Invariants.EditKeepsInv | Business/position_manager.py:567-668 | so does an edit of a position's levels |
| Invariants.ReachableInv | Business/paper_trading_engine.py:913-978 | the invariant holds in every state of every run, including those an aborted call leaves behind |
| Invariants.RowStep | Business/position_manager.py:439-565 | a trade moves a row's realized profit less signed cost basis by exactly the trade's net flow, long or short |
| LedgerTheorems.RecordedKeyIsComplete | Business/paper_trading_engine.py:961-978 | a recorded key has one filled order with one trade, whose cash and position effects were each applied exactly once |
| LedgerTheorems.KeyRecordedIffDone | Business/paper_trading_engine.py:1577-1597 | a call records its key exactly when it completes; a call cut short leaves it free |
| LedgerTheorems.CompletedCallsHaveDistinctKeys | Business/paper_trading_engine.py:1577-1597 | no two completed calls of a run share a key |
| LedgerTheorems.RetryAfterStop | Business/paper_trading_engine.py:913-978 | for a call that stopped at any point, by a failed write or a refused update, and any later call that completes: exactly when the two make two trades, pay twice or hold twice |
| LedgerTheorems.CashIsConserved | Business/account_balance_service.py:172-231 | cash is opening cash plus the flow of every applied trade, and never goes negative |
| LedgerTheorems.QuantityIsConserved | Business/position_manager.py:349-565 | each open quantity is applied BUYs less applied SELLs, signed by direction; without shorts never below zero |
| LedgerTheorems.AccountEquation | Business/account_balance_service.py:172-231 | in every reachable state and for every account, shorting or not, cash is opening cash plus realized profit, less holdings at cost (a short counting as what its sale brought in), less the fees and taxes of trades that opened or added to a row, plus the flow of trades that moved cash and not yet the position |
| LedgerTheorems.LevelsFitExactly | Business/position_manager.py:567-668 | once cash and position are applied, the call completes exactly when its stop and the row's take-profit suit the new average price |
| LevelSafety.CallKeepsLevelsExactly | Business/position_manager.py:273-311 | from a table whose rows all have their levels on the right sides, a call cut off anywhere keeps that of every row exactly when it does not average a row past a level it then leaves in place |
| LevelSafety.CallSetsLevels | Business/paper_trading_engine.py:949-959 | a given stop is set on the row the call traded, by the write after the position update; every other level and every other row stays as it was, wherever the call is cut off |
| LevelSafety.LevelsHoldOverRuns | Business/position_manager.py:567-668 | so over every run in which no event averages past a level, edits included, every long row has stop < average < take and every short row take < average < stop |
| LevelSafety.ValidLevelsGuard | Business/position_manager.py:273-311 | the two side rules together accept a pair of levels exactly when a row carrying them has its average between them, on the sides its direction asks for |
| LedgerTheorems.PositionAcceptedExactly | Business/position_manager.py:349-421 | exactly when the position manager accepts a gated trade, so gate 9 agrees with it |
| LedgerTheorems.SpotCompletion | Business/paper_trading_engine.py:1518-1575 | past the gates a spot BUY always gets its cash and position effects and a SELL does exactly when its costs are covered; it completes exactly when its levels fit |
| LedgerTheorems.ForexCompletion | Business/paper_trading_engine.py:1418-1437 | the exact conditions under which a gated Forex call completes, and so the five ways it can be stranded |
| LedgerTheorems.StopAtPriceStrandsFilledOrder | Business/paper_trading_engine.py:949-959 | a gated spot BUY with a stop at its own price ends filled, paid and held, with its key unrecorded |
| LedgerTheorems.OrderStory | Business/order_lifecycle_service.py:117-120 | every order's history is a prefix of one of two paths, REJECTED only for an invalid action, FILLED with one trade that matches its fill |
| LedgerTheorems.RatesAreComplementary | Business/failure_rate_engine.py:154-161 | execution and failure rate sum to one exactly when every resolved order was filled or rejected |
| LedgerTheorems.RatesAreShares | Business/failure_rate_engine.py:154-161 | each rate times the number of resolved orders is the number of FILLED, and of REJECTED ones; both are zero with none resolved |
| LedgerTheorems.ReachableRatesSumToOne | Business/execution_rate_engine.py:143-159 | so they do in every reachable state with a resolved order |
| LedgerTheorems.MarginIsExposureGrowth | Business/paper_trading_engine.py:1418-1437 | margin is asked for exactly the growth of exposure on the trade's own side, so none for a pure reduction |
| RunSafety.RepeatChangesNothing | Business/paper_trading_engine.py:1577-1597 | once a call has completed, any later call with its key is refused and changes nothing |
| RunSafety.WritesOnlyWhenCleared | Business/paper_trading_engine.py:1081-1093 | a call that writes at all had evidence, approval, an allowed quantity, an open session and no halt |
| RunSafety.EveryOrderWithinLimits | Business/paper_trading_engine.py:1599-1657 | in every reachable state every order is within the order limit and for no halted symbol; with the kill switch on there is none |
| RunSafety.BuyKeepsPositionCap | Business/paper_trading_engine.py:1719-1737 | the position a BUY really leaves, at the order's price, is within the cap the gate checked |
| RunSafety.CompletedCallRecords | Business/paper_trading_engine.py:913-978 | a completed call leaves one filled order and one trade as requested, with the fee and the tax of its market, the cash moved by gross and costs, and the key pointing at both |
| RunSafety.IdxRunCash | Business/account_balance_service.py:172-231 | after a run on the home market, cash is opening cash plus gross flows, less one buy fee per BUY and one sell fee and tax per SELL applied |
| RowAccounting.FeesOfEntries | Business/position_manager.py:439-473 | until its first exit a row carries the fees of all its entries |
| RowAccounting.FeesCarriedAreBounded | Business/position_manager.py:544-553 | it never carries more than that, and nothing once closed |
| Books.BookConservesQuantity | Business/position_manager.py:349-565 | a book of rows holds exactly what its trades net to, with only its last row open |
| Books.TableStepIsBookStep | Business/position_manager.py:349-421 | a trade on the positions table is one step of its own account and symbol and no step of any other |
| Allocation.AllocationIsOptimal | main.py:2327-2332 | the quantity is affordable and no larger multiple of the lot is |
| Allocation.AllocationPassesGates | main.py:2303-2332 | with no fees and at most all cash allocated it passes the lot gate and the cash gate |
| Allocation.PositionsStayInLots | Business/paper_trading_engine.py:1219-1227 | along any run with one lot size every open quantity stays a multiple of it |
| Episodes.HoldingPeriods | Business/trade_holding_period_engine.py:95-159 | the loop computes the fold over running quantity and opening time, failure included |
| Episodes.ReplayEpisodes | Business/position_episode_replay_engine.py:95-173 | replaying ever longer prefixes equals one pass over the running quantity, on every list of trades |
| Episodes.WellFormedIffNeverOversold | Business/position_episode_replay_engine.py:122-173 | episodes concatenate to the BUYs and SELLs; each opens with a BUY, holds a positive quantity inside and ends at zero when closed, and only the last may be open, exactly when the ledger never oversells |
| Episodes.PassFailsExactly | Business/trade_holding_period_engine.py:118-152 | the pass fails exactly when some SELL returns the running quantity to zero with no BUY from zero since the last SELL that did |
| Episodes.PassFailsForGood | Business/position_episode_replay_engine.py:122-173 | a ledger on which it fails fails however it is continued |
| EpisodeDurations.PeriodsAreEpisodeLengths | Business/trade_holding_period_engine.py:95-159 | every trade of a closed episode carries the episode's length from opening to last trade, and every trade of the open one carries none |
| EpisodeDurations.PeriodsExactly | Business/trade_holding_period_engine.py:95-159 | on every ledger the pass accepts, oversold or not, a trade has a holding period exactly when it lies between a BUY from zero and the next SELL down to zero with no other BUY from zero between, and the period is the time from the one to the other |
| EpisodeBooks.MakersMakeRows | Business/position_manager.py:349-565 | each row of a book is the replay of the trades that made it |
| EpisodeBooks.EpisodesAreRows | Business/position_episode_replay_engine.py:3-22 | over trades whose book never bought back a short, episodes and rows correspond one to one, each episode holding exactly the trades that made its row |
| EpisodeBooks.RowValueIsFlow | Business/position_manager.py:439-565 | a row, long or short, is worth the net flow of the trades that made it |
| EpisodeBooks.ClosedRowProfit | Business/position_manager.py:475-565 | once closed, that flow is its realized profit |
| EpisodeBooks.PassCountsLongs | Business/position_episode_replay_engine.py:122-173 | over the trades of any book the pass succeeds and closes exactly one episode for each long row that closed, none for a short |
| Pairing.PairedExactly | Business/market_regime_attribution_service.py:182-205 | whatever was recorded and whatever booked, each closed row meets the closed episode of its own trades exactly when no short was bought back and the same trades were recorded and booked up to the last SELL of each that returns its running quantity to zero |
| Pairing.CountsAgreeExactly | Business/market_regime_attribution_service.py:182-198 | closed episodes and closed rows agree in number exactly when the recorded SELLs down to zero are as many as those booked and the shorts bought back together |
| Pairing.RowsAreMade | Business/position_manager.py:475-565 | each closed row is the replay of its own trades and its profit is their net flow |
| Pairing.RepeatedExactly | Business/market_regime_attribution_service.py:182-205 | a trade recorded and not booked, then repeated and booked: it mispairs exactly when it sold the whole holding and miscounts exactly when it sold half |
| Attribution.GroupTrades | Business/market_regime_attribution_service.py:165-169 | the dictionary and its insertion order |
| Attribution.SymbolsInOrder | Business/market_regime_attribution_service.py:165-169 | the symbols are listed once each, in the order of their first trades |
| Attribution.GroupIsBookTrades | Business/market_regime_attribution_service.py:165-169 | the trades filed under a symbol are that symbol's trades, in ledger order |
| Attribution.GroupIsClosedBook | Business/market_regime_attribution_service.py:171-174 | the rows filed under a symbol are that symbol's closed rows, in table order |
| Attribution.SymbolOutcomes | Business/market_regime_attribution_service.py:178-205 | one symbol's zip, or the guard's error |
| Attribution.PerformanceByRegime | Business/market_regime_attribution_service.py:128-206 | an error exactly when the account is missing, a pass fails or counts differ; else statistics of each regime's results |
| Attribution.ReportExactly | Business/market_regime_attribution_service.py:176-206 | in every reachable state, for every account and symbol, whatever calls were cut off: exactly when the pass fails, when the guard fires, and when each filed row meets the episode of its own trades |
| Attribution.PairsAreMade | Business/market_regime_attribution_service.py:200-206 | then the row is what its episode's trades make, and the profit reported for that episode is their net flow |
| Attribution.GuardExactly | Business/market_regime_attribution_service.py:183-198 | where the symbol's recorded trades were all booked: the guard stops it exactly when one of its rows is a closed short, and otherwise each filed row meets its own episode |
| Attribution.AccountReportExactly | Business/market_regime_attribution_service.py:176-206 | the account's report is made exactly when that of every symbol it has traded is, and is otherwise the error of the first, in order of first trade, that is not |
| Attribution.AccountGuardExactly | Business/market_regime_attribution_service.py:176-206 | for an account whose own trades were all booked the report is made exactly when no row of it is a closed short, and nothing but the guard ever stops it |
| Attribution.GuardNeverFires | Business/market_regime_attribution_service.py:183-198 | so it is always made for an account that cannot short |
| Attribution.CutOffGuardExactly | Business/market_regime_attribution_service.py:183-206 | after a call cut off anywhere, for every account: the guard fires for its symbol exactly when the shorts bought back differ in number from the unbooked sale of the whole holding, and every row meets its own episode exactly when there is neither |
| Attribution.AbortedSaleTripsGuardExactly | Business/market_regime_attribution_service.py:183-198 | for an account that cannot short: exactly when the call sells the whole position and was cut off between its trade and its position update |
| Attribution.RetriedCallExactly | Business/market_regime_attribution_service.py:183-206 | after any call cut off anywhere and repeated to completion, for every account: the guard fires exactly when the shorts bought back differ in number from the unbooked sale of half the holding, and every row meets its own episode exactly when there is none of these and no unbooked sale of the whole holding |
| Attribution.RetriedSpotCallExactly | Business/market_regime_attribution_service.py:183-206 | for an account that cannot short: half the holding stops the report, the whole mispairs it, and nothing else does either |
| Attribution.RetriedSaleMispairs | Business/market_regime_attribution_service.py:200-206 | in the second case the last row was made by the retry and meets the episode that ends in the unbooked sale, its profit off by the difference of the two sales |
| Attribution.ReportedProfitIsRealized | Business/market_regime_attribution_service.py:200-206 | in every reachable state, when the report is made, its net profit is the realized profit of the account's closed positions |
| OutcomeMeaning.EpisodesOpenBehindCloses | Business/position_episode_replay_engine.py:122-173 | the i-th closed episode opens with the trade right behind the i-th SELL that returned the running quantity to zero, the first with the first trade |
| OutcomeMeaning.OpeningBuys | Business/market_regime_attribution_service.py:270-288 | that trade is a BUY from a flat quantity unless the ledger sold from flat there |
| OutcomeMeaning.OutcomesAreRows | Business/market_regime_attribution_service.py:200-206 | a made report files exactly the symbol's closed rows in table order: the i-th outcome has the i-th closed row's profit and the regime at the symbol and moment of the trade that opened the i-th closed episode, found over the recorded trades |
| OutcomeMeaning.StatisticsTallyRows | Business/market_regime_attribution_service.py:128-206 | in every reachable state the statistics of each regime are those of exactly the account's closed rows opened under it, and a regime is reported exactly when there is one |
| Performance.PositionPerformance | Business/position_performance_engine.py:76-105 | the five accumulators are the tally of the results |
| Performance.TallyTotals | Business/position_performance_engine.py:76-105 | winners, losers and break-evens are counted by the sign of their result, gross profit is the sum of the gains and gross loss that of the losses' sizes |
| Performance.RatiosExactly | Business/profit_factor_engine.py:97-101 | each average times its count is its total and the profit factor times the gross loss is the gross profit; each is zero with nothing to divide by |
| Performance.ExpectancyIsMeanResult | Business/expectancy_engine.py:115-130 | expectancy times the count is net profit, which is the sum of the results |
| Performance.ProfitFactorAgreesExactly | Business/profit_factor_engine.py:97-101 | a factor above one means positive expectancy and back, exactly when there was a loss or no profit |
| Performance.RegimePerformance | Business/market_regime_performance_engine.py:107-145 | one entry per label, holding the tally of that label's results |
| Performance.GroupsAddUp | Business/market_regime_performance_engine.py:107-145 | adding up the groups of any covering list of distinct labels gives the ungrouped tally |
| Performance.ReportedGroupsAddUp | Business/market_regime_performance_engine.py:107-145 | so counts and net over the reported groups equal those of all results |
| Drawdown.Calculate | Business/maximum_drawdown_engine.py:96-106 | the loop computes the fold over peak and worst drop; a zero peak is a division error |
| Drawdown.WorstIsWorstPair | Business/maximum_drawdown_engine.py:96-106 | the one pass finds the largest loss over all pairs of a point and a later one |
| Drawdown.DrawdownExactly | Business/maximum_drawdown_engine.py:96-106 | on any curve, whatever its signs: a division error exactly when the highest point so far is somewhere zero, otherwise the largest relative fall from it, or zero |
| Drawdown.DrawdownMeaning | Business/maximum_drawdown_engine.py:74-106 | on positive curves the result is that worst pair, lies in [0, 1), and is zero exactly when the curve never falls |
| Drawdown.DrawdownScales | Business/maximum_drawdown_engine.py:96-106 | and it does not depend on the currency unit |
| EquityHistory.SnapshotService.TakeSnapshot | Business/portfolio_snapshot_service.py:187-246 | one row is appended with the cash, market value, realized and unrealized totals and the drawdown of the whole history with it; a missing account, a missing price or a zero peak writes nothing |
| EquityHistory.PersistedDrawdowns | Business/portfolio_snapshot_service.py:229-231 | persisted drawdowns never decrease, whatever the signs of the equities, and over positive ones each is the worst pair of the history so far |
| EquityHistory.LastEquity | Business/daily_performance_service.py:229-234 | the loop with its early break returns the equity before the first later row |
| EquityHistory.EquityAtIsLast | Business/daily_performance_service.py:229-241 | on chronological rows that is the last row at or before the bound, and none exactly when all are later |
| EquityHistory.DailyPerformance | Business/daily_performance_service.py:200-267 | the period's results, net result, both equities and the error case; fees, tax and executions are those of the trades executed in the closed period; over positive equities the drawdown is the largest fall between two snapshots inside it, attained, both ends included |
| EquityHistory.PeriodFigures | Business/daily_performance_service.py:213-223 | the fees, the tax and the number of executions are sums over exactly the trades whose moment lies in the closed period |
| EquityHistory.WindowedWorstFall | Business/daily_performance_service.py:243-248 | over snapshot positions and their moments only: no fall between two snapshots of the period exceeds the drawdown, some pair attains it, and it is zero when none lies inside |
| EquityHistory.WindowedDrawdownBounded | Business/daily_performance_service.py:243-248 | a window never shows more drawdown than the history persisted with its last snapshot |
| Reconciliation.CheckOrders | Business/reconciliation_engine.py:285-321 | the order check over the account's orders and their trades |
| Reconciliation.CheckCash | Business/reconciliation_engine.py:325-354 | cash replayed from a starting value within the tolerance; nothing is checked without one |
| Reconciliation.ReplayPosition | Business/reconciliation_engine.py:570-683 | one symbol's row rebuilt from its trades, with the trades that do not fit |
| Reconciliation.CheckPositions | Business/reconciliation_engine.py:358-421 | the findings of every symbol traded or held, by replay against the latest row |
| Reconciliation.CheckState | Business/reconciliation_engine.py:426-453 | negative cash, and rows whose status does not go with their quantity |
| Reconciliation.CheckForex | Business/reconciliation_engine.py:501-563 | the stops of held Forex rows, and whether pip value, margin and maximum loss can be computed from them |
| FindingMeaning.ReconcileAccount | Business/reconciliation_engine.py:235-281 | all checks together, the Forex one for Forex accounts only, or the unknown account: whatever the tables contain, a finding is reported exactly when its own condition on them holds, and it raises exactly when the replay of some symbol divides by zero |
| FindingMeaning.OrderFindingsExactly | Business/reconciliation_engine.py:285-321 | a FILLED order of the account is reported exactly when its trades are not one, or when its one trade has another price, quantity or time; any other exactly when it has a trade |
| FindingMeaning.CashFindingExactly | Business/reconciliation_engine.py:325-354 | cash is reported exactly when the starting value and the flows of all trades add up to something further from it than the tolerance, and never without a starting value |
| FindingMeaning.ReplayIsKept | Business/reconciliation_engine.py:570-683 | the replay ends in the last row of the book of the trades it kept, and reports each trade it left out for the reason it could not be applied: unknown action, sold from flat, or more than held |
| FindingMeaning.ReachesRow | Business/reconciliation_engine.py:570-683 | it ends with a row at all exactly when some trade is a BUY, or a SELL of a Forex account |
| FindingMeaning.RaisesExactly | Business/reconciliation_engine.py:634-683 | it divides by zero exactly at a trade that averages over no quantity or reduces an open row of none |
| FindingMeaning.SymbolFindingsExactly | Business/reconciliation_engine.py:358-421 | a symbol's missing row, missing trades and each differing field are reported exactly when trades imply a row and the table has none, when it has one and no trade implies it, and when its latest row differs from the replayed one there |
| FindingMeaning.RowFindingsExactly | Business/reconciliation_engine.py:426-563 | each finding about a row's status, stop, pip value, margin or maximum loss by its own condition on that row |
| Reconciliation.OrdersPassExactly | Business/reconciliation_engine.py:285-321 | in every reachable state the order check finds exactly the orders that were traded and not marked filled |
| Reconciliation.CashPassesExactly | Business/reconciliation_engine.py:325-354 | with the opening cash supplied the cash check passes exactly when the recorded trades that have not moved cash add up to nothing, within the tolerance |
| Reconciliation.ReplayIsBookExactly | Business/reconciliation_engine.py:570-683 | the replay of executed trades finds nothing exactly when they form a book of rows the account may open, and then ends in its last row |
| Reconciliation.SymbolPassesExactly | Business/reconciliation_engine.py:358-421 | in every reachable state, whatever calls were cut off, a symbol passes exactly when what was recorded for it forms such a book whose last row is alike to the last row booked |
| Reconciliation.ReconcilesExactly | Business/reconciliation_engine.py:34-72 | in every reachable state the order, cash and position checks all pass exactly when every traded order is filled, the unpaid trades add up to nothing, and what was recorded of every symbol fits what was booked |
| Reconciliation.PassingNetsOut | Business/reconciliation_engine.py:61-72 | so a passing account has nothing recorded and not booked of any symbol, net and within the tolerance |
| CutOffs.CutOffFoundExactly | Business/reconciliation_engine.py:34-72 | for the first call of an account that is cut off, at any write, exactly which of the order, cash and position checks fail |
| CutOffs.UncutRunReconciles | Business/reconciliation_engine.py:34-72 | after any run in which no call of the account was cut off between trade and position all three pass |
| CutOffs.UnmatchedIsCutOff | Business/reconciliation_engine.py:61-72 | over every run what is recorded and not booked of a symbol nets to exactly the signed quantities of its cut-off calls |
| CutOffs.CutOffsAreFound | Business/reconciliation_engine.py:61-72 | so any number of cut-off calls that do not net out in some symbol fail the position check, whatever came between and after them |
| CutOffs.OneCutOffIsFound | Business/reconciliation_engine.py:34-72 | over every run with at most one cut-off call of the account, anywhere in it, the three checks pass at the end exactly when there was none, its quantity being above the tolerance |
| Reconciliation.StatePassesExactly | Business/reconciliation_engine.py:426-453 | in every reachable state the rows pass their own check exactly when no open one holds as little as the tolerance |
| Reconciliation.ForexPassesExactly | Business/reconciliation_engine.py:501-563 | in every reachable state the Forex check passes exactly when every open row has a known pair and a positive stop on the protective side of its average price |
| EquityLedger.SnapshotEquityExactly | Business/portfolio_snapshot_service.py:196-224 | in every reachable state the stored equity is cash and signed holdings at market plus twice what buying back the open shorts would cost, and right exactly when they would cost nothing |
| EquityLedger.NetResultExactly | Business/daily_performance_service.py:208-225 | in every reachable state the net result is the account's gain since opening, plus the entry costs of other periods, less the exit costs of this one, plus twice the loss on open shorts, less what is not yet booked |
| EquityLedger.LongNetResultExactly | Business/daily_performance_service.py:225 | without shorts and over all its trades it is too low by exactly the fees and taxes of the sales and what is not yet booked; with everything booked it is right exactly when the sales cost nothing |
| Regime.EfficiencyMeaning | Business/market_regime_engine.py:190-196 | the efficiency ratio lies in [0, 1] and is one exactly on monotone closes with different ends |
| Regime.ReturnsCompound | Business/market_regime_engine.py:182-184 | compounding the returns from the first close gives the last one |
| Regime.LabelExactly | Business/market_regime_engine.py:182-203 | the label in terms of sums of returns and moves, with no mean, root or division |
| Regime.ClassificationScales | Business/market_regime_engine.py:148-210 | quoting all closes in another unit gives the same classification |
| Regime.ExtractCloses | Business/market_regime_service.py:183-203 | the closes kept are exactly those of the bars up to the bound with a usable close, in order |
| Regime.ClassifySymbol | Business/market_regime_service.py:139-146 | uses at most twenty usable closes and classifies exactly when there are at least fifteen and the last twenty are all positive; no history is insufficient data |
| Regime.WindowForgetsExactly | Business/market_regime_service.py:139-146 | later bars never matter, and older ones exactly when the recent ones do not fill the window |
| Regime.RestartSafe | Business/market_regime_service.py:139-146 | histories sharing a full window up to the bound classify alike |
| CalendarGaps.CheckCalendarGaps | Business/idx_data_validator.py:290-353 | no calendar or fewer than two dates give no report; it cannot be sorted exactly when one record reads as a date and one as a timestamp; else the report of the consecutive gaps |
| CalendarGaps.CountBetween | Business/idx_data_validator.py:330-336 | the inner loop counts the trading days it steps onto |
| CalendarGaps.TradingDayExactly | Business/idx_market_calendar.py:176-197 | a date trades exactly when it is at most four days after its week's Monday, in a covered year and no holiday; a timestamp whatever the holidays |
| CalendarGaps.WeekendInEveryWeek | Business/idx_market_calendar.py:177 | of any seven days in a row at least two never count |
| CalendarGaps.ListedGapsExactly | Business/idx_data_validator.py:319-351 | the report counts every neighbouring pair of the sorted dates, or timestamps, with a counted day between and lists the first five with the number of their days |
| CalendarGaps.TotalIsMissingDays | Business/idx_data_validator.py:324-347 | the sum over sorted consecutive pairs is the number of absent trading days plus the listed days stepped onto |
| CalendarGaps.PlainGapsAreExact | Business/idx_data_validator.py:319-351 | for dates in any order and with repeats, V005 counts exactly the days between the first and last that are Monday to Friday, in a covered year, no holiday and not listed, and is raised exactly when there is one |
| CalendarGaps.StampedGapsOvercount | Business/idx_data_validator.py:306-313 | for timestamps it is too high by the unlisted weekday holidays and the listed working days that follow an earlier day at an earlier time of day, and right exactly when there are none |
| CalendarGaps.HolidayReportedForTimestamps | Business/idx_market_calendar.py:176-181 | one weekday holiday is reported between two timestamps and not between two dates |
| CalendarGaps.CoverageDecides | Business/idx_market_calendar.py:183-197 | a year nobody declared holidays for is closed, and declaring one opens its other weekdays |
| CalendarGaps.CheckDuplicates | Business/idx_data_validator.py:261-288 | each dated record whose text occurred before, paired with the first one that had it |
| CalendarGaps.DuplicatesNameRecords | Business/idx_data_validator.py:261-288 | each finding names, counted from one, a record and the first record with the same text, in the order of the repeats |
| CalendarGaps.DuplicatesCountRepeats | Business/idx_data_validator.py:261-288 | V004 is raised once for every dated record beyond the distinct dates |
| ActorGenesis.StepKeepsInv | Agents/base_agent.py:214-232 | every atomic step of any thread keeps the lock discipline and the actor history |
| ActorGenesis.MutualExclusion | Agents/base_agent.py:214-226 | at most one thread is inside either locked section |
| ActorGenesis.CreatesAreBounded | Agents/base_agent.py:316-319 | actors created are at most one more than completed resets, in every interleaving |
| ActorGenesis.SnapshotsAgreeExactly | Agents/base_agent.py:222-226 | two snapshots return the same actor exactly when no reset severed it between them |
| ActorGenesis.ExecutionsUseOwnActor | Agents/base_agent.py:227-234 | every execution uses the actor its own thread snapshotted, which this agent created |
| ActorGenesis.SnapshotNeverNull | Agents/base_agent.py:214-226 | a thread about to snapshot always finds an actor of this agent |
| AlertDedup.Scheduler.RunTick | Orchestration/idx_daily_scheduler.py:500-522 | one tick on the stored state is one step of the run; says exactly when it sent and when it suppressed, and the status and moment of the row it writes |
| AlertDedup.Scheduler.ApplyDecision | Orchestration/idx_daily_scheduler.py:666-730 | a suppression or a failed notification keeps what was last sent; a delivery that is recorded replaces it |
| AlertDedup.DecisionFollowsHistory | Business/notification_dedup_policy.py:125-156 | after any run a tick sends exactly when no recorded delivery of its type exists, or the last one differs and is an interval old; it is suppressed as unchanged exactly when the last one has its signature, and as too soon exactly when that differs and is younger |
| AlertDedup.DeliveriesAreSpaced | Business/notification_dedup_policy.py:132-156 | a delivery whose row was written differs in signature from the next of its type and is an interval away from it, whatever the clock does and whatever became of the others |
| AlertDedup.RateIsBounded | Business/notification_dedup_policy.py:139-156 | in every run any span of length T holds at most 1 + floor(T / interval) recorded deliveries of a type, and of all its deliveries when every one was recorded |
| AlertDedup.UnrecordedSendRepeats | Orchestration/idx_daily_scheduler.py:696-723 | repeating a delivered tick delivers again exactly when its row was not written |
| Witnesses.StopAtPriceStrands | Business/paper_trading_engine.py:949-959 | an account with cash whose BUY with a stop at its price ends in refused levels |
| Witnesses.CorrectedStopBuysTwice | Business/paper_trading_engine.py:913-978 | that call repeated with its key and a lower stop completes: one request has bought and holds twice |
| Witnesses.ForexBuyUncovered | Business/account_balance_service.py:172-231 | a gated Forex BUY refused its cash update |
| Witnesses.ForexSaleUncovered | Business/account_balance_service.py:172-231 | a gated Forex SELL refused its cash update |
| Witnesses.ForexShortUnopened | Core/composition_root.py:2503-2527 | a gated Forex short the position manager refuses for want of the account table |
| Witnesses.ForexBuyOverShort | Business/position_manager.py:349-421 | a run to an open short and then a gated BUY larger than it, refused by the position manager |
| Witnesses.ForexStopBehindAverage | Business/position_manager.py:567-668 | from the same short, a gated SELL whose stop is on the wrong side of the new average |
| Witnesses.AveragedPastStop | Business/position_manager.py:439-473 | the same short averaged past its own stop by a cut-off call |
| Witnesses.ShortRoundTripStopsReport | Business/market_regime_attribution_service.py:183-198 | bought back, that short stops the report |
| Witnesses.LostSaleStopsReport | Business/market_regime_attribution_service.py:183-198 | a spot account buys ten and its sale of ten is cut off after the trade: the guard stops the report |
| Witnesses.ShortHidesLostSale | Business/market_regime_attribution_service.py:183-206 | a Forex account that bought back a short, bought anew and lost a sale of the whole: the report is made and some row does not meet its own episode |
| Witnesses.RetriedSaleIsReported | Business/market_regime_attribution_service.py:200-206 | the lost sale of the spot account is retried and completes: the report is made with the mispaired row |
| Witnesses.RetriedHalfStopsReport | Business/market_regime_attribution_service.py:183-198 | had it held twenty, the retried sale would have stopped the report |
| Witnesses.TradingOnStopsReport | Business/trade_holding_period_engine.py:137-152 | after the retried sale the account buys twenty and sells ten: the pass fails, there and on every continuation of that symbol's ledger |
| Witnesses.RetriedBuyPaysTwice | Business/paper_trading_engine.py:913-978 | a BUY cut off after its cash update and retried with its key completes, having paid twice and holding once |
| FigureWitnesses.ShortValuedAsHeld | Business/unrealized_pnl_engine.py:322 | ten sold short at one: the stored equity is 1020 and the account is worth 1000 |
| FigureWitnesses.SaleFeeChargedTwice | Business/daily_performance_service.py:225 | ten bought and sold at one with a sale fee of one: the account lost one and the net result is minus two |
| FigureWitnesses.CutOffsCancel | Business/reconciliation_engine.py:34-72 | a purchase and a sale of ten both cut off before cash moved: every check passes |
| FigureWitnesses.WinnerWithoutFactor | Business/profit_factor_engine.py:97-101 | one winning result has expectancy one and profit factor zero |
| FigureWitnesses.NeighboursReportedAsGap | Business/idx_data_validator.py:324-347 | two timestamps on neighbouring trading days, the second later in its day, are reported as a gap of one day |
| FigureWitnesses.AlertDeliveredTwice | Orchestration/idx_daily_scheduler.py:696-723 | an alert whose row could not be written is delivered twice |

## Left out

- SQLite, migrations, backups: a table is a map or a sequence in class state, and a row id is its index.
- Notifications and approval-audit rows written after the idempotency key: best effort, with no effect on the ledger.
- Reads that fail: a failing read stops a call between two writes, which is the same stored state as a failing next write.
- Two submissions interleaved in one database: calls run one after another.
- Policies changing between calls: one policy per run; the market's answers are part of each call and may change from call to call.
- US, crypto and forex policy objects, session calendars and symbol parsing: their yes or no answers are parameters of the call. The IDX lot rule and the Forex whole-unit rule are modelled.
- Floats and decimals: exact reals, so no rounding, no NaN and no infinity; a Python number that is a bool never reaches the model.
- Upper-casing of a symbol: ASCII letters only. The white space Python strips is modelled in full.
- Order entry fields with no effect on the ledger: the moment a trade was executed is only stored and read back, and the account's equity and buying power are only carried along.
- Episodes.HoldingPeriods: moments are readable numbers. Only the US and crypto session gates parse `executed_at`, so an IDX or Forex trade may store text on which the holding-period pass raises too; that failure is not part of this model.
- Partial fills, cancellation and expiry of orders: no operation writes those statuses; the rates still count them.
- Reconciliation: which symbols name a pair with a pip value is a parameter; the texts and the order of violations and the notes on what cannot be verified are not part of this model.
- Strategy and position holding statistics that share the replay engine, and regime lookup itself: the label of a symbol at a moment is a parameter.
- The averages of the performance statistics: derived from the totals, so they are functions of the record and not stored.
- Where market prices come from and how fresh they are: a price, or its absence, is an input per row. Rows are read back in insertion order.
- The square root in the volatility: both sides of its only comparison are squared.
- The Gregorian calendar: dates are ordinals and the year of an ordinal is a parameter. Text dates arrive already read as a date or as unreadable; timestamps share one time zone.
- Validator rules V000 to V003 and V006 to V014: settled by reading one branch each.
- `BaseAgent` as a class with a sequential `run`: its fields are the shared state of interleaved atomic steps instead, because one call at a time would show none of the races the lock is for.
- The agent's planner, provider, memory and state flag: any thread may enter a tool call at any time, which covers every run the flag allows. Actor ids come from a shared counter, standing for the runtime's fresh ids.
- The scheduler's jobs around an alert, and its uncovered-year alert, which calls a method the dedup policy does not define.
- Scan failures and the combined failure rate: the order side only.
