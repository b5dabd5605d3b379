/** Concrete inputs on which the reported figures are wrong, so that each exact condition has both sides. */
module FigureWitnesses {
  import opened Options
  import opened Ledger
  import opened Gates
  import opened Submission
  import opened Books
  import opened Invariants
  import opened LedgerTheorems
  import opened EquityLedger
  import opened Attribution
  import opened Reconciliation
  import opened CutOffs
  import opened Witnesses
  import E = EquityHistory
  import P = Performance
  import C = CalendarGaps
  import D = AlertDedup

  /** Ten sold short at one, and still worth one: the snapshot's equity is twenty more than the account
      is worth. */
  lemma ShortValuedAsHeld(prices: Prices)
    requires prices("X") == 1.0
    ensures var s := Shorted();
            && "A" in s.accounts && Worth(s, "A", prices) == 1000.0
            && s.accounts["A"].cash + E.MarketValue(Rows(s.positions, "A", prices)) == 1020.0
  {
    hide Shorted, Inv;
    ShortedHoldsShort();
    assert [SHORT_TEN][..0] == [];
    var row := E.Valued(true, Some(1.0), 10.0, 1.0, 0.0);
    assert Rows([SHORT_TEN], "A", prices) == [] + [row];
    SumsOfNone();
    SumsAppend([], row);
  }

  // ---------- a sale whose fee is charged twice ----------

  const CHARGED := FREE.(sellFee := 1.0)
  const BUY_TEN_AT_ONE := Ask(Buy, 10.0, "k", None, HOME)
  const SELL_TEN_AT_ONE := Ask(Sell, 10.0, "l", None, HOME)

  function RoundTrip(): Store {
    Run(Fresh(Funded(StockId)), CHARGED, [Submit(BUY_TEN_AT_ONE, COMPLETE)] + [Submit(SELL_TEN_AT_ONE, COMPLETE)])
  }

  /** Every trade of "A" so far has moved its position, and these are all there are. */
  predicate Ledgered(s: Store, cash: real, row: Position, keys: set<string>, costs: seq<real>) {
    && "A" in s.accounts && s.accounts["A"].assetClass == StockId && s.accounts["A"].cash == cash
    && s.positions == [row] && s.keys.Keys == keys
    && s.trades == s.positionLog && |s.trades| == |costs|
    && forall i | 0 <= i < |costs| ::
         && s.trades[i].accountId == "A" && s.trades[i].executedAt == 0
         && s.trades[i].fee + s.trades[i].tax == costs[i]
         && s.trades[i].action == if i == 0 then Buy else Sell
  }

  const HELD := Position("A", "X", Long, 10.0, 1.0, 0.0, true, None, None, 0.0)
  const SOLD := HELD.(quantity := 0.0, realizedPnl := -1.0, open := false)

  lemma Bought(s: Store)
    requires s == Fresh(Funded(StockId))
    ensures Ledgered(After(s, CHARGED, BUY_TEN_AT_ONE, COMPLETE), 990.0, HELD, {"k"}, [0.0])
  {
    hide Limit, Refusal;
    BuyAllowed(s);
  }

  lemma BuyAllowed(s: Store)
    requires s == Fresh(Funded(StockId))
    ensures Limit(s, CHARGED, BUY_TEN_AT_ONE) == COMPLETE
  {
    NotBlank();
  }

  lemma SoldAtCost(s: Store)
    requires Ledgered(s, 990.0, HELD, {"k"}, [0.0])
    ensures Ledgered(After(s, CHARGED, SELL_TEN_AT_ONE, COMPLETE), 999.0, SOLD, {"k", "l"}, [0.0, 1.0])
  {
    hide Limit, Refusal;
    SaleAllowed(s);
  }

  lemma SaleAllowed(s: Store)
    requires Ledgered(s, 990.0, HELD, {"k"}, [0.0])
    ensures Limit(s, CHARGED, SELL_TEN_AT_ONE) == COMPLETE
  {
    NotBlank();
  }

  lemma RoundTripLedgered()
    ensures Ledgered(RoundTrip(), 999.0, SOLD, {"k", "l"}, [0.0, 1.0])
  {
    hide After, Ledgered, Run;
    var s := Fresh(Funded(StockId));
    Bought(s);
    OneCall(s, CHARGED, BUY_TEN_AT_ONE, COMPLETE);
    RunAppend(s, CHARGED, [Submit(BUY_TEN_AT_ONE, COMPLETE)], SELL_TEN_AT_ONE, COMPLETE);
    SoldAtCost(After(s, CHARGED, BUY_TEN_AT_ONE, COMPLETE));
  }

  lemma TwoTrades(s: Store)
    requires Ledgered(s, 999.0, SOLD, {"k", "l"}, [0.0, 1.0])
    ensures SaleCostsWithin(s.positionLog, "A", 0, 0) == 1.0 && AccountBooked(s, "A") && !MayShort(s, CHARGED, "A")
    ensures forall i | 0 <= i < |s.trades| :: s.trades[i].executedAt == 0
  {
    var log := s.positionLog;
    assert log[..1][..0] == [] && log[..1][0] == log[0];
    assert SaleCostsWithin(log[..1], "A", 0, 0) == 0.0;
  }

  /** Ten bought and sold at one, with a fee of one on the sale: the account lost one, and the day's net
      result says two. */
  lemma SaleFeeChargedTwice(prices: Prices)
    ensures var s := RoundTrip();
            && "A" in s.accounts && Worth(s, "A", prices) == 999.0
            && E.NetResult(Rows(s.positions, "A", prices), Costs(s.trades, "A"), 0, 0) == -2.0
  {
    hide Ledgered, RoundTrip, Reachable, Inv, MayShort, E.NetResult, Costs, Rows, Worth, UnbookedGap, SaleCostsWithin,
         AccountBooked;
    RoundTripLedgered();
    RoundTripReachable();
    TwoTrades(RoundTrip());
    NothingHeld(RoundTrip(), prices);
    LongNetResultExactly(RoundTrip(), CHARGED, Funded(StockId), "A", prices, 0, 0);
  }

  lemma RoundTripReachable()
    ensures Reachable(RoundTrip(), CHARGED, Funded(StockId))
  {
  }

  lemma NothingHeld(s: Store, prices: Prices)
    requires Ledgered(s, 999.0, SOLD, {"k", "l"}, [0.0, 1.0])
    ensures "A" in s.accounts && Worth(s, "A", prices) == 999.0
  {
    hide AtCost;
    assert s.positions[..0] == [];
    assert HeldAtMarket(s.positions[..0], "A", prices) == 0.0;
    assert SignedHolding(s.positions[0]) == 0.0;
    ProductSigns(0.0, prices(s.positions[0].symbol), 0.0);
  }

  // ---------- two cut-off calls that cancel out ----------

  const BUY_TWENTY_AT_ONE := Ask(Buy, 20.0, "k", None, HOME)
  const LOST_BUY := Ask(Buy, 10.0, "l", None, HOME)
  const LOST_SALE := Ask(Sell, 10.0, "m", None, HOME)
  const HELD_TWENTY := HELD.(quantity := 20.0)

  function Cancelled(): Store {
    Run(Fresh(Funded(StockId)), FREE,
        [Submit(BUY_TWENTY_AT_ONE, COMPLETE)] + [Submit(LOST_BUY, FILLED_ROW)] + [Submit(LOST_SALE, FILLED_ROW)])
  }

  /** Twenty are held and paid for; of the recorded trades only the first was applied. */
  predicate Lost(s: Store, deals: seq<(Action, real)>) {
    && "A" in s.accounts && s.accounts["A"].assetClass == StockId && s.accounts["A"].cash == 980.0
    && "A" in s.opening && s.opening["A"] == 1000.0
    && s.positions == [HELD_TWENTY] && s.keys.Keys == {"k"}
    && |s.trades| == |deals| == |s.orders| > 0 && s.cashLog == s.positionLog == s.trades[..1]
    && (forall i | 0 <= i < |s.orders| :: s.orders[i].status == Filled)
    && forall i | 0 <= i < |deals| ::
         s.trades[i] == Trade(i, i, "A", "X", deals[i].0, deals[i].1, 1.0, 0.0, 0.0, 0)
  }

  lemma TwentyBought(s: Store)
    requires s == Fresh(Funded(StockId))
    ensures Lost(After(s, FREE, BUY_TWENTY_AT_ONE, COMPLETE), [(Buy, 20.0)])
  {
    hide Limit, Refusal;
    NotBlank();
    TwentyAllowed(s);
    var after := After(s, FREE, BUY_TWENTY_AT_ONE, COMPLETE);
    assert after.trades[..1] == after.trades;
  }

  lemma TwentyAllowed(s: Store)
    requires s == Fresh(Funded(StockId))
    ensures Limit(s, FREE, BUY_TWENTY_AT_ONE) == COMPLETE
  {
    NotBlank();
  }

  lemma OneLost(s: Store, deals: seq<(Action, real)>, c: Call)
    requires Lost(s, deals) && (c == LOST_BUY || c == LOST_SALE)
    ensures CutsOff(s, FREE, Submit(c, FILLED_ROW), "A")
    ensures Lost(After(s, FREE, c, FILLED_ROW), deals + [(c.action, c.quantity)])
  {
    hide Limit, Refusal;
    NotBlank();
    LostAllowed(s, deals, c);
    var after := After(s, FREE, c, FILLED_ROW);
    assert after.trades[..1] == s.trades[..1];
  }

  lemma LostAllowed(s: Store, deals: seq<(Action, real)>, c: Call)
    requires Lost(s, deals) && (c == LOST_BUY || c == LOST_SALE)
    ensures Limit(s, FREE, c) == COMPLETE
  {
    NotBlank();
  }

  lemma CancelledIsLost()
    ensures var first := After(Fresh(Funded(StockId)), FREE, BUY_TWENTY_AT_ONE, COMPLETE);
            var second := After(first, FREE, LOST_BUY, FILLED_ROW);
            && CutsOff(first, FREE, Submit(LOST_BUY, FILLED_ROW), "A")
            && CutsOff(second, FREE, Submit(LOST_SALE, FILLED_ROW), "A")
            && Cancelled() == After(second, FREE, LOST_SALE, FILLED_ROW)
            && Lost(Cancelled(), [(Buy, 20.0), (Buy, 10.0), (Sell, 10.0)])
  {
    hide After, Lost, CutsOff, Run;
    var s := Fresh(Funded(StockId));
    var one := [Submit(BUY_TWENTY_AT_ONE, COMPLETE)];
    OneCall(s, FREE, BUY_TWENTY_AT_ONE, COMPLETE);
    RunAppend(s, FREE, one, LOST_BUY, FILLED_ROW);
    RunAppend(s, FREE, one + [Submit(LOST_BUY, FILLED_ROW)], LOST_SALE, FILLED_ROW);
    TwentyBought(s);
    var first := After(s, FREE, BUY_TWENTY_AT_ONE, COMPLETE);
    OneLost(first, [(Buy, 20.0)], LOST_BUY);
    assert [(Buy, 20.0)] + [(Buy, 10.0)] == [(Buy, 20.0), (Buy, 10.0)];
    OneLost(After(first, FREE, LOST_BUY, FILLED_ROW), [(Buy, 20.0), (Buy, 10.0)], LOST_SALE);
    assert [(Buy, 20.0), (Buy, 10.0)] + [(Sell, 10.0)] == [(Buy, 20.0), (Buy, 10.0), (Sell, 10.0)];
  }

  lemma LostFlow(s: Store)
    requires Lost(s, [(Buy, 20.0), (Buy, 10.0), (Sell, 10.0)])
    ensures TotalCashFlow(Missing(s.trades, s.cashLog), "A") == 0.0
  {
    hide Missing, TotalCashFlow;
    var none: seq<Trade> := [];
    assert s.cashLog == [s.trades[0]];
    MissingOfThree(s.trades, s.cashLog);
    assert none + [s.trades[1]] + [s.trades[2]] == [s.trades[1]] + [s.trades[2]];
    NoFlow();
    CashFlowAppend(none, s.trades[1], "A");
    CashFlowAppend(none + [s.trades[1]], s.trades[2], "A");
  }

  lemma NoFlow()
    ensures TotalCashFlow([], "A") == 0.0
  {
  }

  lemma MissingOfThree(log: seq<Trade>, part: seq<Trade>)
    requires |log| == 3 && log[0] in part && log[1] !in part && log[2] !in part
    ensures Missing(log, part) == [log[1]] + [log[2]]
  {
    assert log[..2][..1] == log[..1] && log[..1][..0] == [];
    assert Missing(log[..1], part) == [];
  }

  lemma ReplayAppended(trades: seq<Trade>, t: Trade)
    ensures ReplayRow(trades + [t], false) == ReplayStep(ReplayRow(trades, false), t, false)
  {
    assert (trades + [t])[..|trades|] == trades;
  }

  lemma LostReplay(trades: seq<Trade>)
    requires |trades| == 3
    requires forall i | 0 <= i < 3 :: trades[i] == Trade(i, i, "A", "X", if i == 2 then Sell else Buy,
                                                         if i == 0 then 20.0 else 10.0, 1.0, 0.0, 0.0, 0)
    ensures ReplayRow(trades, false) == Replayed(Some(HELD_TWENTY), {})
  {
    hide ReplayStep;
    var none: seq<Trade> := [];
    assert trades == none + [trades[0]] + [trades[1]] + [trades[2]];
    assert ReplayRow(none, false) == Replayed(None, {});
    ReplayAppended(none, trades[0]);
    ReplayAppended(none + [trades[0]], trades[1]);
    ReplayAppended(none + [trades[0]] + [trades[1]], trades[2]);
    LostSteps(trades[0], trades[1], trades[2]);
  }

  lemma LostSteps(first: Trade, second: Trade, third: Trade)
    requires first == Trade(0, 0, "A", "X", Buy, 20.0, 1.0, 0.0, 0.0, 0)
    requires second == Trade(1, 1, "A", "X", Buy, 10.0, 1.0, 0.0, 0.0, 0)
    requires third == Trade(2, 2, "A", "X", Sell, 10.0, 1.0, 0.0, 0.0, 0)
    ensures ReplayStep(Replayed(None, {}), first, false) == Replayed(Some(HELD_TWENTY), {})
    ensures var thirty := HELD_TWENTY.(quantity := 30.0);
            && ReplayStep(Replayed(Some(HELD_TWENTY), {}), second, false) == Replayed(Some(thirty), {})
            && ReplayStep(Replayed(Some(thirty), {}), third, false) == Replayed(Some(HELD_TWENTY), {})
  {
    hide WeightedAverage, Gain, FeesKept;
    LostFigures();
  }

  lemma LostFigures()
    ensures WeightedAverage(20.0, 1.0, 10.0, 1.0) == 1.0
    ensures Gain(Long, 1.0, 1.0, 10.0) == 0.0 && FeesKept(0.0, 20.0, 30.0) == 0.0
  {
  }

  lemma LostPositions(s: Store)
    requires Lost(s, [(Buy, 20.0), (Buy, 10.0), (Sell, 10.0)])
    ensures PositionsPass(s, "A")
  {
    forall y | y in TradedOrHeld(s, "A") ensures SymbolPasses(s, "A", y) {
      OnlyX(s, y);
      AllOfX(s);
      LostReplay(s.trades);
      hide ReplayRow;
      assert [HELD_TWENTY][..0] == [];
      SameRowPasses("X", Some(HELD_TWENTY));
    }
  }

  lemma {:induction false} ListedTrades(trades: seq<Trade>, account: string)
    ensures forall t | t in AccountTrades(trades, account) :: t in trades
  {
    if |trades| > 0 {
      ListedTrades(trades[..|trades| - 1], account);
    }
  }

  lemma {:induction false} ListedRows(rows: seq<Position>, account: string)
    ensures forall p | p in AccountRows(rows, account) :: p in rows
  {
    if |rows| > 0 {
      ListedRows(rows[..|rows| - 1], account);
    }
  }

  lemma OnlyX(s: Store, y: string)
    requires Lost(s, [(Buy, 20.0), (Buy, 10.0), (Sell, 10.0)]) && y in TradedOrHeld(s, "A")
    ensures y == "X"
  {
    hide AccountTrades, AccountRows;
    ListedTrades(s.trades, "A");
    ListedRows(s.positions, "A");
  }

  lemma AllOfX(s: Store)
    requires Lost(s, [(Buy, 20.0), (Buy, 10.0), (Sell, 10.0)])
    ensures TradesOf(s.trades, "A", "X") == s.trades
  {
    assert s.trades[..2][..1] == s.trades[..1] && s.trades[..1][..0] == [];
    assert TradesOf(s.trades[..1], "A", "X") == s.trades[..1];
    assert TradesOf(s.trades[..2], "A", "X") == s.trades[..2];
  }

  /** Holding twenty, a purchase and a sale of ten are both cut off before cash moved: nothing of either was
      applied, and every check passes. */
  lemma CutOffsCancel()
    ensures var first := After(Fresh(Funded(StockId)), FREE, BUY_TWENTY_AT_ONE, COMPLETE);
            var second := After(first, FREE, LOST_BUY, FILLED_ROW);
            var s := After(second, FREE, LOST_SALE, FILLED_ROW);
            && CutsOff(first, FREE, Submit(LOST_BUY, FILLED_ROW), "A")
            && CutsOff(second, FREE, Submit(LOST_SALE, FILLED_ROW), "A")
            && "A" in s.accounts && OrdersPass(s, "A") && CashPasses(s, "A", 1000.0) && PositionsPass(s, "A")
  {
    hide After, CutsOff, Cancelled, Inv, OrdersPass, CashPasses, PositionsPass, TotalCashFlow, Missing;
    CancelledIsLost();
    CancelledInv();
    LostFlow(Cancelled());
    LostPositions(Cancelled());
    CashPassesOfInv(Cancelled(), FREE, "A");
    LostOrders(Cancelled());
  }

  lemma CancelledInv()
    ensures Inv(Cancelled(), FREE)
  {
    hide Inv, Run;
    assert Reachable(Cancelled(), FREE, Funded(StockId));
    ReachableInv(Cancelled(), FREE, Funded(StockId));
  }

  lemma LostOrders(s: Store)
    requires Lost(s, [(Buy, 20.0), (Buy, 10.0), (Sell, 10.0)]) && Inv(s, FREE)
    ensures OrdersPass(s, "A")
  {
    OrderCheckExactly(s, "A", |s.orders|);
    assert s.orders[..|s.orders|] == s.orders;
    hide OrderCheck;
    assert forall v :: v !in OrderCheck(s.orders, s.trades, "A");
  }

  // ---------- the other figures ----------

  /** One winning result: the expectancy is one, and the profit factor is zero. */
  lemma WinnerWithoutFactor()
    ensures P.Expectancy(P.TallyOf([1.0])) == 1.0 && P.ProfitFactor(P.TallyOf([1.0])) == 0.0
  {
    assert [1.0][..0] == [];
    assert P.TallyOf([1.0]) == P.Statistics(1, 0, 0, 1.0, 0.0);
  }

  /** Two timestamps on neighbouring trading days, the second later in its day: a gap is reported though no
      day lies between them. */
  lemma NeighboursReportedAsGap(text: string, other: string, yearOf: int -> int)
    requires yearOf(2) == C.COVERED_YEAR
    ensures var fields := [C.Present(text, C.Stamped(1, 0)), C.Present(other, C.Stamped(2, 60))];
            var r := C.ReportOf(fields, Some(C.Calendar({}, yearOf)));
            r.Gaps? && r.total == 1
  {
    hide C.ReportOf, C.Mixed, C.HasStamp, C.MarksOf, C.DaysOf, C.Sorted, C.Revisited, C.AnswersTrading;
    var cal := C.Calendar({}, yearOf);
    var f, g := C.Present(text, C.Stamped(1, 0)), C.Present(other, C.Stamped(2, 60));
    var fields := [f, g];
    C.SameKind(f, g);
    C.TwoMarks(f, g);
    C.ReportTotals(fields, cal, 1, 2);
    assert C.ReadsStamped(fields, 0);
    C.StampedGapsOvercount(fields, cal, 1, 2);
    C.RevisitedExactly(cal, C.Sorted(C.MarksOf(fields)));
    assert C.UnlistedHolidays(cal, 1, 2, {1, 2}) == {};
    assert C.AbsentDays(cal, 1, 2, {1, 2}) == {};
    SteppedOnce(cal, C.MarksOf(fields), f, g);
  }

  lemma SteppedOnce(cal: C.Calendar, marks: seq<C.Mark>, f: C.DateField, g: C.DateField)
    requires f.Present? && g.Present? && f.reading == C.Stamped(1, 0) && g.reading == C.Stamped(2, 60)
    requires marks == C.MarksOf([f, g]) && cal.yearOf(2) == C.COVERED_YEAR
    ensures C.Revisited(cal, true, C.Sorted(marks)) == 1
  {
    hide C.Sorted;
    var none: seq<C.DateField> := [];
    C.MarksAppend(none, f);
    C.MarksAppend(none + [f], g);
    assert none + [f] + [g] == [f, g];
    assert C.MarksOf(none) + [C.Mark(1, 0)] + [C.Mark(2, 60)] == [C.Mark(1, 0), C.Mark(2, 60)];
    SortedPair(C.Mark(1, 0), C.Mark(2, 60));
    assert [C.Mark(1, 0), C.Mark(2, 60)][..1] == [C.Mark(1, 0)];
    assert C.Weekday(2) < 5;
  }

  lemma SortedPair(a: C.Mark, b: C.Mark)
    requires C.Before(a, b)
    ensures C.Sorted([a, b]) == [a, b]
  {
    var none: seq<C.Mark> := [];
    assert [a, b][..1] == [a] && [a][..0] == none;
    assert C.Sorted(none) == none;
    var one := C.Sorted([a]);
    assert one == C.Insert(none, a);
    assert one == [a];
    var two := C.Sorted([a, b]);
    assert two == C.Insert([a], b) && two[1] == b;
    assert multiset(two) == multiset{a, b} && two == [two[0], two[1]];
  }

  /** An alert whose row could not be written, asked for again with nothing changed: it is delivered twice. */
  lemma AlertDeliveredTwice(interval: real)
    ensures var t := D.Tick("drawdown", "high", 0.0, D.World(true, false));
            |D.Run(interval, [t, t]).deliveries| == 2
  {
    var t := D.Tick("drawdown", "high", 0.0, D.World(true, false));
    var none: seq<D.Tick> := [];
    assert D.Run(interval, none) == D.Desk(map[], []);
    D.UnrecordedSendRepeats(interval, none, t);
    assert none + [t] + [t] == [t, t];
  }
}
