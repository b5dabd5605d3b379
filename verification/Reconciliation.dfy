/** The read-only consistency check of an account: orders against trades, replayed trades against cash and
    position rows, and the state of the rows themselves. */
module Reconciliation {
  import opened Options
  import opened Ledger
  import opened Gates
  import opened Submission
  import opened Books
  import opened Invariants
  import opened LedgerTheorems
  import opened Episodes
  import opened EpisodeBooks
  import opened Attribution

  const EPSILON := 0.000000001

  predicate Close(x: real, y: real) {
    Abs(x - y) <= EPSILON
  }

  datatype Violation =
    | UnknownAccount
    | NotOneTrade(order: nat)
    | FillPriceDiffers(order: nat)
    | FillQuantityDiffers(order: nat)
    | FillTimeDiffers(order: nat)
    | UnexpectedTrade(order: nat)
    | UnknownAction(trade: nat)
    | CashDiffers
    | RowMissing(symbol: string)
    | TradesMissing(symbol: string)
    | QuantityDiffers(symbol: string)
    | AverageDiffers(symbol: string)
    | ProfitDiffers(symbol: string)
    | FeesDiffer(symbol: string)
    | StatusDiffers(symbol: string)
    | DirectionDiffers(symbol: string)
    | SoldFromFlat(trade: nat)
    | ExceedsHolding(trade: nat)
    | NegativeCash
    | NegativeQuantity(row: nat)
    | EmptyRowOpen(row: nat)
    | HeldRowClosed(row: nat)
    | StopMissing(row: nat)
    | StopOnWrongSide(row: nat)
    | PipValueLost(row: nat)
    | MarginLost(row: nat)
    | MaximumLossLost(row: nat)

  /** What a check finds; `Raised` is a division by zero. */
  datatype Findings = Raised | Found(violations: set<Violation>)

  function If(c: bool, v: Violation): set<Violation> {
    if c then {v} else {}
  }

  // ---------- orders against trades ----------

  function TradesFor(trades: seq<Trade>, account: string, order: nat): seq<Trade> {
    if |trades| == 0 then []
    else
      var n := |trades| - 1;
      TradesFor(trades[..n], account, order) +
      if trades[n].accountId == account && trades[n].orderId == order then [trades[n]] else []
  }

  function OrderFaults(id: nat, o: Order, mine: seq<Trade>): set<Violation> {
    if o.status != Filled then If(|mine| > 0, UnexpectedTrade(id))
    else if |mine| != 1 then {NotOneTrade(id)}
    else
      If(o.filledPrice != mine[0].fillPrice, FillPriceDiffers(id)) +
      If(o.filledQuantity != mine[0].quantity, FillQuantityDiffers(id)) +
      If(o.filledAt != Some(mine[0].executedAt), FillTimeDiffers(id))
  }

  function OrderCheck(orders: seq<Order>, trades: seq<Trade>, account: string): set<Violation> {
    if |orders| == 0 then {}
    else
      var n := |orders| - 1;
      OrderCheck(orders[..n], trades, account) +
      if orders[n].accountId == account then OrderFaults(n, orders[n], TradesFor(trades, account, n)) else {}
  }

  method CheckOrders(s: Store, account: string) returns (v: set<Violation>)
    ensures v == OrderCheck(s.orders, s.trades, account)
  {
    v := {};
    for i := 0 to |s.orders|
      invariant v == OrderCheck(s.orders[..i], s.trades, account)
    {
      assert s.orders[..i + 1][..i] == s.orders[..i];
      if s.orders[i].accountId == account {
        v := v + OrderFaults(i, s.orders[i], TradesFor(s.trades, account, i));
      }
    }
    assert s.orders[..|s.orders|] == s.orders;
  }

  // ---------- trades against cash ----------

  function ExpectedCash(start: real, trades: seq<Trade>): real {
    if |trades| == 0 then start
    else
      var t := trades[|trades| - 1];
      ExpectedCash(start, trades[..|trades| - 1]) + CashFlow(t)
  }

  function UnknownActions(trades: seq<Trade>): set<Violation> {
    if |trades| == 0 then {}
    else
      var t := trades[|trades| - 1];
      UnknownActions(trades[..|trades| - 1]) + If(t.action.OtherAction?, UnknownAction(t.tradeId))
  }

  /** Without a starting cash nothing is checked. */
  function CashCheck(start: Option<real>, cash: real, trades: seq<Trade>): set<Violation> {
    if start.None? then {}
    else UnknownActions(trades) + If(!Close(ExpectedCash(start.value, trades), cash), CashDiffers)
  }

  method CheckCash(start: Option<real>, cash: real, trades: seq<Trade>) returns (v: set<Violation>)
    ensures v == CashCheck(start, cash, trades)
  {
    v := {};
    if start.None? {
      return;
    }
    var expected := start.value;
    for i := 0 to |trades|
      invariant expected == ExpectedCash(start.value, trades[..i]) && v == UnknownActions(trades[..i])
    {
      var t := trades[i];
      assert trades[..i + 1][..i] == trades[..i];
      match t.action {
        case Buy => expected := expected - (Gross(t) + t.fee + t.tax);
        case Sell => expected := expected + (Gross(t) - t.fee - t.tax);
        case OtherAction(_) => v := v + {UnknownAction(t.tradeId)};
      }
    }
    assert trades[..|trades|] == trades;
    if Abs(expected - cash) > EPSILON {
      v := v + {CashDiffers};
    }
  }

  // ---------- trades against positions ----------

  /** A symbol's replayed row and what was found on the way. */
  datatype Replayed = Failed | Replayed(row: Option<Position>, faults: set<Violation>)

  function ReplayStep(r: Replayed, t: Trade, isForex: bool): Replayed {
    if r.Failed? then r
    else if t.action.OtherAction? then r.(faults := r.faults + {UnknownAction(t.tradeId)})
    else if r.row.None? || !r.row.value.open then
      if t.action.Buy? || isForex then r.(row := Some(Opened(t)))
      else r.(faults := r.faults + {SoldFromFlat(t.tradeId)})
    else
      var p := r.row.value;
      if SideOf(t.action) != p.direction && t.quantity > p.quantity
      then r.(faults := r.faults + {ExceedsHolding(t.tradeId)})
      else if Touched(p, t).None? then Failed
      else r.(row := Touched(p, t))
  }

  function ReplayRow(trades: seq<Trade>, isForex: bool): Replayed {
    if |trades| == 0 then Replayed(None, {})
    else ReplayStep(ReplayRow(trades[..|trades| - 1], isForex), trades[|trades| - 1], isForex)
  }

  method ReplayPosition(trades: seq<Trade>, isForex: bool) returns (r: Replayed)
    ensures r == ReplayRow(trades, isForex)
  {
    var row: Option<Position> := None;
    var faults: set<Violation> := {};
    for i := 0 to |trades|
      invariant ReplayRow(trades[..i], isForex) == Replayed(row, faults)
    {
      var t := trades[i];
      assert trades[..i + 1][..i] == trades[..i];
      if t.action.OtherAction? {
        faults := faults + {UnknownAction(t.tradeId)};
      } else if row.None? || !row.value.open {
        if t.action.Buy? || isForex {
          row := Some(Opened(t));
        } else {
          faults := faults + {SoldFromFlat(t.tradeId)};
        }
      } else if SideOf(t.action) != row.value.direction && t.quantity > row.value.quantity {
        faults := faults + {ExceedsHolding(t.tradeId)};
      } else {
        var next := Touched(row.value, t);
        if next.None? {
          FailureStays(trades, i + 1, isForex);
          return Failed;
        }
        row := next;
      }
    }
    assert trades[..|trades|] == trades;
    return Replayed(row, faults);
  }

  lemma {:induction false} FailureStays(trades: seq<Trade>, i: nat, isForex: bool)
    requires i <= |trades| && ReplayRow(trades[..i], isForex).Failed?
    ensures ReplayRow(trades, isForex).Failed?
  {
    if i < |trades| {
      assert trades[..|trades| - 1][..i] == trades[..i];
      FailureStays(trades[..|trades| - 1], i, isForex);
    } else {
      assert trades[..i] == trades;
    }
  }

  function LastRow(book: seq<Position>): Option<Position> {
    if |book| == 0 then None else Some(book[|book| - 1])
  }

  /** The latest persisted row of a symbol against the replayed one. */
  function RowFaults(symbol: string, stored: Option<Position>, replayed: Option<Position>): set<Violation> {
    if stored.None? then If(replayed.Some?, RowMissing(symbol))
    else if replayed.None? then {TradesMissing(symbol)}
    else
      var p, q := stored.value, replayed.value;
      If(!Close(p.quantity, q.quantity), QuantityDiffers(symbol)) +
      If(!Close(p.averagePrice, q.averagePrice), AverageDiffers(symbol)) +
      If(!Close(p.realizedPnl, q.realizedPnl), ProfitDiffers(symbol)) +
      If(!Close(p.buyFees, q.buyFees), FeesDiffer(symbol)) +
      If(p.open != q.open, StatusDiffers(symbol)) +
      If(p.direction != q.direction, DirectionDiffers(symbol))
  }

  function SymbolCheck(s: Store, account: string, symbol: string, isForex: bool): Findings {
    var replayed := ReplayRow(TradesOf(s.trades, account, symbol), isForex);
    if replayed.Failed? then Raised
    else Found(replayed.faults + RowFaults(symbol, LastRow(RowsOf(s.positions, account, symbol)), replayed.row))
  }

  function TradedOrHeld(s: Store, account: string): set<string> {
    (set t | t in AccountTrades(s.trades, account) :: t.symbol) +
    (set p | p in AccountRows(s.positions, account) :: p.symbol)
  }

  predicate Finds(s: Store, account: string, isForex: bool, symbols: set<string>, v: Violation) {
    exists y | y in symbols :: SymbolCheck(s, account, y, isForex).Found? &&
                               v in SymbolCheck(s, account, y, isForex).violations
  }

  /** What the position check finds: the findings of all its symbols, in any order. */
  ghost predicate PositionsFound(s: Store, account: string, isForex: bool, symbols: set<string>, r: Findings) {
    if r.Raised? then exists y | y in symbols :: SymbolCheck(s, account, y, isForex).Raised?
    else
      && (forall y | y in symbols :: SymbolCheck(s, account, y, isForex).Found?)
      && forall v :: v in r.violations <==> Finds(s, account, isForex, symbols, v)
  }

  method CheckSymbol(s: Store, account: string, symbol: string, isForex: bool) returns (r: Findings)
    ensures r == SymbolCheck(s, account, symbol, isForex)
  {
    hide ReplayRow, RowFaults, LastRow;
    var replayed := ReplayPosition(TradesOf(s.trades, account, symbol), isForex);
    if replayed.Failed? {
      return Raised;
    }
    return Found(replayed.faults + RowFaults(symbol, LastRow(RowsOf(s.positions, account, symbol)), replayed.row));
  }

  method CheckPositions(s: Store, account: string, isForex: bool) returns (r: Findings)
    ensures PositionsFound(s, account, isForex, TradedOrHeld(s, account), r)
  {
    hide SymbolCheck, TradedOrHeld, PositionsFound;
    var todo := TradedOrHeld(s, account);
    var v: set<Violation> := {};
    ghost var done: set<string> := {};
    NoSymbols(s, account, isForex);
    while todo != {}
      invariant done + todo == TradedOrHeld(s, account) && done !! todo
      invariant PositionsFound(s, account, isForex, done, Found(v))
      decreases |todo|
    {
      var y :| y in todo;
      var found := CheckSymbol(s, account, y, isForex);
      if found.Raised? {
        OneRaises(s, account, isForex, TradedOrHeld(s, account), y);
        return Raised;
      }
      OneMoreSymbol(s, account, isForex, done, y, v, found.violations);
      v := v + found.violations;
      todo, done := todo - {y}, done + {y};
    }
    assert done == TradedOrHeld(s, account);
    return Found(v);
  }

  lemma NoSymbols(s: Store, account: string, isForex: bool)
    ensures PositionsFound(s, account, isForex, {}, Found({}))
  {
  }

  lemma OneRaises(s: Store, account: string, isForex: bool, symbols: set<string>, y: string)
    requires y in symbols && SymbolCheck(s, account, y, isForex).Raised?
    ensures PositionsFound(s, account, isForex, symbols, Raised)
  {
    hide SymbolCheck;
  }

  lemma OneMoreSymbol(
    s: Store, account: string, isForex: bool, done: set<string>, y: string, v: set<Violation>, faults: set<Violation>)
    requires PositionsFound(s, account, isForex, done, Found(v))
    requires SymbolCheck(s, account, y, isForex) == Found(faults)
    ensures PositionsFound(s, account, isForex, done + {y}, Found(v + faults))
  {
    hide SymbolCheck;
    forall x ensures x in v + faults <==> Finds(s, account, isForex, done + {y}, x) {
      if Finds(s, account, isForex, done, x) {
        var z :| z in done && SymbolCheck(s, account, z, isForex).Found? &&
                 x in SymbolCheck(s, account, z, isForex).violations;
        assert z in done + {y};
      }
      if x in faults {
        assert y in done + {y};
      }
    }
  }

  // ---------- the rows themselves ----------

  function RowStateFaults(i: nat, p: Position): set<Violation> {
    If(p.quantity < 0.0, NegativeQuantity(i)) +
    If(Close(p.quantity, 0.0) && p.open, EmptyRowOpen(i)) +
    If(p.quantity > 0.0 && !p.open, HeldRowClosed(i))
  }

  function RowStateCheck(rows: seq<Position>, account: string): set<Violation> {
    if |rows| == 0 then {}
    else
      var n := |rows| - 1;
      RowStateCheck(rows[..n], account) + if rows[n].accountId == account then RowStateFaults(n, rows[n]) else {}
  }

  method CheckState(s: Store, account: string) returns (v: set<Violation>)
    requires account in s.accounts
    ensures v == If(s.accounts[account].cash < 0.0, NegativeCash) + RowStateCheck(s.positions, account)
  {
    v := If(s.accounts[account].cash < 0.0, NegativeCash);
    ghost var first := v;
    for i := 0 to |s.positions|
      invariant v == first + RowStateCheck(s.positions[..i], account)
    {
      assert s.positions[..i + 1][..i] == s.positions[..i];
      if s.positions[i].accountId == account {
        v := v + RowStateFaults(i, s.positions[i]);
      }
    }
    assert s.positions[..|s.positions|] == s.positions;
  }

  // ---------- Forex rows ----------

  /** Which symbols name a pair with a pip value. */
  type Pairs = string -> bool

  /** A held Forex row needs a stop on the right side, and pip value, margin and maximum loss must be
      computable again from it; the policies refuse an unknown pair and a price or stop that is not positive. */
  function ForexFaults(i: nat, p: Position, pairs: Pairs): set<Violation> {
    if p.quantity <= 0.0 then {}
    else
      If(p.stopLoss.None?, StopMissing(i)) +
      If(p.stopLoss.Some? && !StopSideValid(p.direction, p.averagePrice, p.stopLoss.value), StopOnWrongSide(i)) +
      If(!pairs(p.symbol), PipValueLost(i)) +
      If(p.averagePrice <= 0.0 || !pairs(p.symbol), MarginLost(i)) +
      If(p.stopLoss.Some? && (p.averagePrice <= 0.0 || p.stopLoss.value <= 0.0 || !pairs(p.symbol)), MaximumLossLost(i))
  }

  function ForexCheck(rows: seq<Position>, account: string, pairs: Pairs): set<Violation> {
    if |rows| == 0 then {}
    else
      var n := |rows| - 1;
      ForexCheck(rows[..n], account, pairs) +
      if rows[n].accountId == account then ForexFaults(n, rows[n], pairs) else {}
  }

  method CheckForex(s: Store, account: string, pairs: Pairs) returns (v: set<Violation>)
    ensures v == ForexCheck(s.positions, account, pairs)
  {
    v := {};
    for i := 0 to |s.positions|
      invariant v == ForexCheck(s.positions[..i], account, pairs)
    {
      assert s.positions[..i + 1][..i] == s.positions[..i];
      if s.positions[i].accountId == account {
        v := v + ForexFaults(i, s.positions[i], pairs);
      }
    }
    assert s.positions[..|s.positions|] == s.positions;
  }

  // ---------- when each check passes ----------

  predicate OrdersPass(s: Store, account: string) {
    OrderCheck(s.orders, s.trades, account) == {}
  }

  predicate CashPasses(s: Store, account: string, start: real)
    requires account in s.accounts
  {
    CashCheck(Some(start), s.accounts[account].cash, AccountTrades(s.trades, account)) == {}
  }

  predicate SymbolPasses(s: Store, account: string, symbol: string)
    requires account in s.accounts
  {
    SymbolCheck(s, account, symbol, s.accounts[account].assetClass.ForexAsset?) == Found({})
  }

  predicate PositionsPass(s: Store, account: string)
    requires account in s.accounts
  {
    forall y | y in TradedOrHeld(s, account) :: SymbolPasses(s, account, y)
  }

  lemma {:induction false} OneTradeFor(trades: seq<Trade>, account: string, order: nat)
    requires forall i | 0 <= i < |trades| && trades[i].orderId == order :: trades[i].accountId == account
    ensures |TradesFor(trades, account, order)| == TradesOfOrder(trades, order)
    ensures forall t | t in TradesFor(trades, account, order) :: t.orderId == order && t in trades
  {
    if |trades| > 0 {
      OneTradeFor(trades[..|trades| - 1], account, order);
    }
  }

  predicate HasUnfilledTrade(s: Store, i: nat)
    requires i < |s.orders|
  {
    s.orders[i].status != Filled && HasTrade(s.trades, i)
  }

  lemma OrderFaultsExactly(s: Store, i: nat)
    requires OrdersOk(s) && TradesOk(s) && i < |s.orders|
    ensures OrderFaults(i, s.orders[i], TradesFor(s.trades, s.orders[i].accountId, i)) ==
            If(HasUnfilledTrade(s, i), UnexpectedTrade(i))
  {
    var o := s.orders[i];
    forall j | 0 <= j < |s.trades| && s.trades[j].orderId == i
      ensures s.trades[j].accountId == o.accountId && TradeOfOrder(s.trades[j], o)
    {
      assert TradeOfOrder(s.trades[j], s.orders[s.trades[j].orderId]);
    }
    OneTradeFor(s.trades, o.accountId, i);
    OneTradeEach(s.trades, i);
    var mine := TradesFor(s.trades, o.accountId, i);
    if |mine| == 1 {
      assert mine[0] in mine;
      var j :| 0 <= j < |s.trades| && s.trades[j] == mine[0];
      assert TradeOfOrder(s.trades[j], o);
    }
  }

  lemma {:induction false} OrderCheckExactly(s: Store, account: string, n: nat)
    requires OrdersOk(s) && TradesOk(s) && n <= |s.orders|
    ensures forall v :: v in OrderCheck(s.orders[..n], s.trades, account) <==>
              v.UnexpectedTrade? && v.order < n && s.orders[v.order].accountId == account &&
              HasUnfilledTrade(s, v.order)
  {
    hide OrdersOk, TradesOk, OrderFaults, HasUnfilledTrade;
    if n > 0 {
      OrderCheckExactly(s, account, n - 1);
      assert s.orders[..n][..n - 1] == s.orders[..n - 1];
      if s.orders[n - 1].accountId == account {
        OrderFaultsExactly(s, n - 1);
      }
    }
  }

  /** In every reachable state the order check finds exactly the account's orders that were traded and not
      marked filled. */
  lemma OrdersPassExactly(s: Store, p: Policy, accounts: map<string, Account>, account: string)
    requires Reachable(s, p, accounts)
    ensures forall v :: v in OrderCheck(s.orders, s.trades, account) <==>
              v.UnexpectedTrade? && v.order < |s.orders| && s.orders[v.order].accountId == account &&
              s.orders[v.order].status != Filled && HasTrade(s.trades, v.order)
  {
    ReachableInv(s, p, accounts);
    assert s.orders[..|s.orders|] == s.orders;
    OrderCheckExactly(s, account, |s.orders|);
  }

  lemma {:induction false} ExpectedIsFlow(start: real, trades: seq<Trade>, account: string)
    requires forall i | 0 <= i < |trades| :: Executable(trades[i])
    ensures ExpectedCash(start, AccountTrades(trades, account)) == start + TotalCashFlow(trades, account)
    ensures UnknownActions(AccountTrades(trades, account)) == {}
  {
    hide CashFlow;
    if |trades| > 0 {
      var n := |trades| - 1;
      ExpectedIsFlow(start, trades[..n], account);
      var mine := AccountTrades(trades[..n], account);
      assert (mine + [trades[n]])[..|mine|] == mine;
      assert AccountTrades(trades, account) == if trades[n].accountId == account then mine + [trades[n]] else mine;
    }
  }

  lemma CashPassesOfInv(s: Store, p: Policy, account: string)
    requires Inv(s, p) && account in s.accounts
    ensures CashPasses(s, account, s.opening[account]) <==>
            Abs(TotalCashFlow(Missing(s.trades, s.cashLog), account)) <= EPSILON
  {
    hide OrdersOk, LogsOk, KeysOk, BooksOk, LongOk, ValueOk, TotalCashFlow, Missing;
    ExpectedIsFlow(s.opening[account], s.trades, account);
    LogIsPart(s, p);
    CashFlowSplits(s.trades, s.cashLog, account);
  }

  /** In every reachable state, with the opening cash supplied, the cash check passes exactly when the
      recorded trades that have not moved cash add up to nothing, within the tolerance. */
  lemma CashPassesExactly(s: Store, p: Policy, accounts: map<string, Account>, account: string)
    requires Reachable(s, p, accounts) && account in accounts
    ensures account in s.accounts
    ensures CashPasses(s, account, accounts[account].cash) <==>
            Abs(TotalCashFlow(Missing(s.trades, s.cashLog), account)) <= EPSILON
  {
    hide CashPasses;
    ReachableInv(s, p, accounts);
    ReachableAccounts(s, p, accounts);
    CashPassesOfInv(s, p, account);
  }

  // ---------- the replay is the book ----------

  lemma ReplayStepIsBookStep(book: seq<Position>, t: Trade, isForex: bool)
    requires BookStep(book, t).Some? && Executable(t) && (isForex || AllLong(BookStep(book, t).value))
    ensures ReplayStep(Replayed(LastRow(book), {}), t, isForex) == Replayed(LastRow(BookStep(book, t).value), {})
    ensures isForex || AllLong(book)
  {
    hide Gain, FeesKept, WeightedAverage;
    var after := BookStep(book, t).value;
    forall i | 0 <= i < |book| ensures after[i].direction == book[i].direction {
    }
    if |book| == 0 || !book[|book| - 1].open {
      assert after[|book|] == Opened(t);
    }
  }

  /** No replay of executable trades divides by zero, since an open row always holds something. */
  lemma {:induction false} ReplayNeverFails(trades: seq<Trade>, isForex: bool)
    requires AllExecutable(trades)
    ensures var r := ReplayRow(trades, isForex);
            r.Replayed? && (r.row.Some? && r.row.value.open ==> r.row.value.quantity > 0.0)
  {
    hide Gain, FeesKept, WeightedAverage;
    if |trades| > 0 {
      ReplayNeverFails(trades[..|trades| - 1], isForex);
    }
  }

  /** A step without a fault is a step of the book. */
  lemma FaultlessStep(book: seq<Position>, t: Trade, isForex: bool)
    requires Executable(t) && (isForex || AllLong(book))
    requires var r := ReplayStep(Replayed(LastRow(book), {}), t, isForex); r.Replayed? && r.faults == {}
    ensures BookStep(book, t).Some? && (isForex || AllLong(BookStep(book, t).value))
  {
    hide Gain, FeesKept, WeightedAverage;
    if |book| > 0 && book[|book| - 1].open {
      assert Touched(book[|book| - 1], t).Some?;
    }
  }

  lemma FaultsStay(r: Replayed, t: Trade, isForex: bool)
    ensures var next := ReplayStep(r, t, isForex);
            next.Replayed? && next.faults == {} ==> r.Replayed? && r.faults == {}
  {
    hide Touched;
  }

  /** The replay finds nothing exactly when the trades form a book of rows the account may open, and then it
      ends in that book's last row. */
  lemma {:induction false} ReplayIsBookExactly(trades: seq<Trade>, isForex: bool)
    requires AllExecutable(trades)
    ensures var r := ReplayRow(trades, isForex);
            && r.Replayed?
            && (r.faults == {} <==> Replay(trades).Some? && (isForex || AllLong(Replay(trades).value)))
            && (r.faults == {} ==> r.row == LastRow(Replay(trades).value))
  {
    hide BookStep, ReplayStep, LastRow, AllLong;
    ReplayNeverFails(trades, isForex);
    if |trades| == 0 {
      EmptyReplay(isForex);
    } else {
      var n := |trades| - 1;
      ReplayIsBookExactly(trades[..n], isForex);
      FaultsStay(ReplayRow(trades[..n], isForex), trades[n], isForex);
      if ReplayRow(trades, isForex).faults == {} {
        FaultlessStep(Replay(trades[..n]).value, trades[n], isForex);
        ReplayStepIsBookStep(Replay(trades[..n]).value, trades[n], isForex);
      } else if Replay(trades).Some? && (isForex || AllLong(Replay(trades).value)) {
        ReplayStepIsBookStep(Replay(trades[..n]).value, trades[n], isForex);
      }
    }
  }

  lemma EmptyReplay(isForex: bool)
    ensures LastRow([]) == None && AllLong([])
  {
  }

  lemma SameRowPasses(symbol: string, row: Option<Position>)
    ensures RowFaults(symbol, row, row) == {}
  {
  }

  /** For an account of this kind the book's rows are those the replay would open. */
  lemma BookFits(s: Store, p: Policy, account: string, symbol: string)
    requires Inv(s, p) && account in s.accounts
    ensures s.accounts[account].assetClass.ForexAsset? || AllLong(RowsOf(s.positions, account, symbol))
  {
    if !s.accounts[account].assetClass.ForexAsset? {
      var book := RowsOf(s.positions, account, symbol);
      forall j | 0 <= j < |book| ensures book[j].direction.Long? {
        var i := BookRowInTable(s.positions, account, symbol, j);
        assert Plain(s.positions[i]) == book[j];
      }
    }
  }

  lemma ReplayOfBooked(s: Store, p: Policy, account: string, symbol: string)
    requires Inv(s, p) && account in s.accounts
    ensures ReplayRow(TradesOf(s.positionLog, account, symbol), s.accounts[account].assetClass.ForexAsset?) ==
            Replayed(LastRow(RowsOf(s.positions, account, symbol)), {})
  {
    hide Inv, ReplayRow, LastRow, RowsOf, TradesOf, Replay;
    BookOfSymbol(s, p, account, symbol);
    BookFits(s, p, account, symbol);
    ReplayIsBookExactly(TradesOf(s.positionLog, account, symbol), s.accounts[account].assetClass.ForexAsset?);
  }

  /** A symbol whose recorded trades were all booked passes. */
  lemma BookedSymbolPasses(s: Store, p: Policy, account: string, symbol: string)
    requires Inv(s, p) && account in s.accounts && Booked(s, account, symbol)
    ensures SymbolPasses(s, account, symbol)
  {
    hide Inv, ReplayRow, LastRow, RowsOf, TradesOf, RowFaults;
    ReplayOfBooked(s, p, account, symbol);
    SameRowPasses(symbol, LastRow(RowsOf(s.positions, account, symbol)));
  }

  // ---------- the exact condition in every reachable state ----------

  /** Within the tolerance no compared field tells the two rows apart. */
  predicate Alike(p: Position, q: Position) {
    && Close(p.quantity, q.quantity) && Close(p.averagePrice, q.averagePrice) && Close(p.realizedPnl, q.realizedPnl)
    && Close(p.buyFees, q.buyFees) && p.open == q.open && p.direction == q.direction
  }

  lemma FaultsOfRows(symbol: string, p: Position, q: Position)
    ensures RowFaults(symbol, Some(p), Some(q)) == {} <==> Alike(p, q)
  {
    hide Close;
    var v := RowFaults(symbol, Some(p), Some(q));
    assert !Close(p.quantity, q.quantity) ==> QuantityDiffers(symbol) in v;
    assert !Close(p.averagePrice, q.averagePrice) ==> AverageDiffers(symbol) in v;
    assert !Close(p.realizedPnl, q.realizedPnl) ==> ProfitDiffers(symbol) in v;
    assert !Close(p.buyFees, q.buyFees) ==> FeesDiffer(symbol) in v;
    assert p.open != q.open ==> StatusDiffers(symbol) in v;
    assert p.direction != q.direction ==> DirectionDiffers(symbol) in v;
  }

  /** Neither is there, or both are and are alike. */
  predicate SameLast(stored: Option<Position>, replayed: Option<Position>) {
    stored.Some? == replayed.Some? && (stored.Some? ==> Alike(stored.value, replayed.value))
  }

  lemma RowFaultsExactly(symbol: string, stored: Option<Position>, replayed: Option<Position>)
    ensures RowFaults(symbol, stored, replayed) == {} <==> SameLast(stored, replayed)
  {
    hide Alike;
    if stored.Some? && replayed.Some? {
      FaultsOfRows(symbol, stored.value, replayed.value);
    } else if stored.None? && replayed.Some? {
      assert RowMissing(symbol) in RowFaults(symbol, stored, replayed);
    }
  }

  /** What was recorded for the symbol forms a book of rows the account may open, and its last row is alike
      to the last row booked. */
  predicate RecordedFits(s: Store, account: string, symbol: string)
    requires account in s.accounts
  {
    var book := Replay(TradesOf(s.trades, account, symbol));
    && book.Some? && (s.accounts[account].assetClass.ForexAsset? || AllLong(book.value))
    && SameLast(LastRow(RowsOf(s.positions, account, symbol)), LastRow(book.value))
  }

  lemma SymbolPassesOfInv(s: Store, p: Policy, account: string, symbol: string)
    requires Inv(s, p) && account in s.accounts
    ensures SymbolPasses(s, account, symbol) <==> RecordedFits(s, account, symbol)
  {
    hide Inv, ReplayRow, Replay, LastRow, RowsOf, TradesOf, RowFaults, SameLast, AllLong;
    var isForex, recorded := s.accounts[account].assetClass.ForexAsset?, TradesOf(s.trades, account, symbol);
    BookOfSymbol(s, p, account, symbol);
    ReplayIsBookExactly(recorded, isForex);
    RowFaultsExactly(symbol, LastRow(RowsOf(s.positions, account, symbol)), ReplayRow(recorded, isForex).row);
  }

  /** In every reachable state, whatever calls were cut off: a symbol passes exactly when what was recorded
      for it fits what was booked. */
  lemma SymbolPassesExactly(s: Store, p: Policy, accounts: map<string, Account>, account: string, symbol: string)
    requires Reachable(s, p, accounts) && account in s.accounts
    ensures SymbolPasses(s, account, symbol) <==> RecordedFits(s, account, symbol)
  {
    ReachableInv(s, p, accounts);
    SymbolPassesOfInv(s, p, account, symbol);
  }

  lemma {:induction false} TradedSymbolListed(trades: seq<Trade>, i: nat)
    requires i < |trades|
    ensures trades[i] in AccountTrades(trades, trades[i].accountId)
  {
    var n := |trades| - 1;
    if i < n {
      TradedSymbolListed(trades[..n], i);
    }
  }

  lemma TradedSymbol(s: Store, i: nat)
    requires i < |s.trades|
    ensures s.trades[i].symbol in TradedOrHeld(s, s.trades[i].accountId)
  {
    TradedSymbolListed(s.trades, i);
  }

  lemma UntradedSymbol(s: Store, p: Policy, account: string, symbol: string)
    requires Inv(s, p) && account in s.accounts && symbol !in TradedOrHeld(s, account)
    ensures TradesOf(s.trades, account, symbol) == [] && TradesOf(s.positionLog, account, symbol) == []
    ensures SymbolPasses(s, account, symbol)
  {
    hide OrdersOk, KeysOk, CashOk, BooksOk, LongOk, ValueOk, TradedOrHeld, SymbolPasses;
    if |TradesOf(s.trades, account, symbol)| > 0 {
      SomeTradeOf(s.trades, account, symbol);
      var i :| 0 <= i < |s.trades| && s.trades[i].accountId == account && s.trades[i].symbol == symbol;
      TradedSymbol(s, i);
    }
    if |TradesOf(s.positionLog, account, symbol)| > 0 {
      SomeTradeOf(s.positionLog, account, symbol);
      var j :| 0 <= j < |s.positionLog| && s.positionLog[j].accountId == account && s.positionLog[j].symbol == symbol;
      TradedSymbol(s, s.positionLog[j].tradeId);
    }
    BookedSymbolPasses(s, p, account, symbol);
  }

  /** The order, cash and position checks together, in every reachable state: they pass exactly when every
      traded order is filled, the trades that have not moved cash add up to nothing within the tolerance,
      and what was recorded for each symbol fits what was booked. */
  lemma ReconcilesExactly(s: Store, p: Policy, accounts: map<string, Account>, account: string)
    requires Reachable(s, p, accounts) && account in accounts
    ensures account in s.accounts
    ensures OrdersPass(s, account) && CashPasses(s, account, accounts[account].cash) && PositionsPass(s, account) <==>
            && (forall i | 0 <= i < |s.orders| && s.orders[i].accountId == account && HasTrade(s.trades, i) ::
                  s.orders[i].status == Filled)
            && Abs(TotalCashFlow(Missing(s.trades, s.cashLog), account)) <= EPSILON
            && (forall symbol :: RecordedFits(s, account, symbol))
  {
    hide Inv, CashPasses, RecordedFits, SymbolPasses, OrderCheck, HasTrade, TotalCashFlow, Missing;
    CashPassesExactly(s, p, accounts, account);
    OrdersPassExactly(s, p, accounts, account);
    ReachableInv(s, p, accounts);
    forall symbol ensures SymbolPasses(s, account, symbol) <==> RecordedFits(s, account, symbol) {
      SymbolPassesOfInv(s, p, account, symbol);
    }
    forall symbol | symbol !in TradedOrHeld(s, account) ensures SymbolPasses(s, account, symbol) {
      UntradedSymbol(s, p, account, symbol);
    }
    NoUnfilledOrders(s, account);
  }

  lemma NoUnfilledOrders(s: Store, account: string)
    requires forall v :: v in OrderCheck(s.orders, s.trades, account) <==>
               v.UnexpectedTrade? && v.order < |s.orders| && s.orders[v.order].accountId == account &&
               s.orders[v.order].status != Filled && HasTrade(s.trades, v.order)
    ensures OrdersPass(s, account) <==>
            forall i | 0 <= i < |s.orders| && s.orders[i].accountId == account && HasTrade(s.trades, i) ::
              s.orders[i].status == Filled
  {
    hide OrderCheck, HasTrade;
    if OrdersPass(s, account) {
      forall i | 0 <= i < |s.orders| && s.orders[i].accountId == account && HasTrade(s.trades, i)
        ensures s.orders[i].status == Filled
      {
        assert UnexpectedTrade(i) !in OrderCheck(s.orders, s.trades, account);
      }
    } else {
      var v :| v in OrderCheck(s.orders, s.trades, account);
      assert HasTrade(s.trades, v.order);
    }
  }

  // ---------- quantities that do not net out ----------

  /** What was recorded of the symbol and not booked, net. */
  function Unmatched(s: Store, account: string, symbol: string): real {
    NetQuantity(TradesOf(s.trades, account, symbol)) - NetQuantity(TradesOf(s.positionLog, account, symbol))
  }

  lemma AlikeHoldings(a: seq<Position>, b: seq<Position>)
    requires BookShape(a) && BookShape(b) && SameLast(LastRow(a), LastRow(b))
    ensures Abs(BookHolding(a) - BookHolding(b)) <= EPSILON
  {
  }

  lemma FitsNetsOut(s: Store, p: Policy, account: string, symbol: string)
    requires Inv(s, p) && account in s.accounts && RecordedFits(s, account, symbol)
    ensures Abs(Unmatched(s, account, symbol)) <= EPSILON
  {
    hide Inv, Replay, RowsOf, TradesOf, LastRow, SameLast, BookHolding, BookShape, AllLong;
    BookOfSymbol(s, p, account, symbol);
    BookConservesQuantity(TradesOf(s.trades, account, symbol));
    BookConservesQuantity(TradesOf(s.positionLog, account, symbol));
    AlikeHoldings(RowsOf(s.positions, account, symbol), Replay(TradesOf(s.trades, account, symbol)).value);
  }

  /** So in every reachable state an account passes only if what was recorded and not booked of each symbol
      nets out within the tolerance. */
  lemma PassingNetsOut(s: Store, p: Policy, accounts: map<string, Account>, account: string, symbol: string)
    requires Reachable(s, p, accounts) && account in s.accounts && PositionsPass(s, account)
    ensures Abs(Unmatched(s, account, symbol)) <= EPSILON
  {
    hide Inv, Reachable, RecordedFits, SymbolPasses, TradedOrHeld, Unmatched;
    ReachableInv(s, p, accounts);
    if symbol !in TradedOrHeld(s, account) {
      UntradedSymbol(s, p, account, symbol);
    }
    SymbolPassesOfInv(s, p, account, symbol);
    FitsNetsOut(s, p, account, symbol);
  }

  // ---------- when the rows pass ----------

  lemma {:induction false} RowStateExactly(rows: seq<Position>, account: string)
    requires forall i | 0 <= i < |rows| :: rows[i].quantity >= 0.0 && (rows[i].open <==> rows[i].quantity > 0.0)
    ensures RowStateCheck(rows, account) == {} <==>
            forall i | 0 <= i < |rows| && rows[i].accountId == account :: rows[i].open ==> rows[i].quantity > EPSILON
  {
    if |rows| > 0 {
      var n := |rows| - 1;
      RowStateExactly(rows[..n], account);
      assert RowStateFaults(n, rows[n]) == {} <==> (rows[n].open ==> rows[n].quantity > EPSILON) by {
        assert Close(rows[n].quantity, 0.0) && rows[n].open ==> EmptyRowOpen(n) in RowStateFaults(n, rows[n]);
      }
    }
  }

  /** In every reachable state the check of the rows themselves passes exactly when no open row holds as
      little as the tolerance. */
  lemma StatePassesExactly(s: Store, p: Policy, accounts: map<string, Account>, account: string)
    requires Reachable(s, p, accounts)
    ensures RowStateCheck(s.positions, account) == {} <==>
            forall i | 0 <= i < |s.positions| && s.positions[i].accountId == account ::
              s.positions[i].open ==> s.positions[i].quantity > EPSILON
  {
    ReachableInv(s, p, accounts);
    forall i | 0 <= i < |s.positions|
      ensures s.positions[i].quantity >= 0.0 && (s.positions[i].open <==> s.positions[i].quantity > 0.0)
    {
      RowShape(s, p, i);
    }
    RowStateExactly(s.positions, account);
  }

  lemma AverageOfPositives(quantity: real, price: real, added: real, addedPrice: real)
    requires quantity >= 0.0 && price > 0.0 && added > 0.0 && addedPrice > 0.0
    ensures WeightedAverage(quantity, price, added, addedPrice) > 0.0
  {
    assert quantity * price >= 0.0 && added * addedPrice > 0.0;
    PositiveQuotient(quantity * price + added * addedPrice, quantity + added);
  }

  lemma PositiveQuotient(x: real, y: real)
    requires x > 0.0 && y > 0.0
    ensures x / y > 0.0
  {
  }

  lemma StepKeepsAverages(book: seq<Position>, t: Trade)
    requires Executable(t) && BookShape(book) && BookStep(book, t).Some?
    requires forall i | 0 <= i < |book| :: book[i].averagePrice > 0.0
    ensures var after := BookStep(book, t).value; forall i | 0 <= i < |after| :: after[i].averagePrice > 0.0
  {
    hide WeightedAverage, Gain, FeesKept;
    var n := |book| - 1;
    if LastOpen(book) && SideOf(t.action) == book[n].direction {
      AverageOfPositives(book[n].quantity, book[n].averagePrice, t.quantity, t.fillPrice);
    }
  }

  lemma {:induction false} AveragesPositive(trades: seq<Trade>)
    requires AllExecutable(trades) && Replay(trades).Some?
    ensures var book := Replay(trades).value; forall i | 0 <= i < |book| :: book[i].averagePrice > 0.0
  {
    hide BookStep;
    if |trades| > 0 {
      var n := |trades| - 1;
      AveragesPositive(trades[..n]);
      BookConservesQuantity(trades[..n]);
      StepKeepsAverages(Replay(trades[..n]).value, trades[n]);
    }
  }

  lemma RowAverage(s: Store, p: Policy, i: nat)
    requires Inv(s, p) && i < |s.positions|
    ensures s.positions[i].averagePrice > 0.0
  {
    var account, symbol := s.positions[i].accountId, s.positions[i].symbol;
    BookOfSymbol(s, p, account, symbol);
    AveragesPositive(TradesOf(s.positionLog, account, symbol));
    RowInBook(s.positions, i, account, symbol);
    var book := RowsOf(s.positions, account, symbol);
    var j :| 0 <= j < |book| && book[j] == Plain(s.positions[i]);
  }

  /** The row has a positive stop below a long average or above a short one, and a known pair. */
  predicate Protected(p: Position, pairs: Pairs) {
    && p.stopLoss.Some? && p.stopLoss.value > 0.0
    && (if p.direction.Long? then p.stopLoss.value < p.averagePrice else p.stopLoss.value > p.averagePrice)
    && pairs(p.symbol)
  }

  lemma ForexFaultsExactly(i: nat, p: Position, pairs: Pairs)
    requires p.averagePrice > 0.0 && (p.open <==> p.quantity > 0.0)
    ensures ForexFaults(i, p, pairs) == {} <==> (p.open ==> Protected(p, pairs))
  {
    var v := ForexFaults(i, p, pairs);
    if p.open {
      assert p.stopLoss.None? ==> StopMissing(i) in v;
      assert p.stopLoss.Some? && !StopSideValid(p.direction, p.averagePrice, p.stopLoss.value) ==>
             StopOnWrongSide(i) in v;
      assert !pairs(p.symbol) ==> PipValueLost(i) in v;
      assert p.stopLoss.Some? && p.stopLoss.value <= 0.0 ==> MaximumLossLost(i) in v;
    }
  }

  lemma {:induction false} ForexCheckExactly(rows: seq<Position>, account: string, pairs: Pairs)
    requires forall i | 0 <= i < |rows| :: rows[i].averagePrice > 0.0 && (rows[i].open <==> rows[i].quantity > 0.0)
    ensures ForexCheck(rows, account, pairs) == {} <==>
            forall i | 0 <= i < |rows| && rows[i].accountId == account :: rows[i].open ==> Protected(rows[i], pairs)
  {
    hide ForexFaults, Protected;
    if |rows| > 0 {
      var n := |rows| - 1;
      ForexCheckExactly(rows[..n], account, pairs);
      ForexFaultsExactly(n, rows[n], pairs);
    }
  }

  /** In every reachable state the Forex check passes exactly when every open row of the account is
      protected: its average price is always positive, and margin and pip value need no more than the pair. */
  lemma ForexPassesExactly(s: Store, p: Policy, accounts: map<string, Account>, account: string, pairs: Pairs)
    requires Reachable(s, p, accounts)
    ensures ForexCheck(s.positions, account, pairs) == {} <==>
            forall i | 0 <= i < |s.positions| && s.positions[i].accountId == account ::
              s.positions[i].open ==> Protected(s.positions[i], pairs)
  {
    ReachableInv(s, p, accounts);
    forall i | 0 <= i < |s.positions|
      ensures s.positions[i].averagePrice > 0.0 && (s.positions[i].open <==> s.positions[i].quantity > 0.0)
    {
      RowShape(s, p, i);
      RowAverage(s, p, i);
    }
    ForexCheckExactly(s.positions, account, pairs);
  }
}
