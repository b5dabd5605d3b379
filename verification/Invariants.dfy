/** What every write of every submission keeps, so that it holds in each state any run can reach,
    including the states an aborted call leaves behind. */
module Invariants {
  import opened Options
  import opened Ledger
  import opened Gates
  import opened Submission
  import opened Books

  // ---------- sums over the logs and the table ----------

  /** What a trade does to cash. */
  function CashFlow(t: Trade): real {
    match t.action
    case Buy => -(Gross(t) + t.fee + t.tax)
    case Sell => Gross(t) - t.fee - t.tax
    case OtherAction(_) => 0.0
  }

  /** The same without the costs of a trade that enters the holding, which the position manager keeps
      out of profit and loss. */
  function NetFlow(t: Trade, side: Direction): real {
    CashFlow(t) + if SideOf(t.action) == side then t.fee + t.tax else 0.0
  }

  /** The direction of the row a trade meets after the trades of the log, or opens when they net to zero. */
  function RowSide(log: seq<Trade>, t: Trade): Direction {
    var net := NetQuantity(TradesOf(log, t.accountId, t.symbol));
    if net > 0.0 then Long else if net < 0.0 then Short else SideOf(t.action)
  }

  function TotalCashFlow(log: seq<Trade>, account: string): real {
    if |log| == 0 then 0.0
    else
      var n := |log| - 1;
      TotalCashFlow(log[..n], account) + if log[n].accountId == account then CashFlow(log[n]) else 0.0
  }

  function TotalNetFlow(log: seq<Trade>, account: string): real {
    if |log| == 0 then 0.0
    else
      var n := |log| - 1;
      TotalNetFlow(log[..n], account) +
      if log[n].accountId == account then NetFlow(log[n], RowSide(log[..n], log[n])) else 0.0
  }

  function AtCost(quantity: real, price: real): real {
    quantity * price
  }

  /** Realized profit less the cost basis still held; what a short owes counts against the basis. */
  function RowValue(p: Position): real {
    p.realizedPnl - AtCost(SignedHolding(p), p.averagePrice)
  }

  function TableValue(positions: seq<Position>, account: string): real {
    if |positions| == 0 then 0.0
    else
      var n := |positions| - 1;
      TableValue(positions[..n], account) + if positions[n].accountId == account then RowValue(positions[n]) else 0.0
  }

  // ---------- the invariant ----------

  const FILL_PATH := [New, Validated, Pending, Filled]
  const REJECT_PATH := [New, Rejected]

  /** The history is a prefix of one of the two paths and ends in the stored status. */
  predicate Lifecycle(o: Order) {
    && |o.history| > 0 && o.status == o.history[|o.history| - 1]
    && (o.history <= FILL_PATH || o.history <= REJECT_PATH)
    && (o.status == Rejected ==> o.note == InvalidAction)
  }

  predicate TradeOfOrder(t: Trade, o: Order) {
    && t.accountId == o.accountId && t.symbol == o.symbol && t.action == o.action
    && t.quantity == o.quantity && t.fillPrice == o.requestedPrice
    && (o.status == Pending || o.status == Filled)
    && (o.status == Filled ==>
          o.filledPrice == t.fillPrice && o.filledQuantity == t.quantity && o.filledAt == Some(t.executedAt))
  }

  predicate HasTrade(trades: seq<Trade>, orderId: nat) {
    exists i | 0 <= i < |trades| :: trades[i].orderId == orderId
  }

  predicate OrdersOk(s: Store) {
    && (forall i | 0 <= i < |s.orders| :: Lifecycle(s.orders[i]))
    && (forall i | 0 <= i < |s.orders| :: s.orders[i].status == Filled ==> HasTrade(s.trades, i))
  }

  predicate TradesOk(s: Store) {
    && (forall i | 0 <= i < |s.trades| ::
          s.trades[i].tradeId == i && Executable(s.trades[i]) && s.trades[i].orderId < |s.orders|)
    && (forall i | 0 <= i < |s.trades| :: TradeOfOrder(s.trades[i], s.orders[s.trades[i].orderId]))
    && (forall i, j | 0 <= i < j < |s.trades| :: s.trades[i].orderId < s.trades[j].orderId)
  }

  /** A log lists recorded trades in increasing id order, so none of them twice. */
  predicate LogOk(log: seq<Trade>, trades: seq<Trade>) {
    && (forall i | 0 <= i < |log| :: log[i].tradeId < |trades| && trades[log[i].tradeId] == log[i])
    && (forall i, j | 0 <= i < j < |log| :: log[i].tradeId < log[j].tradeId)
  }

  predicate LogsOk(s: Store) {
    && LogOk(s.cashLog, s.trades) && LogOk(s.positionLog, s.trades)
    && (forall i | 0 <= i < |s.positionLog| :: s.positionLog[i] in s.cashLog)
  }

  /** A recorded key points to a filled order, its trade, and both of that trade's effects. */
  predicate KeyComplete(s: Store, row: KeyRow) {
    && row.orderId < |s.orders| && s.orders[row.orderId].status == Filled
    && row.tradeId < |s.trades| && s.trades[row.tradeId].orderId == row.orderId
    && s.trades[row.tradeId].accountId == row.accountId
    && s.trades[row.tradeId] in s.cashLog && s.trades[row.tradeId] in s.positionLog
  }

  predicate KeysOk(s: Store) {
    forall k | k in s.keys :: KeyComplete(s, s.keys[k])
  }

  predicate CashOk(s: Store) {
    && s.opening.Keys == s.accounts.Keys
    && (forall a | a in s.accounts :: s.accounts[a].cash == s.opening[a] + TotalCashFlow(s.cashLog, a))
    && (forall a | a in s.accounts :: s.opening[a] >= 0.0 ==> s.accounts[a].cash >= 0.0)
  }

  predicate BookOk(s: Store, account: string, symbol: string) {
    Replay(TradesOf(s.positionLog, account, symbol)) == Some(RowsOf(s.positions, account, symbol))
  }

  ghost predicate BooksOk(s: Store) {
    forall a, y :: BookOk(s, a, y)
  }

  /** Accounts that cannot short hold only long rows. */
  predicate LongOk(s: Store, p: Policy) {
    forall i | 0 <= i < |s.positions| :: !MayShort(s, p, s.positions[i].accountId) ==> s.positions[i].direction.Long?
  }

  /** An account's rows are worth the flow of the trades that made them. */
  ghost predicate ValueOk(s: Store) {
    forall a :: TableValue(s.positions, a) == TotalNetFlow(s.positionLog, a)
  }

  ghost predicate Inv(s: Store, p: Policy) {
    OrdersOk(s) && TradesOk(s) && LogsOk(s) && KeysOk(s) && CashOk(s) && BooksOk(s) && LongOk(s, p) && ValueOk(s)
  }

  // ---------- each part is kept by every prefix of a call ----------

  /** The call's own order row is on one of the two paths, and matches its trade once that exists. */
  lemma OrderRowOk(s: Store, p: Policy, c: Call, k: nat)
    requires Refusal(s, p, c).None? && INSERTED <= k <= Limit(s, p, c)
    ensures Lifecycle(OrderAt(s, p, c, k))
    ensures k >= TRADED ==> Executable(TradeOf(s, p, c)) && TradeOfOrder(TradeOf(s, p, c), OrderAt(s, p, c, k))
    ensures OrderAt(s, p, c, k).status == Filled ==> k >= TRADED
  {
    PassedGates(s, p, c);
  }

  lemma HasTradeMonotone(trades: seq<Trade>, more: seq<Trade>, orderId: nat)
    requires HasTrade(trades, orderId)
    ensures HasTrade(trades + more, orderId)
  {
    var j :| 0 <= j < |trades| && trades[j].orderId == orderId;
    assert (trades + more)[j].orderId == orderId;
  }

  lemma OrdersKept(s: Store, p: Policy, c: Call, k: nat)
    requires OrdersOk(s) && TradesOk(s) && k <= Limit(s, p, c)
    ensures OrdersOk(Partial(s, p, c, k)) && TradesOk(Partial(s, p, c, k))
  {
    hide Refusal, OrderAt, Lifecycle, TradeOfOrder, Executable, RowsAt, RowsAfter, BalanceAfter;
    if k > 0 {
      OrderRowOk(s, p, c, k);
      var t := TradeOf(s, p, c);
      if k >= TRADED {
        assert (s.trades + [t])[|s.trades|].orderId == |s.orders|;
        forall i | 0 <= i < |s.orders| && s.orders[i].status == Filled
          ensures HasTrade(s.trades + [t], i)
        {
          HasTradeMonotone(s.trades, [t], i);
        }
      }
    }
  }

  lemma LogExtends(log: seq<Trade>, trades: seq<Trade>, t: Trade)
    requires LogOk(log, trades) && t.tradeId == |trades|
    ensures LogOk(log, trades + [t]) && LogOk(log + [t], trades + [t])
  {
  }

  lemma LogsKept(s: Store, p: Policy, c: Call, k: nat)
    requires LogsOk(s) && k <= Limit(s, p, c)
    ensures LogsOk(Partial(s, p, c, k))
  {
    hide Refusal;
    if k >= TRADED {
      LogExtends(s.cashLog, s.trades, TradeOf(s, p, c));
      LogExtends(s.positionLog, s.trades, TradeOf(s, p, c));
    }
  }

  lemma KeysKept(s: Store, p: Policy, c: Call, k: nat)
    requires KeysOk(s) && k <= Limit(s, p, c)
    ensures KeysOk(Partial(s, p, c, k))
  {
    hide Refusal;
    var after := Partial(s, p, c, k);
    forall key | key in after.keys
      ensures KeyComplete(after, after.keys[key])
    {
      if key in s.keys && after.keys[key] == s.keys[key] {
        assert KeyComplete(s, s.keys[key]);
      }
    }
  }

  lemma CashFlowOfUpdate(cash: real, t: Trade)
    requires CashAfter(cash, t).Some?
    ensures CashAfter(cash, t).value == cash + CashFlow(t)
    ensures CashAfter(cash, t).value >= 0.0
  {
  }

  lemma CashKept(s: Store, p: Policy, c: Call, k: nat)
    requires CashOk(s) && k <= Limit(s, p, c)
    ensures CashOk(Partial(s, p, c, k))
  {
    hide Refusal;
    if k >= CASHED {
      PassedGates(s, p, c);
      var t := TradeOf(s, p, c);
      var after := Partial(s, p, c, k);
      assert after.cashLog[..|s.cashLog|] == s.cashLog;
      CashFlowOfUpdate(s.accounts[c.accountId].cash, t);
    }
  }

  lemma LevelsKeepBooks(rows: seq<Position>, i: nat, stop: Option<real>, take: Option<real>, account: string,
      symbol: string)
    requires i < |rows|
    ensures RowsOf(rows[i := rows[i].(stopLoss := stop, takeProfit := take)], account, symbol) ==
        RowsOf(rows, account, symbol)
  {
    UpdateElsewhere(rows, i, rows[i].(stopLoss := stop, takeProfit := take), account, symbol);
  }

  lemma {:induction false} LogTradesExecutable(log: seq<Trade>, trades: seq<Trade>, account: string, symbol: string)
    requires LogOk(log, trades)
    requires forall i | 0 <= i < |trades| :: Executable(trades[i])
    ensures AllExecutable(TradesOf(log, account, symbol))
  {
    if |log| > 0 {
      LogTradesExecutable(log[..|log| - 1], trades, account, symbol);
    }
  }

  /** In a state where the books agree with the log they have the shape of a book. */
  lemma BookOfState(s: Store, account: string, symbol: string)
    requires TradesOk(s) && LogsOk(s) && BookOk(s, account, symbol)
    ensures AllExecutable(TradesOf(s.positionLog, account, symbol))
    ensures BookShape(RowsOf(s.positions, account, symbol))
    ensures BookHolding(RowsOf(s.positions, account, symbol)) == NetQuantity(TradesOf(s.positionLog, account, symbol))
  {
    LogTradesExecutable(s.positionLog, s.trades, account, symbol);
    BookConservesQuantity(TradesOf(s.positionLog, account, symbol));
  }

  lemma TradesOfAppend(log: seq<Trade>, t: Trade, account: string, symbol: string)
    ensures TradesOf(log + [t], account, symbol) ==
            TradesOf(log, account, symbol) + if t.accountId == account && t.symbol == symbol then [t] else []
  {
    assert (log + [t])[..|log|] == log;
  }

  lemma BookAfterTrade(s: Store, t: Trade, mayShort: bool, account: string, symbol: string)
    requires TradesOk(s) && LogsOk(s) && BooksOk(s) && PositionsAfter(s.positions, t, mayShort).Some?
    ensures Replay(TradesOf(s.positionLog + [t], account, symbol)) ==
            Some(RowsOf(PositionsAfter(s.positions, t, mayShort).value, account, symbol))
  {
    assert BookOk(s, account, symbol) && BookOk(s, t.accountId, t.symbol);
    BookOfState(s, t.accountId, t.symbol);
    TableStepIsBookStep(s.positions, t, mayShort, account, symbol);
    TradesOfAppend(s.positionLog, t, account, symbol);
    ReplayAppend(TradesOf(s.positionLog, account, symbol), t);
    if account != t.accountId || symbol != t.symbol {
      assert TradesOf(s.positionLog + [t], account, symbol) == TradesOf(s.positionLog, account, symbol);
    }
  }

  lemma BookKept(s: Store, p: Policy, c: Call, k: nat, account: string, symbol: string)
    requires TradesOk(s) && LogsOk(s) && BooksOk(s) && k <= Limit(s, p, c)
    ensures BookOk(Partial(s, p, c, k), account, symbol)
  {
    hide Refusal;
    assert BookOk(s, account, symbol);
    if k >= POSITIONED {
      BookAfterTrade(s, TradeOf(s, p, c), MayShort(s, p, c.accountId), account, symbol);
      RowIndexInRange(s, p, c);
      if k > POSITIONED && c.stopLoss.Some? {
        var rows := RowsAfter(s, p, c).value;
        var i := RowIndex(s, p, c);
        LevelsKeepBooks(rows, i, c.stopLoss, rows[i].takeProfit, account, symbol);
      }
    }
  }

  // ---------- long accounts ----------

  lemma {:induction false} TableValueUpdate(rows: seq<Position>, i: nat, p: Position, account: string)
    requires i < |rows| && p.accountId == rows[i].accountId
    ensures TableValue(rows[i := p], account) ==
            TableValue(rows, account) + if p.accountId == account then RowValue(p) - RowValue(rows[i]) else 0.0
  {
    var n := |rows| - 1;
    if i < n {
      assert rows[i := p][..n] == rows[..n][i := p];
      TableValueUpdate(rows[..n], i, p, account);
    } else {
      assert rows[i := p][..n] == rows[..n];
    }
  }

  lemma WeightedAverageBasis(quantity: real, price: real, added: real, addedPrice: real)
    requires quantity + added != 0.0
    ensures (quantity + added) * WeightedAverage(quantity, price, added, addedPrice) ==
        quantity * price + added * addedPrice
  {
  }

  lemma BasisLeft(held: real, sold: real, price: real)
    ensures (held - sold) * price == held * price - sold * price
    ensures -(held - sold) * price == sold * price - held * price
    ensures -held * price == -(held * price)
  {
  }

  /** A trade moves a row's value by exactly its net flow, whichever way the row points. */
  lemma RowStep(p: Position, t: Trade)
    requires !t.action.OtherAction? && Touched(p, t).Some?
    ensures RowValue(Touched(p, t).value) == RowValue(p) + NetFlow(t, p.direction)
    ensures Touched(p, t).value.direction == p.direction && Touched(p, t).value.accountId == p.accountId
  {
    if SideOf(t.action) == p.direction {
      WeightedAverageBasis(p.quantity, p.averagePrice, t.quantity, t.fillPrice);
      BasisLeft(p.quantity + t.quantity, 0.0, Touched(p, t).value.averagePrice);
    } else {
      GainSplits(p.direction, t.fillPrice, p.averagePrice, t.quantity);
    }
    BasisLeft(p.quantity, t.quantity, p.averagePrice);
  }

  lemma GainSplits(direction: Direction, fill: real, average: real, quantity: real)
    ensures Gain(direction, fill, average, quantity) ==
            if direction.Long? then quantity * fill - quantity * average else quantity * average - quantity * fill
  {
  }

  lemma OpenedValue(t: Trade)
    requires !t.action.OtherAction?
    ensures RowValue(Opened(t)) == NetFlow(t, SideOf(t.action))
  {
    BasisLeft(t.quantity, 0.0, t.fillPrice);
  }

  /** The direction of the row a trade meets is the one its log says. */
  lemma SideOfOpenRow(s: Store, t: Trade)
    requires TradesOk(s) && LogsOk(s) && BooksOk(s)
    ensures var open := OpenPosition(s.positions, t.accountId, t.symbol);
            RowSide(s.positionLog, t) == if open.Some? then open.value.direction else SideOf(t.action)
  {
    hide TradesOk, LogsOk, Replay, RowsOf, TradesOf, NetQuantity, OpenIndex;
    assert BookOk(s, t.accountId, t.symbol);
    BookOfState(s, t.accountId, t.symbol);
    OpenIsBookEnd(s.positions, t.accountId, t.symbol);
  }

  lemma ValueAfterTrade(positions: seq<Position>, t: Trade, mayShort: bool, account: string)
    requires PositionsAfter(positions, t, mayShort).Some?
    ensures var open := OpenPosition(positions, t.accountId, t.symbol);
            var side := if open.Some? then open.value.direction else SideOf(t.action);
            TableValue(PositionsAfter(positions, t, mayShort).value, account) ==
            TableValue(positions, account) + if t.accountId == account then NetFlow(t, side) else 0.0
  {
    hide RowValue, NetFlow;
    var rows := PositionsAfter(positions, t, mayShort).value;
    match OpenIndex(positions, t.accountId, t.symbol)
    case None =>
      assert rows[..|positions|] == positions;
      OpenedValue(t);
    case Some(i) =>
      RowStep(positions[i], t);
      TableValueUpdate(positions, i, rows[i], account);
  }

  lemma LongRowsAfter(positions: seq<Position>, t: Trade)
    requires PositionsAfter(positions, t, false).Some?
    requires forall i | 0 <= i < |positions| :: positions[i].accountId == t.accountId ==> positions[i].direction.Long?
    ensures var rows := PositionsAfter(positions, t, false).value;
            forall i | 0 <= i < |rows| :: rows[i].accountId == t.accountId ==> rows[i].direction.Long?
  {
  }

  /** A trade writes rows of its own account only. */
  lemma OtherAccountsRows(positions: seq<Position>, t: Trade, mayShort: bool)
    requires PositionsAfter(positions, t, mayShort).Some?
    ensures var rows := PositionsAfter(positions, t, mayShort).value;
            forall i | 0 <= i < |rows| :: rows[i].accountId != t.accountId ==>
              i < |positions| && rows[i] == positions[i]
  {
  }

  lemma LevelsKeepValue(rows: seq<Position>, i: nat, stop: Option<real>, take: Option<real>, account: string)
    requires i < |rows|
    ensures TableValue(rows[i := rows[i].(stopLoss := stop, takeProfit := take)], account) == TableValue(rows, account)
  {
    TableValueUpdate(rows, i, rows[i].(stopLoss := stop, takeProfit := take), account);
  }

  predicate RowsLong(rows: seq<Position>, s: Store, p: Policy) {
    forall i | 0 <= i < |rows| :: !MayShort(s, p, rows[i].accountId) ==> rows[i].direction.Long?
  }

  lemma LongAfterTrade(s: Store, p: Policy, c: Call)
    requires LongOk(s, p) && Limit(s, p, c) >= POSITIONED
    ensures RowsLong(RowsAfter(s, p, c).value, s, p)
  {
    hide Refusal;
    var t := TradeOf(s, p, c);
    OtherAccountsRows(s.positions, t, MayShort(s, p, c.accountId));
    if !MayShort(s, p, c.accountId) {
      LongRowsAfter(s.positions, t);
    }
  }

  lemma MayShortKept(s: Store, p: Policy, c: Call, k: nat, account: string)
    requires k <= Limit(s, p, c)
    ensures MayShort(Partial(s, p, c, k), p, account) == MayShort(s, p, account)
    ensures Partial(s, p, c, k).accounts.Keys == s.accounts.Keys
  {
    hide Refusal;
    if k >= CASHED {
      PassedGates(s, p, c);
    }
  }

  lemma LongKept(s: Store, p: Policy, c: Call, k: nat)
    requires LongOk(s, p) && k <= Limit(s, p, c)
    ensures LongOk(Partial(s, p, c, k), p)
  {
    hide Refusal;
    var after := Partial(s, p, c, k);
    forall a ensures MayShort(after, p, a) == MayShort(s, p, a) {
      MayShortKept(s, p, c, k, a);
    }
    if k >= POSITIONED {
      LongAfterTrade(s, p, c);
      RowIndexInRange(s, p, c);
    }
  }

  lemma FlowAppend(log: seq<Trade>, t: Trade, account: string)
    ensures TotalNetFlow(log + [t], account) ==
            TotalNetFlow(log, account) + if t.accountId == account then NetFlow(t, RowSide(log, t)) else 0.0
  {
    assert (log + [t])[..|log|] == log;
  }

  lemma ValueKept(s: Store, p: Policy, c: Call, k: nat, account: string)
    requires TradesOk(s) && LogsOk(s) && BooksOk(s) && k <= Limit(s, p, c)
    requires TableValue(s.positions, account) == TotalNetFlow(s.positionLog, account)
    ensures var after := Partial(s, p, c, k);
            TableValue(after.positions, account) == TotalNetFlow(after.positionLog, account)
  {
    hide Refusal, TradesOk, LogsOk, BooksOk, TableValue, TotalNetFlow, NetFlow, RowSide, OpenPosition;
    if k >= POSITIONED {
      var t := TradeOf(s, p, c);
      SideOfOpenRow(s, t);
      ValueAfterTrade(s.positions, t, MayShort(s, p, c.accountId), account);
      FlowAppend(s.positionLog, t, account);
      RowIndexInRange(s, p, c);
      if k > POSITIONED && c.stopLoss.Some? {
        var rows := RowsAfter(s, p, c).value;
        var i := RowIndex(s, p, c);
        LevelsKeepValue(rows, i, c.stopLoss, rows[i].takeProfit, account);
      }
    }
  }

  // ---------- every state of every run ----------

  lemma SubmissionKeepsInv(s: Store, p: Policy, c: Call, k: nat)
    requires Inv(s, p) && k <= Limit(s, p, c)
    ensures Inv(Partial(s, p, c, k), p)
  {
    OrdersKept(s, p, c, k);
    LogsKept(s, p, c, k);
    KeysKept(s, p, c, k);
    CashKept(s, p, c, k);
    LongKept(s, p, c, k);
    forall a, y ensures BookOk(Partial(s, p, c, k), a, y) {
      BookKept(s, p, c, k, a, y);
    }
    forall a ensures TableValue(Partial(s, p, c, k).positions, a) == TotalNetFlow(Partial(s, p, c, k).positionLog, a) {
      ValueKept(s, p, c, k, a);
    }
  }

  lemma EditKeepsInv(s: Store, p: Policy, id: nat, stop: Option<real>, take: Option<real>)
    requires Inv(s, p)
    ensures Inv(EditedLevels(s, id, stop, take), p)
  {
    var after := EditedLevels(s, id, stop, take);
    if after != s {
      forall a, y ensures BookOk(after, a, y) {
        assert BookOk(s, a, y);
        LevelsKeepBooks(s.positions, id, stop, take, a, y);
      }
      forall a ensures TableValue(after.positions, a) == TableValue(s.positions, a) {
        LevelsKeepValue(s.positions, id, stop, take, a);
      }
      forall k | k in after.keys ensures KeyComplete(after, after.keys[k]) {
        assert KeyComplete(s, s.keys[k]);
      }
    }
  }

  lemma {:induction false} RunKeepsInv(s: Store, p: Policy, events: seq<Event>)
    requires Inv(s, p)
    ensures Inv(Run(s, p, events), p)
  {
    if |events| > 0 {
      var n := |events| - 1;
      RunKeepsInv(s, p, events[..n]);
      var before := Run(s, p, events[..n]);
      match events[n]
      case Submit(c, writes) => SubmissionKeepsInv(before, p, c, Min(writes, Limit(before, p, c)));
      case EditLevels(id, stop, take) => EditKeepsInv(before, p, id, stop, take);
    }
  }

  /** The invariant holds in every reachable state of any accounts. */
  lemma ReachableInv(s: Store, p: Policy, accounts: map<string, Account>)
    requires Reachable(s, p, accounts)
    ensures Inv(s, p)
  {
    var events: seq<Event> :| s == Run(Fresh(accounts), p, events);
    RunKeepsInv(Fresh(accounts), p, events);
  }
}
