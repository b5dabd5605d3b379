/** What each single finding of the consistency check says about the tables, for any store, reachable or not. */
module FindingMeaning {
  import opened Options
  import opened Ledger
  import opened Gates
  import opened Books
  import opened Invariants
  import opened EpisodeBooks
  import opened Reconciliation

  // ---------- orders ----------

  /** The account's trades with this order id. */
  function Own(trades: seq<Trade>, account: string, order: nat): set<nat> {
    set j: nat | j < |trades| && trades[j].accountId == account && trades[j].orderId == order
  }

  predicate FilledOnce(orders: seq<Order>, trades: seq<Trade>, account: string, i: nat, j: nat) {
    && i < |orders| && orders[i].accountId == account && orders[i].status == Filled
    && j < |trades| && Own(trades, account, i) == {j}
  }

  /** The condition on the two tables that a finding about an order stands for. */
  predicate OrderViolation(orders: seq<Order>, trades: seq<Trade>, account: string, v: Violation) {
    match v
    case NotOneTrade(i) =>
      i < |orders| && orders[i].accountId == account && orders[i].status == Filled && |Own(trades, account, i)| != 1
    case FillPriceDiffers(i) =>
      exists j: nat | j < |trades| :: FilledOnce(orders, trades, account, i, j) &&
                                     orders[i].filledPrice != trades[j].fillPrice
    case FillQuantityDiffers(i) =>
      exists j: nat | j < |trades| :: FilledOnce(orders, trades, account, i, j) &&
                                     orders[i].filledQuantity != trades[j].quantity
    case FillTimeDiffers(i) =>
      exists j: nat | j < |trades| :: FilledOnce(orders, trades, account, i, j) &&
                                     orders[i].filledAt != Some(trades[j].executedAt)
    case UnexpectedTrade(i) =>
      i < |orders| && orders[i].accountId == account && orders[i].status != Filled && Own(trades, account, i) != {}
    case _ => false
  }

  lemma OwnStep(trades: seq<Trade>, account: string, order: nat)
    requires |trades| > 0
    ensures var n := |trades| - 1;
            Own(trades, account, order) ==
            Own(trades[..n], account, order) +
            if trades[n].accountId == account && trades[n].orderId == order then {n} else {}
    ensures |trades| - 1 !in Own(trades[..|trades| - 1], account, order)
  {
  }

  lemma {:induction false} OwnTrades(trades: seq<Trade>, account: string, order: nat)
    ensures |TradesFor(trades, account, order)| == |Own(trades, account, order)|
    ensures |Own(trades, account, order)| == 1 ==>
              exists j: nat :: j < |trades| && Own(trades, account, order) == {j} &&
                               trades[j] == TradesFor(trades, account, order)[0]
  {
    if |trades| == 0 {
      assert Own(trades, account, order) == {};
    } else {
      hide Own;
      var n := |trades| - 1;
      OwnTrades(trades[..n], account, order);
      OwnStep(trades, account, order);
      var earlier, own := Own(trades[..n], account, order), Own(trades, account, order);
      if trades[n].accountId == account && trades[n].orderId == order {
        assert own == earlier + {n} && |own| == |earlier| + 1;
        assert |earlier| == 0 ==> own == {n};
      } else {
        assert own == earlier;
      }
    }
  }

  lemma UnfilledFaults(orders: seq<Order>, trades: seq<Trade>, i: nat, v: Violation)
    requires i < |orders| && (orders[i].status != Filled || |Own(trades, orders[i].accountId, i)| != 1)
    ensures var account := orders[i].accountId;
            v in OrderFaults(i, orders[i], TradesFor(trades, account, i)) <==>
            OrderViolation(orders, trades, account, v) && OrderOf(v) == i
  {
    hide TradesFor, Own;
    var own := Own(trades, orders[i].accountId, i);
    OwnTrades(trades, orders[i].accountId, i);
    forall k: nat | own == {k} ensures |own| == 1 {
    }
    assert |own| == 0 <==> own == {};
  }

  lemma OnlyFilled(orders: seq<Order>, trades: seq<Trade>, account: string, i: nat, j: nat)
    requires FilledOnce(orders, trades, account, i, j)
    ensures forall k: nat :: FilledOnce(orders, trades, account, i, k) <==> k == j
    ensures |Own(trades, account, i)| == 1
  {
    forall k: nat | FilledOnce(orders, trades, account, i, k) ensures k == j {
      assert k in {j};
    }
  }

  lemma FilledFaults(orders: seq<Order>, trades: seq<Trade>, i: nat, j: nat, v: Violation)
    requires i < |orders| && FilledOnce(orders, trades, orders[i].accountId, i, j) && j < |trades|
    requires orders[i].status == Filled && |Own(trades, orders[i].accountId, i)| == 1
    requires TradesFor(trades, orders[i].accountId, i) == [trades[j]]
    requires forall k: nat :: FilledOnce(orders, trades, orders[i].accountId, i, k) <==> k == j
    ensures var account := orders[i].accountId;
            v in OrderFaults(i, orders[i], TradesFor(trades, account, i)) <==>
            OrderViolation(orders, trades, account, v) && OrderOf(v) == i
  {
    hide TradesFor, Own, FilledOnce;
  }

  lemma FaultsOfOrder(orders: seq<Order>, trades: seq<Trade>, i: nat, v: Violation)
    requires i < |orders|
    ensures var account := orders[i].accountId;
            v in OrderFaults(i, orders[i], TradesFor(trades, account, i)) <==>
            OrderViolation(orders, trades, account, v) && OrderOf(v) == i
  {
    hide TradesFor, Own, OrderFaults, OrderViolation;
    var account := orders[i].accountId;
    if orders[i].status != Filled || |Own(trades, account, i)| != 1 {
      UnfilledFaults(orders, trades, i, v);
    } else {
      OwnTrades(trades, account, i);
      var j: nat :| j < |trades| && Own(trades, account, i) == {j} && trades[j] == TradesFor(trades, account, i)[0];
      OnlyFilled(orders, trades, account, i, j);
      FilledFaults(orders, trades, i, j, v);
    }
  }

  function OrderOf(v: Violation): int {
    match v
    case NotOneTrade(i) => i
    case FillPriceDiffers(i) => i
    case FillQuantityDiffers(i) => i
    case FillTimeDiffers(i) => i
    case UnexpectedTrade(i) => i
    case _ => -1
  }

  lemma {:induction false} FindingsOfOrders(
    orders: seq<Order>, n: nat, trades: seq<Trade>, account: string, v: Violation)
    requires n <= |orders|
    ensures v in OrderCheck(orders[..n], trades, account) <==>
            OrderViolation(orders, trades, account, v) && OrderOf(v) < n
  {
    hide OrderFaults, OrderViolation;
    if n == 0 {
      OrderNumbered(orders, trades, account, v);
    } else {
      FindingsOfOrders(orders, n - 1, trades, account, v);
      assert orders[..n][..n - 1] == orders[..n - 1];
      FaultsOfOrder(orders, trades, n - 1, v);
      OtherAccountsOrder(orders, trades, account, v);
    }
  }

  lemma OrderNumbered(orders: seq<Order>, trades: seq<Trade>, account: string, v: Violation)
    ensures OrderViolation(orders, trades, account, v) ==> 0 <= OrderOf(v) < |orders|
  {
  }

  lemma OtherAccountsOrder(orders: seq<Order>, trades: seq<Trade>, account: string, v: Violation)
    ensures OrderViolation(orders, trades, account, v) ==>
              0 <= OrderOf(v) < |orders| && orders[OrderOf(v)].accountId == account
  {
  }

  /** The order check finds exactly: FILLED orders without exactly one trade, FILLED orders whose one trade
      has another price, quantity or time, and traded orders with any other status. */
  lemma OrderFindingsExactly(orders: seq<Order>, trades: seq<Trade>, account: string, v: Violation)
    ensures v in OrderCheck(orders, trades, account) <==> OrderViolation(orders, trades, account, v)
  {
    hide OrderCheck, OrderViolation;
    assert orders[..|orders|] == orders;
    FindingsOfOrders(orders, |orders|, trades, account, v);
    OrderNumbered(orders, trades, account, v);
  }

  // ---------- cash ----------

  /** What each trade adds to cash. */
  function Flows(trades: seq<Trade>): (r: seq<real>)
    ensures |r| == |trades|
    ensures forall i | 0 <= i < |r| ::
              r[i] == match trades[i].action
                      case Buy => -(trades[i].quantity * trades[i].fillPrice + trades[i].fee + trades[i].tax)
                      case Sell => trades[i].quantity * trades[i].fillPrice - trades[i].fee - trades[i].tax
                      case OtherAction(_) => 0.0
  {
    seq(|trades|, i requires 0 <= i < |trades| => CashFlow(trades[i]))
  }

  lemma {:induction false} ExpectedIsSum(start: real, trades: seq<Trade>)
    ensures ExpectedCash(start, trades) == start + Sum(Flows(trades))
  {
    hide CashFlow;
    if |trades| > 0 {
      var n := |trades| - 1;
      ExpectedIsSum(start, trades[..n]);
      assert Flows(trades)[..n] == Flows(trades[..n]);
      assert Flows(trades)[n] == CashFlow(trades[n]) by { FlowOf(trades[n]); }
    }
  }

  lemma FlowOf(t: Trade)
    ensures Flows([t])[0] == CashFlow(t)
  {
  }

  /** Cash differs exactly when opening cash and all flows do not add up to it, within the tolerance. */
  lemma CashFindingExactly(start: real, cash: real, trades: seq<Trade>)
    ensures CashDiffers in CashCheck(Some(start), cash, trades) <==>
            var gap := start + Sum(Flows(trades)) - cash; gap > 0.000000001 || gap < -0.000000001
    ensures CashCheck(None, cash, trades) == {}
  {
    hide Flows;
    ExpectedIsSum(start, trades);
    NoCashGap(trades);
  }

  lemma {:induction false} NoCashGap(trades: seq<Trade>)
    ensures CashDiffers !in UnknownActions(trades)
  {
    if |trades| > 0 {
      NoCashGap(trades[..|trades| - 1]);
    }
  }

  lemma {:induction false} UnknownActionsExactly(trades: seq<Trade>, v: Violation)
    ensures v in UnknownActions(trades) <==>
            v.UnknownAction? &&
            exists j: nat | j < |trades| :: trades[j].action.OtherAction? && trades[j].tradeId == v.trade
  {
    if |trades| > 0 {
      var n := |trades| - 1;
      UnknownActionsExactly(trades[..n], v);
      assert forall j | 0 <= j < n :: trades[..n][j] == trades[j];
    }
  }

  // ---------- one symbol's replay ----------

  predicate NothingHeld(row: Option<Position>) {
    row.None? || !row.value.open
  }

  /** Why a replay that has reached the row can do nothing with the trade: an unknown action, a SELL of
      nothing where no short may be opened, or more than is held on the other side. */
  predicate Reason(row: Option<Position>, t: Trade, isForex: bool, v: Violation) {
    match v
    case UnknownAction(id) => id == t.tradeId && t.action.OtherAction?
    case SoldFromFlat(id) => id == t.tradeId && t.action.Sell? && NothingHeld(row) && !isForex
    case ExceedsHolding(id) =>
      && id == t.tradeId && !t.action.OtherAction? && !NothingHeld(row)
      && t.action.Buy? == row.value.direction.Short? && t.quantity > row.value.quantity
    case _ => false
  }

  predicate Refused(row: Option<Position>, t: Trade, isForex: bool) {
    || Reason(row, t, isForex, UnknownAction(t.tradeId))
    || Reason(row, t, isForex, SoldFromFlat(t.tradeId))
    || Reason(row, t, isForex, ExceedsHolding(t.tradeId))
  }

  /** The last row of the book of the trades. */
  function Reached(trades: seq<Trade>): Option<Position> {
    if Replay(trades).Some? && |Replay(trades).value| > 0 then Some(Replay(trades).value[|Replay(trades).value| - 1])
    else None
  }

  /** The trades a replay applies: all but those it can do nothing with. */
  function Kept(trades: seq<Trade>, isForex: bool): seq<Trade> {
    if |trades| == 0 then []
    else
      var n := |trades| - 1;
      var earlier := Kept(trades[..n], isForex);
      if Refused(Reached(earlier), trades[n], isForex) then earlier else earlier + [trades[n]]
  }

  predicate RefusedAs(trades: seq<Trade>, isForex: bool, j: nat, v: Violation)
    requires j < |trades|
  {
    Reason(Reached(Kept(trades[..j], isForex)), trades[j], isForex, v)
  }

  lemma KeptStep(kept: seq<Trade>, faults: set<Violation>, t: Trade, isForex: bool, v: Violation)
    requires Replay(kept).Some? && !ReplayStep(Replayed(Reached(kept), faults), t, isForex).Failed?
    ensures var r := ReplayStep(Replayed(Reached(kept), faults), t, isForex);
            var after := if Refused(Reached(kept), t, isForex) then kept else kept + [t];
            && Replay(after).Some? && r.row == Reached(after)
            && (v in r.faults <==> v in faults || Reason(Reached(kept), t, isForex, v))
  {
    hide Gain, FeesKept, WeightedAverage, Replay;
    ReplayAppend(kept, t);
  }

  /** The replay ends in the last row of the book of the trades it kept, and its faults are exactly the
      reasons for which it refused the others. */
  lemma {:induction false} ReplayIsKept(trades: seq<Trade>, isForex: bool, v: Violation)
    requires !ReplayRow(trades, isForex).Failed?
    ensures Replay(Kept(trades, isForex)).Some? && ReplayRow(trades, isForex).row == Reached(Kept(trades, isForex))
    ensures v in ReplayRow(trades, isForex).faults <==>
            exists j: nat | j < |trades| :: RefusedAs(trades, isForex, j, v)
  {
    hide ReplayStep, Reason, Refused, Reached, Replay;
    if |trades| == 0 {
      NothingReached();
    } else {
      var n := |trades| - 1;
      FailsOn(ReplayRow(trades[..n], isForex), trades[n], isForex);
      ReplayIsKept(trades[..n], isForex, v);
      KeptStep(Kept(trades[..n], isForex), ReplayRow(trades[..n], isForex).faults, trades[n], isForex, v);
      RefusedEarlier(trades, isForex, v);
      assert RefusedAs(trades, isForex, n, v) == Reason(Reached(Kept(trades[..n], isForex)), trades[n], isForex, v);
    }
  }

  /** The replay divides by zero at the trade: it would average over no quantity, or reduce an empty row. */
  predicate DividesByZero(row: Option<Position>, t: Trade) {
    && !t.action.OtherAction? && !NothingHeld(row)
    && if t.action.Buy? == row.value.direction.Long? then row.value.quantity + t.quantity == 0.0
       else row.value.quantity == 0.0 && t.quantity <= 0.0
  }

  predicate DividesAt(trades: seq<Trade>, isForex: bool, j: nat)
    requires j < |trades|
  {
    DividesByZero(Reached(Kept(trades[..j], isForex)), trades[j])
  }

  lemma FailsAt(r: Replayed, t: Trade, isForex: bool)
    requires r.Replayed?
    ensures ReplayStep(r, t, isForex).Failed? <==> DividesByZero(r.row, t)
  {
    hide Gain, FeesKept, WeightedAverage;
  }

  /** A replay raises exactly when it divides by zero at some trade. */
  lemma {:induction false} RaisesExactly(trades: seq<Trade>, isForex: bool)
    ensures ReplayRow(trades, isForex).Failed? <==> exists j: nat | j < |trades| :: DividesAt(trades, isForex, j)
  {
    hide ReplayStep, DividesByZero, Reached, Kept;
    if |trades| > 0 {
      var n := |trades| - 1;
      RaisesExactly(trades[..n], isForex);
      FailsOn(ReplayRow(trades[..n], isForex), trades[n], isForex);
      forall j: nat | j < n ensures DividesAt(trades[..n], isForex, j) == DividesAt(trades, isForex, j) {
        assert trades[..n][..j] == trades[..j];
      }
      if !ReplayRow(trades[..n], isForex).Failed? {
        ReplayIsKept(trades[..n], isForex, UnknownAccount);
        FailsAt(ReplayRow(trades[..n], isForex), trades[n], isForex);
        assert DividesAt(trades, isForex, n) == ReplayRow(trades, isForex).Failed?;
        if ReplayRow(trades, isForex).Failed? {
          assert DividesAt(trades, isForex, n);
        }
      } else {
        var j: nat :| j < n && DividesAt(trades[..n], isForex, j);
        assert DividesAt(trades, isForex, j);
      }
    }
  }

  lemma RefusedEarlier(trades: seq<Trade>, isForex: bool, v: Violation)
    requires |trades| > 0
    ensures var n := |trades| - 1;
            (exists j: nat | j < |trades| :: RefusedAs(trades, isForex, j, v)) <==>
            (exists j: nat | j < n :: RefusedAs(trades[..n], isForex, j, v)) || RefusedAs(trades, isForex, n, v)
  {
    hide Reason, Reached, Kept;
    var n := |trades| - 1;
    forall j: nat | j < n ensures RefusedAs(trades[..n], isForex, j, v) == RefusedAs(trades, isForex, j, v) {
      assert trades[..n][..j] == trades[..j];
    }
    if exists j: nat | j < |trades| :: RefusedAs(trades, isForex, j, v) {
      var j: nat :| j < |trades| && RefusedAs(trades, isForex, j, v);
      if j < n {
        assert RefusedAs(trades[..n], isForex, j, v);
      }
    }
    if exists j: nat | j < n :: RefusedAs(trades[..n], isForex, j, v) {
      var j: nat :| j < n && RefusedAs(trades[..n], isForex, j, v);
      assert RefusedAs(trades, isForex, j, v);
    }
  }

  lemma FailsOn(r: Replayed, t: Trade, isForex: bool)
    ensures r.Failed? ==> ReplayStep(r, t, isForex).Failed?
  {
  }

  lemma NothingReached()
    ensures Replay([]).Some? && Reached([]) == None
  {
  }

  /** A trade that a flat replay would open a row with. */
  predicate Opens(t: Trade, isForex: bool) {
    t.action.Buy? || (t.action.Sell? && isForex)
  }

  /** A replay reaches a row exactly when some trade can open one. */
  lemma {:induction false} ReachesRow(trades: seq<Trade>, isForex: bool)
    requires !ReplayRow(trades, isForex).Failed?
    ensures ReplayRow(trades, isForex).row.Some? <==> exists j: nat | j < |trades| :: Opens(trades[j], isForex)
  {
    hide Gain, FeesKept, WeightedAverage;
    if |trades| > 0 {
      var n := |trades| - 1;
      ReachesRow(trades[..n], isForex);
      assert forall j: nat | j < n :: trades[..n][j] == trades[j];
    }
  }

  // ---------- one symbol's rows ----------

  /** Row `i` is the latest of the account and symbol. */
  predicate Latest(positions: seq<Position>, account: string, symbol: string, i: nat) {
    && i < |positions| && positions[i].accountId == account && positions[i].symbol == symbol
    && forall j | i < j < |positions| :: !(positions[j].accountId == account && positions[j].symbol == symbol)
  }

  predicate NoRow(positions: seq<Position>, account: string, symbol: string) {
    forall j | 0 <= j < |positions| :: !(positions[j].accountId == account && positions[j].symbol == symbol)
  }

  lemma LatestInFront(positions: seq<Position>, account: string, symbol: string, i: nat)
    requires |positions| > 0
    ensures var n := |positions| - 1;
            if positions[n].accountId == account && positions[n].symbol == symbol
            then Latest(positions, account, symbol, n)
            else i < n && Latest(positions[..n], account, symbol, i) ==> Latest(positions, account, symbol, i)
  {
  }

  lemma {:induction false} LatestIsLast(positions: seq<Position>, account: string, symbol: string) returns (i: nat)
    ensures var last := LastRow(RowsOf(positions, account, symbol));
            if last.None? then NoRow(positions, account, symbol)
            else i < |positions| && Latest(positions, account, symbol, i) && last.value == Plain(positions[i])
  {
    hide Latest;
    i := 0;
    if |positions| > 0 {
      var n := |positions| - 1;
      i := LatestIsLast(positions[..n], account, symbol);
      LatestInFront(positions, account, symbol, i);
      if positions[n].accountId == account && positions[n].symbol == symbol {
        i := n;
      }
    }
  }

  predicate Apart(x: real, y: real) {
    x - y > 0.000000001 || y - x > 0.000000001
  }

  /** Both the symbol's trades and its rows reach a row, and the latest stored one differs so. */
  predicate RowsDiffer(stored: Position, replayed: Position, v: Violation) {
    match v
    case QuantityDiffers(_) => Apart(stored.quantity, replayed.quantity)
    case AverageDiffers(_) => Apart(stored.averagePrice, replayed.averagePrice)
    case ProfitDiffers(_) => Apart(stored.realizedPnl, replayed.realizedPnl)
    case FeesDiffer(_) => Apart(stored.buyFees, replayed.buyFees)
    case StatusDiffers(_) => stored.open != replayed.open
    case DirectionDiffers(_) => stored.direction != replayed.direction
    case _ => false
  }

  function SymbolOf(v: Violation): Option<string> {
    match v
    case RowMissing(y) => Some(y)
    case TradesMissing(y) => Some(y)
    case QuantityDiffers(y) => Some(y)
    case AverageDiffers(y) => Some(y)
    case ProfitDiffers(y) => Some(y)
    case FeesDiffer(y) => Some(y)
    case StatusDiffers(y) => Some(y)
    case DirectionDiffers(y) => Some(y)
    case _ => None
  }

  /** The condition on the tables that a finding about a symbol stands for. */
  predicate SymbolViolation(s: Store, account: string, symbol: string, isForex: bool, v: Violation) {
    var trades := TradesOf(s.trades, account, symbol);
    var implied := exists j: nat | j < |trades| :: Opens(trades[j], isForex);
    if SymbolOf(v).None? then exists j: nat | j < |trades| :: RefusedAs(trades, isForex, j, v)
    else
      && SymbolOf(v) == Some(symbol)
      && if v.RowMissing? then implied && NoRow(s.positions, account, symbol)
         else if v.TradesMissing? then !implied && !NoRow(s.positions, account, symbol)
         else
           exists i: nat | i < |s.positions| ::
             && Latest(s.positions, account, symbol, i) && Reached(Kept(trades, isForex)).Some?
             && RowsDiffer(s.positions[i], Reached(Kept(trades, isForex)).value, v)
  }

  lemma FaultsOfTwoRows(symbol: string, stored: Option<Position>, replayed: Option<Position>, v: Violation)
    ensures v in RowFaults(symbol, stored, replayed) <==>
            && SymbolOf(v) == Some(symbol)
            && if v.RowMissing? then stored.None? && replayed.Some?
               else if v.TradesMissing? then stored.Some? && replayed.None?
               else stored.Some? && replayed.Some? && RowsDiffer(stored.value, replayed.value, v)
  {
  }

  lemma LatestUnique(positions: seq<Position>, account: string, symbol: string, i: nat, j: nat)
    requires Latest(positions, account, symbol, i) && Latest(positions, account, symbol, j)
    ensures i == j
  {
  }

  /** The symbol's part of the position check finds exactly: the trades its replay refuses; a position that
      trades imply and the table lacks; one that the table has and no trade implies; and each field in which
      the latest row differs from the replayed one. */
  lemma SymbolFindingsExactly(s: Store, account: string, symbol: string, isForex: bool, v: Violation)
    requires SymbolCheck(s, account, symbol, isForex).Found?
    ensures v in SymbolCheck(s, account, symbol, isForex).violations <==>
            SymbolViolation(s, account, symbol, isForex, v)
  {
    hide ReplayRow, RowFaults, RowsDiffer, Reached, Kept, Latest, NoRow, RefusedAs, Opens, RowsOf, TradesOf, LastRow;
    var trades, stored := TradesOf(s.trades, account, symbol), LastRow(RowsOf(s.positions, account, symbol));
    ReplayIsKept(trades, isForex, v);
    ReachesRow(trades, isForex);
    var i := LatestIsLast(s.positions, account, symbol);
    FaultsOfTwoRows(symbol, stored, ReplayRow(trades, isForex).row, v);
    OnlyReasons(trades, isForex, v);
    if stored.Some? {
      LatestIsRow(s.positions, account, symbol, i);
      PlainDiffers(s.positions[i], Reached(Kept(trades, isForex)), v);
      forall k: nat | Latest(s.positions, account, symbol, k) ensures k == i {
        LatestUnique(s.positions, account, symbol, i, k);
      }
    } else {
      forall k: nat ensures !Latest(s.positions, account, symbol, k) {
        if Latest(s.positions, account, symbol, k) {
          LatestIsRow(s.positions, account, symbol, k);
        }
      }
    }
  }

  lemma LatestIsRow(positions: seq<Position>, account: string, symbol: string, i: nat)
    requires Latest(positions, account, symbol, i)
    ensures !NoRow(positions, account, symbol)
  {
  }

  lemma PlainDiffers(p: Position, q: Option<Position>, v: Violation)
    ensures q.Some? ==> RowsDiffer(Plain(p), q.value, v) == RowsDiffer(p, q.value, v)
  {
  }

  lemma OnlyReasons(trades: seq<Trade>, isForex: bool, v: Violation)
    ensures SymbolOf(v).Some? ==> forall j: nat | j < |trades| :: !RefusedAs(trades, isForex, j, v)
  {
  }

  // ---------- the rows themselves ----------

  /** The condition on a row that a finding about its own state stands for. */
  predicate RowViolation(positions: seq<Position>, account: string, v: Violation) {
    match v
    case NegativeQuantity(i) => i < |positions| && positions[i].accountId == account && positions[i].quantity < 0.0
    case EmptyRowOpen(i) =>
      i < |positions| && positions[i].accountId == account && positions[i].open &&
      -0.000000001 <= positions[i].quantity <= 0.000000001
    case HeldRowClosed(i) =>
      i < |positions| && positions[i].accountId == account && !positions[i].open && positions[i].quantity > 0.0
    case _ => false
  }

  /** And one about a Forex row: no stop, one not below a long or not above a short average, an unknown pair,
      or a price or stop the policies refuse. */
  predicate ForexViolation(positions: seq<Position>, account: string, pairs: Pairs, v: Violation) {
    match v
    case StopMissing(i) => HeldBy(positions, account, i) && positions[i].stopLoss.None?
    case StopOnWrongSide(i) =>
      HeldBy(positions, account, i) && positions[i].stopLoss.Some? &&
      if positions[i].direction.Long? then positions[i].stopLoss.value >= positions[i].averagePrice
      else positions[i].stopLoss.value <= positions[i].averagePrice
    case PipValueLost(i) => HeldBy(positions, account, i) && !pairs(positions[i].symbol)
    case MarginLost(i) =>
      HeldBy(positions, account, i) && (positions[i].averagePrice <= 0.0 || !pairs(positions[i].symbol))
    case MaximumLossLost(i) =>
      HeldBy(positions, account, i) && positions[i].stopLoss.Some? &&
      (positions[i].averagePrice <= 0.0 || positions[i].stopLoss.value <= 0.0 || !pairs(positions[i].symbol))
    case _ => false
  }

  predicate HeldBy(positions: seq<Position>, account: string, i: nat) {
    i < |positions| && positions[i].accountId == account && positions[i].quantity > 0.0
  }

  function RowOf(v: Violation): int {
    match v
    case NegativeQuantity(i) => i
    case EmptyRowOpen(i) => i
    case HeldRowClosed(i) => i
    case StopMissing(i) => i
    case StopOnWrongSide(i) => i
    case PipValueLost(i) => i
    case MarginLost(i) => i
    case MaximumLossLost(i) => i
    case _ => -1
  }

  lemma FaultsOfRow(positions: seq<Position>, i: nat, pairs: Pairs, v: Violation)
    requires i < |positions|
    ensures var account := positions[i].accountId;
            && (v in RowStateFaults(i, positions[i]) <==> RowOf(v) == i && RowViolation(positions, account, v))
            && (v in ForexFaults(i, positions[i], pairs) <==>
                  RowOf(v) == i && ForexViolation(positions, account, pairs, v))
  {
  }

  lemma RowNumbered(positions: seq<Position>, account: string, pairs: Pairs, v: Violation)
    ensures RowViolation(positions, account, v) || ForexViolation(positions, account, pairs, v) ==>
              0 <= RowOf(v) < |positions| && positions[RowOf(v)].accountId == account
  {
  }

  lemma {:induction false} FindingsOfRows(positions: seq<Position>, n: nat, account: string, pairs: Pairs, v: Violation)
    requires n <= |positions|
    ensures v in RowStateCheck(positions[..n], account) <==> RowViolation(positions, account, v) && RowOf(v) < n
    ensures v in ForexCheck(positions[..n], account, pairs) <==>
            ForexViolation(positions, account, pairs, v) && RowOf(v) < n
  {
    hide RowStateFaults, ForexFaults, RowViolation, ForexViolation;
    RowNumbered(positions, account, pairs, v);
    if n > 0 {
      FindingsOfRows(positions, n - 1, account, pairs, v);
      assert positions[..n][..n - 1] == positions[..n - 1];
      FaultsOfRow(positions, n - 1, pairs, v);
    }
  }

  lemma RowFindingsExactly(positions: seq<Position>, account: string, pairs: Pairs, v: Violation)
    ensures v in RowStateCheck(positions, account) <==> RowViolation(positions, account, v)
    ensures v in ForexCheck(positions, account, pairs) <==> ForexViolation(positions, account, pairs, v)
  {
    hide RowStateCheck, ForexCheck, RowViolation, ForexViolation;
    assert positions[..|positions|] == positions;
    FindingsOfRows(positions, |positions|, account, pairs, v);
    RowNumbered(positions, account, pairs, v);
  }

  // ---------- the whole check ----------

  /** What a finding of the whole check stands for. */
  ghost predicate Violates(s: Store, account: string, start: Option<real>, pairs: Pairs, v: Violation)
    requires account in s.accounts
  {
    var isForex, cash := s.accounts[account].assetClass.ForexAsset?, s.accounts[account].cash;
    var mine := AccountTrades(s.trades, account);
    || OrderViolation(s.orders, s.trades, account, v)
    || (start.Some? && v == CashDiffers && Apart(start.value + Sum(Flows(mine)), cash))
    || (start.Some? && v.UnknownAction? &&
        exists j: nat | j < |mine| :: mine[j].action.OtherAction? && mine[j].tradeId == v.trade)
    || (exists y :: SymbolViolation(s, account, y, isForex, v))
    || (v == NegativeCash && cash < 0.0)
    || RowViolation(s.positions, account, v)
    || (isForex && ForexViolation(s.positions, account, pairs, v))
  }

  /** A symbol neither traded nor held gives no finding and no error. */
  lemma NeitherTradedNorHeld(s: Store, account: string, symbol: string, isForex: bool, v: Violation)
    requires symbol !in TradedOrHeld(s, account)
    ensures !SymbolViolation(s, account, symbol, isForex, v) && SymbolCheck(s, account, symbol, isForex).Found?
  {
    hide RefusedAs, Opens, ReplayStep;
    NotTraded(s.trades, account, symbol);
    NotHeld(s.positions, account, symbol);
  }

  lemma {:induction false} NotTraded(trades: seq<Trade>, account: string, symbol: string)
    requires forall t | t in AccountTrades(trades, account) :: t.symbol != symbol
    ensures TradesOf(trades, account, symbol) == []
  {
    if |trades| > 0 {
      assert forall t | t in AccountTrades(trades[..|trades| - 1], account) :: t in AccountTrades(trades, account);
      NotTraded(trades[..|trades| - 1], account, symbol);
      var t := trades[|trades| - 1];
      if t.accountId == account {
        assert t in AccountTrades(trades, account);
      }
    }
  }

  lemma {:induction false} NotHeld(positions: seq<Position>, account: string, symbol: string)
    requires forall p | p in AccountRows(positions, account) :: p.symbol != symbol
    ensures NoRow(positions, account, symbol)
  {
    if |positions| > 0 {
      var n := |positions| - 1;
      assert forall p | p in AccountRows(positions[..n], account) :: p in AccountRows(positions, account);
      NotHeld(positions[..n], account, symbol);
      if positions[n].accountId == account {
        assert positions[n] in AccountRows(positions, account);
      }
    }
  }

  lemma PositionFindings(s: Store, account: string, isForex: bool, f: Findings, v: Violation)
    requires PositionsFound(s, account, isForex, TradedOrHeld(s, account), f) && f.Found?
    ensures v in f.violations <==> exists y :: SymbolViolation(s, account, y, isForex, v)
  {
    hide SymbolCheck, SymbolViolation, TradedOrHeld;
    forall y
      ensures y in TradedOrHeld(s, account) ==>
                (v in SymbolCheck(s, account, y, isForex).violations <==> SymbolViolation(s, account, y, isForex, v))
      ensures y !in TradedOrHeld(s, account) ==> !SymbolViolation(s, account, y, isForex, v)
    {
      if y in TradedOrHeld(s, account) {
        SymbolFindingsExactly(s, account, y, isForex, v);
      } else {
        NeitherTradedNorHeld(s, account, y, isForex, v);
      }
    }
  }

  predicate SymbolDivides(s: Store, account: string, symbol: string, isForex: bool) {
    var trades := TradesOf(s.trades, account, symbol);
    exists j: nat | j < |trades| :: DividesAt(trades, isForex, j)
  }

  lemma RaisedSomewhere(s: Store, account: string, isForex: bool, f: Findings)
    requires PositionsFound(s, account, isForex, TradedOrHeld(s, account), f)
    ensures f.Raised? <==> exists y :: SymbolDivides(s, account, y, isForex)
  {
    hide TradedOrHeld, DividesAt, ReplayRow, SymbolDivides;
    forall y
      ensures SymbolCheck(s, account, y, isForex).Raised? == SymbolDivides(s, account, y, isForex)
      ensures y !in TradedOrHeld(s, account) ==> !SymbolDivides(s, account, y, isForex)
    {
      SymbolRaises(s, account, y, isForex);
      if y !in TradedOrHeld(s, account) {
        NeitherTradedNorHeld(s, account, y, isForex, UnknownAccount);
      }
    }
  }

  lemma SymbolRaises(s: Store, account: string, symbol: string, isForex: bool)
    ensures SymbolCheck(s, account, symbol, isForex).Raised? == SymbolDivides(s, account, symbol, isForex)
  {
    hide ReplayRow, DividesAt, TradesOf, RowFaults;
    RaisesExactly(TradesOf(s.trades, account, symbol), isForex);
  }

  lemma CashFindings(start: Option<real>, cash: real, trades: seq<Trade>, v: Violation)
    ensures v in CashCheck(start, cash, trades) <==>
            || (start.Some? && v == CashDiffers && Apart(start.value + Sum(Flows(trades)), cash))
            || (start.Some? && v.UnknownAction? &&
                exists j: nat | j < |trades| :: trades[j].action.OtherAction? && trades[j].tradeId == v.trade)
  {
    hide Flows, UnknownActions;
    if start.Some? {
      CashFindingExactly(start.value, cash, trades);
      UnknownActionsExactly(trades, v);
    }
  }

  /** The checks one after the other, the last for Forex accounts only: each finding is reported exactly when
      its own condition holds of the tables, whatever they contain, and it raises exactly when some symbol's
      replay divides by zero. */
  method ReconcileAccount(s: Store, account: string, start: Option<real>, pairs: Pairs)
    returns (r: Findings)
    ensures account !in s.accounts ==> r == Found({UnknownAccount})
    ensures account in s.accounts && r.Found? ==>
              forall v :: v in r.violations <==> Violates(s, account, start, pairs, v)
    ensures r.Raised? <==> account in s.accounts &&
                           exists y :: SymbolDivides(s, account, y, s.accounts[account].assetClass.ForexAsset?)
  {
    hide OrderCheck, CashCheck, PositionsFound, RowStateCheck, ForexCheck, TradedOrHeld, OrderViolation, RowViolation,
         ForexViolation, SymbolViolation, Flows, Apart, AccountTrades, SymbolCheck, SymbolDivides;
    if account !in s.accounts {
      return Found({UnknownAccount});
    }
    var isForex := s.accounts[account].assetClass.ForexAsset?;
    var orders := CheckOrders(s, account);
    var cash := CheckCash(start, s.accounts[account].cash, AccountTrades(s.trades, account));
    var positions := CheckPositions(s, account, isForex);
    RaisedSomewhere(s, account, isForex, positions);
    if positions.Raised? {
      return Raised;
    }
    var state := CheckState(s, account);
    var forex: set<Violation> := {};
    if isForex {
      forex := CheckForex(s, account, pairs);
    }
    forall v
      ensures v in orders + cash + positions.violations + state + forex <==> Violates(s, account, start, pairs, v)
    {
      OrderFindingsExactly(s.orders, s.trades, account, v);
      CashFindings(start, s.accounts[account].cash, AccountTrades(s.trades, account), v);
      PositionFindings(s, account, isForex, positions, v);
      RowFindingsExactly(s.positions, account, pairs, v);
    }
    return Found(orders + cash + positions.violations + state + forex);
  }
}
