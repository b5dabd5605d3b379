/** Portfolio snapshots that persist their drawdown, and daily windows cut out of them. */
module EquityHistory {
  import opened Options
  import opened Drawdown

  /** A position row with the market price the valuation found for its symbol, if any. */
  datatype Valued = Valued(open: bool, price: Option<real>, quantity: real, average: real, realized: real)

  datatype Snapshot = Snapshot(
    cash: real, marketValue: real, equity: real, realized: real, unrealized: real, drawdown: real, timestamp: int)

  datatype TradeCost = TradeCost(fee: real, tax: real, executedAt: int)

  /** Why a service writes no row: no such account, an open position without a price, or the drawdown's
      division by a zero peak. */
  datatype Failure = AccountMissing | PriceMissing | DivisionByZero

  function Curve(snapshots: seq<Snapshot>): (r: seq<real>)
    ensures |r| == |snapshots| && forall i | 0 <= i < |r| :: r[i] == snapshots[i].equity
  {
    seq(|snapshots|, i requires 0 <= i < |snapshots| => snapshots[i].equity)
  }

  predicate Priced(rows: seq<Valued>) {
    forall i | 0 <= i < |rows| :: rows[i].open ==> rows[i].price.Some?
  }

  function ValueOf(row: Valued): real {
    if row.open && row.price.Some? then row.price.value * row.quantity else 0.0
  }

  /** The valuation engine's formula, which takes no account of the row's direction. */
  function UnrealizedOf(row: Valued): real {
    if row.open && row.price.Some? then (row.price.value - row.average) * row.quantity else 0.0
  }

  function MarketValue(rows: seq<Valued>): real {
    if |rows| == 0 then 0.0 else MarketValue(rows[..|rows| - 1]) + ValueOf(rows[|rows| - 1])
  }

  function Unrealized(rows: seq<Valued>): real {
    if |rows| == 0 then 0.0 else Unrealized(rows[..|rows| - 1]) + UnrealizedOf(rows[|rows| - 1])
  }

  /** Over all rows, open and closed. */
  function Realized(rows: seq<Valued>): real {
    if |rows| == 0 then 0.0 else Realized(rows[..|rows| - 1]) + rows[|rows| - 1].realized
  }

  /** Values the open rows; a missing price fails the whole valuation. */
  method ValueOpenRows(rows: seq<Valued>) returns (r: Option<(real, real)>)
    ensures r == if Priced(rows) then Some((MarketValue(rows), Unrealized(rows))) else None
  {
    var marketValue, unrealized := 0.0, 0.0;
    for i := 0 to |rows|
      invariant marketValue == MarketValue(rows[..i]) && unrealized == Unrealized(rows[..i])
      invariant Priced(rows[..i])
    {
      assert rows[..i + 1][..i] == rows[..i];
      var row := rows[i];
      if row.open {
        if row.price.None? {
          return None;
        }
        marketValue := marketValue + row.price.value * row.quantity;
        unrealized := unrealized + (row.price.value - row.average) * row.quantity;
      }
    }
    assert rows[..|rows|] == rows;
    return Some((marketValue, unrealized));
  }

  method RealizedSum(rows: seq<Valued>) returns (total: real)
    ensures total == Realized(rows)
  {
    total := 0.0;
    for i := 0 to |rows|
      invariant total == Realized(rows[..i])
    {
      assert rows[..i + 1][..i] == rows[..i];
      total := total + rows[i].realized;
    }
    assert rows[..|rows|] == rows;
  }

  /** Each row's drawdown is that of the whole history up to it. */
  predicate Faithful(snapshots: seq<Snapshot>) {
    forall i | 0 <= i < |snapshots| :: MaximumDrawdown(Curve(snapshots[..i + 1])) == Some(snapshots[i].drawdown)
  }

  lemma CurveOfPrefix(snapshots: seq<Snapshot>, i: nat)
    requires i <= |snapshots|
    ensures Curve(snapshots[..i]) == Curve(snapshots)[..i]
  {
  }

  lemma FaithfulAppend(snapshots: seq<Snapshot>, s: Snapshot)
    requires Faithful(snapshots) && MaximumDrawdown(Curve(snapshots + [s])) == Some(s.drawdown)
    ensures Faithful(snapshots + [s])
  {
    var all := snapshots + [s];
    forall i | 0 <= i < |all| ensures MaximumDrawdown(Curve(all[..i + 1])) == Some(all[i].drawdown) {
      if i < |snapshots| {
        assert all[..i + 1] == snapshots[..i + 1];
      } else {
        assert all[..i + 1] == all;
      }
    }
  }

  class SnapshotService {
    var snapshots: seq<Snapshot>

    ghost predicate Valid()
      reads this
    {
      Faithful(snapshots)
    }

    constructor ()
      ensures Valid() && snapshots == []
    {
      snapshots := [];
    }

    /** Values the account, recomputes the drawdown over its whole history, and inserts one row; on a
        failure nothing is written. `cash` is None for an unknown account. */
    method TakeSnapshot(cash: Option<real>, rows: seq<Valued>, timestamp: int) returns (failure: Option<Failure>)
      requires Valid()
      modifies this
      ensures Valid()
      ensures failure == SnapshotFailure(cash, rows, old(snapshots))
      ensures failure == Some(PriceMissing) <==>
              cash.Some? && exists i | 0 <= i < |rows| :: rows[i].open && rows[i].price.None?
      ensures snapshots == if failure.Some? then old(snapshots)
                           else
                             var equity := cash.value + MarketValue(rows);
                             var drawdown := MaximumDrawdown(Curve(old(snapshots)) + [equity]).value;
                             old(snapshots) + [Snapshot(cash.value, MarketValue(rows), equity, Realized(rows),
                                                        Unrealized(rows), drawdown, timestamp)]
    {
      hide Faithful, MaximumDrawdown, MarketValue, Unrealized, Realized;
      if cash.None? {
        return Some(AccountMissing);
      }
      var values := ValueOpenRows(rows);
      if values.None? {
        return Some(PriceMissing);
      }
      var realized := RealizedSum(rows);
      var equity := cash.value + values.value.0;
      var curve := Curve(snapshots) + [equity];
      var drawdown := Calculate(curve);
      if drawdown.None? {
        return Some(DivisionByZero);
      }
      var row := Snapshot(cash.value, values.value.0, equity, realized, values.value.1, drawdown.value, timestamp);
      assert Curve(snapshots + [row]) == curve;
      FaithfulAppend(snapshots, row);
      snapshots := snapshots + [row];
      return None;
    }
  }

  /** The first thing that goes wrong in taking a snapshot. */
  function SnapshotFailure(cash: Option<real>, rows: seq<Valued>, before: seq<Snapshot>): (r: Option<Failure>)
    ensures r.None? <==> cash.Some? && Priced(rows) &&
                         MaximumDrawdown(Curve(before) + [cash.value + MarketValue(rows)]).Some?
  {
    if cash.None? then Some(AccountMissing)
    else if !Priced(rows) then Some(PriceMissing)
    else if MaximumDrawdown(Curve(before) + [cash.value + MarketValue(rows)]).None? then Some(DivisionByZero)
    else None
  }

  // ---------- persisted drawdowns ----------

  lemma PersistedIsWorst(snapshots: seq<Snapshot>, i: nat)
    requires Faithful(snapshots) && Positive(Curve(snapshots)) && i < |snapshots|
    ensures Positive(Curve(snapshots)[..i + 1]) && snapshots[i].drawdown == Worst(Curve(snapshots)[..i + 1])
  {
    CurveOfPrefix(snapshots, i + 1);
    OnePassIsWorst(Curve(snapshots)[..i + 1]);
  }

  lemma {:induction false} RunningGrows(curve: seq<real>, i: nat, first: real)
    requires i <= |curve| && RunningOver(curve, first).Some?
    ensures RunningOver(curve[..i], first).Some?
    ensures 0.0 <= RunningOver(curve[..i], first).value.worst <= RunningOver(curve, first).value.worst
    decreases |curve|
  {
    if i == |curve| {
      assert curve[..i] == curve;
      if i > 0 {
        RunningGrows(curve[..i - 1], i - 1, first);
        assert curve[..i - 1][..i - 1] == curve[..i - 1];
      }
    } else {
      assert curve[..|curve| - 1][..i] == curve[..i];
      RunningGrows(curve[..|curve| - 1], i, first);
    }
  }

  /** The drawdown of a history is at most that of a longer one, whatever the signs of its equities. */
  lemma DrawdownGrows(curve: seq<real>, i: nat)
    requires 0 < i <= |curve| && MaximumDrawdown(curve).Some? && MaximumDrawdown(curve[..i]).Some?
    ensures MaximumDrawdown(curve[..i]).value <= MaximumDrawdown(curve).value
  {
    if |curve| >= 2 {
      RunningGrows(curve, i, curve[0]);
    } else {
      assert curve[..i] == curve;
    }
  }

  /** Persisted drawdowns never decrease, and over positive equities each is the worst pair of the history
      so far. */
  lemma PersistedDrawdowns(snapshots: seq<Snapshot>, i: nat, j: nat)
    requires Faithful(snapshots) && i <= j < |snapshots|
    ensures snapshots[i].drawdown <= snapshots[j].drawdown
    ensures Positive(Curve(snapshots)) ==> IsWorstPair(Curve(snapshots)[..j + 1], snapshots[j].drawdown)
  {
    hide MaximumDrawdown, Curve;
    CurveOfPrefix(snapshots, i + 1);
    CurveOfPrefix(snapshots, j + 1);
    var history := Curve(snapshots)[..j + 1];
    assert history[..i + 1] == Curve(snapshots)[..i + 1];
    assert MaximumDrawdown(Curve(snapshots[..i + 1])) == Some(snapshots[i].drawdown);
    assert MaximumDrawdown(Curve(snapshots[..j + 1])) == Some(snapshots[j].drawdown);
    DrawdownGrows(history, i + 1);
    if Positive(Curve(snapshots)) {
      PersistedIsWorst(snapshots, j);
      WorstIsWorstPair(history);
    }
  }

  // ---------- daily windows ----------

  /** The rows before the first one later than `bound`. */
  function UpTo(snapshots: seq<Snapshot>, bound: int): (n: nat)
    ensures n <= |snapshots|
    ensures forall i | 0 <= i < n :: snapshots[i].timestamp <= bound
    ensures n < |snapshots| ==> snapshots[n].timestamp > bound
  {
    if |snapshots| == 0 || snapshots[0].timestamp > bound then 0 else 1 + UpTo(snapshots[1..], bound)
  }

  function EquityAt(snapshots: seq<Snapshot>, bound: int): Option<real> {
    var n := UpTo(snapshots, bound);
    if n == 0 then None else Some(snapshots[n - 1].equity)
  }

  function Window(snapshots: seq<Snapshot>, start: int, end: int): seq<real> {
    if |snapshots| == 0 then []
    else
      var n := |snapshots| - 1;
      Window(snapshots[..n], start, end) + if start <= snapshots[n].timestamp <= end then [snapshots[n].equity] else []
  }

  function PeriodFees(trades: seq<TradeCost>, start: int, end: int): real {
    if |trades| == 0 then 0.0
    else
      var n := |trades| - 1;
      PeriodFees(trades[..n], start, end) + if start <= trades[n].executedAt <= end then trades[n].fee else 0.0
  }

  function PeriodTax(trades: seq<TradeCost>, start: int, end: int): real {
    if |trades| == 0 then 0.0
    else
      var n := |trades| - 1;
      PeriodTax(trades[..n], start, end) + if start <= trades[n].executedAt <= end then trades[n].tax else 0.0
  }

  function Executions(trades: seq<TradeCost>, start: int, end: int): nat {
    if |trades| == 0 then 0
    else
      var n := |trades| - 1;
      Executions(trades[..n], start, end) + if start <= trades[n].executedAt <= end then 1 else 0
  }

  datatype Daily = Daily(
    realized: real, unrealized: real, fees: real, tax: real, netResult: real, drawdown: real, executions: nat,
    starting: Option<real>, ending: Option<real>)

  datatype DailyReport = Failed(why: Failure) | Ready(row: Daily)

  function NetResult(rows: seq<Valued>, trades: seq<TradeCost>, start: int, end: int): real {
    Realized(rows) + Unrealized(rows) - PeriodFees(trades, start, end) - PeriodTax(trades, start, end)
  }

  /** The last equity found before the first later row, scanning with an early break. */
  method LastEquity(snapshots: seq<Snapshot>, bound: int) returns (equity: Option<real>)
    ensures equity == EquityAt(snapshots, bound)
  {
    equity := None;
    var i := 0;
    while i < |snapshots|
      invariant i <= UpTo(snapshots, bound)
      invariant equity == if i == 0 then None else Some(snapshots[i - 1].equity)
    {
      if snapshots[i].timestamp > bound {
        break;
      }
      equity := Some(snapshots[i].equity);
      i := i + 1;
    }
  }

  /** Sums over the trades of the period. */
  method PeriodTotals(trades: seq<TradeCost>, start: int, end: int) returns (fees: real, tax: real, executions: nat)
    ensures fees == PeriodFees(trades, start, end) && tax == PeriodTax(trades, start, end)
    ensures executions == Executions(trades, start, end)
  {
    fees, tax, executions := 0.0, 0.0, 0;
    for i := 0 to |trades|
      invariant fees == PeriodFees(trades[..i], start, end) && tax == PeriodTax(trades[..i], start, end)
      invariant executions == Executions(trades[..i], start, end)
    {
      assert trades[..i + 1][..i] == trades[..i];
      if start <= trades[i].executedAt <= end {
        fees, tax, executions := fees + trades[i].fee, tax + trades[i].tax, executions + 1;
      }
    }
    assert trades[..|trades|] == trades;
  }

  // ---------- what a period's figures are ----------

  /** The indices of the moments in the closed period, in order. */
  function Inside(moments: seq<int>, start: int, end: int): (r: seq<nat>)
    ensures forall k | 0 <= k < |r| :: r[k] < |moments|
  {
    if |moments| == 0 then []
    else
      var n := |moments| - 1;
      Inside(moments[..n], start, end) + if start <= moments[n] <= end then [n] else []
  }

  predicate LiesInside(moments: seq<int>, start: int, end: int, i: nat) {
    i < |moments| && start <= moments[i] && moments[i] <= end
  }

  lemma {:induction false} InsideExactly(moments: seq<int>, start: int, end: int)
    ensures var r := Inside(moments, start, end);
            && (forall k | 0 <= k < |r| :: LiesInside(moments, start, end, r[k]))
            && (forall i: nat | LiesInside(moments, start, end, i) :: i in r)
            && (forall k, l | 0 <= k < l < |r| :: r[k] < r[l])
  {
    if |moments| > 0 {
      var n := |moments| - 1;
      InsideExactly(moments[..n], start, end);
      forall i: nat ensures LiesInside(moments[..n], start, end, i) <==> LiesInside(moments, start, end, i) && i < n {
      }
      hide LiesInside;
    }
  }

  function TradeMoments(trades: seq<TradeCost>): (r: seq<int>)
    ensures |r| == |trades| && forall i | 0 <= i < |r| :: r[i] == trades[i].executedAt
  {
    seq(|trades|, i requires 0 <= i < |trades| => trades[i].executedAt)
  }

  function Fees(trades: seq<TradeCost>, chosen: seq<nat>): (r: seq<real>)
    requires forall k | 0 <= k < |chosen| :: chosen[k] < |trades|
    ensures |r| == |chosen| && forall k | 0 <= k < |r| :: r[k] == trades[chosen[k]].fee
  {
    seq(|chosen|, k requires 0 <= k < |chosen| => trades[chosen[k]].fee)
  }

  function Taxes(trades: seq<TradeCost>, chosen: seq<nat>): (r: seq<real>)
    requires forall k | 0 <= k < |chosen| :: chosen[k] < |trades|
    ensures |r| == |chosen| && forall k | 0 <= k < |r| :: r[k] == trades[chosen[k]].tax
  {
    seq(|chosen|, k requires 0 <= k < |chosen| => trades[chosen[k]].tax)
  }

  lemma ChosenCosts(trades: seq<TradeCost>, chosen: seq<nat>)
    requires |trades| > 0 && forall k | 0 <= k < |chosen| :: chosen[k] < |trades| - 1
    ensures var n := |trades| - 1;
            && Fees(trades, chosen) == Fees(trades[..n], chosen) && Taxes(trades, chosen) == Taxes(trades[..n], chosen)
            && Fees(trades, chosen + [n]) == Fees(trades[..n], chosen) + [trades[n].fee]
            && Taxes(trades, chosen + [n]) == Taxes(trades[..n], chosen) + [trades[n].tax]
  {
  }

  predicate FiguresAgree(trades: seq<TradeCost>, start: int, end: int) {
    var inside := Inside(TradeMoments(trades), start, end);
    && PeriodFees(trades, start, end) == Sum(Fees(trades, inside))
    && PeriodTax(trades, start, end) == Sum(Taxes(trades, inside))
    && Executions(trades, start, end) == |inside|
  }

  lemma NoFigures(trades: seq<TradeCost>, start: int, end: int)
    requires |trades| == 0
    ensures FiguresAgree(trades, start, end)
  {
  }

  lemma FiguresStep(trades: seq<TradeCost>, start: int, end: int)
    requires |trades| > 0 && FiguresAgree(trades[..|trades| - 1], start, end)
    ensures FiguresAgree(trades, start, end)
  {
    hide Fees, Taxes, Sum, TradeMoments, Inside;
    var n := |trades| - 1;
    assert TradeMoments(trades)[..n] == TradeMoments(trades[..n]);
    InsideStep(TradeMoments(trades), start, end);
    var earlier := Inside(TradeMoments(trades[..n]), start, end);
    ChosenCosts(trades, earlier);
    SumAppend(Fees(trades[..n], earlier), trades[n].fee);
    SumAppend(Taxes(trades[..n], earlier), trades[n].tax);
  }

  /** Fees, taxes and executions are those of exactly the trades executed inside the period. */
  lemma {:induction false} PeriodFigures(trades: seq<TradeCost>, start: int, end: int)
    ensures FiguresAgree(trades, start, end)
  {
    hide FiguresAgree;
    if |trades| == 0 {
      NoFigures(trades, start, end);
    } else {
      PeriodFigures(trades[..|trades| - 1], start, end);
      FiguresStep(trades, start, end);
    }
  }

  lemma InsideStep(moments: seq<int>, start: int, end: int)
    requires |moments| > 0
    ensures var n := |moments| - 1;
            var earlier := Inside(moments[..n], start, end);
            Inside(moments, start, end) == if start <= moments[n] <= end then earlier + [n] else earlier
  {
  }

  function Moments(snapshots: seq<Snapshot>): (r: seq<int>)
    ensures |r| == |snapshots| && forall i | 0 <= i < |r| :: r[i] == snapshots[i].timestamp
  {
    seq(|snapshots|, i requires 0 <= i < |snapshots| => snapshots[i].timestamp)
  }

  /** The curve of a period holds the equities of exactly the snapshots inside it, in order. */
  lemma {:induction false} WindowIsInside(snapshots: seq<Snapshot>, start: int, end: int)
    ensures var inside, window := Inside(Moments(snapshots), start, end), Window(snapshots, start, end);
            |window| == |inside| && forall k | 0 <= k < |window| :: window[k] == snapshots[inside[k]].equity
  {
    if |snapshots| > 0 {
      var n := |snapshots| - 1;
      WindowIsInside(snapshots[..n], start, end);
      assert Moments(snapshots)[..n] == Moments(snapshots[..n]);
    }
  }

  /** The snapshot was taken inside the closed period. */
  predicate Dated(snapshots: seq<Snapshot>, start: int, end: int, i: nat) {
    i < |snapshots| && start <= snapshots[i].timestamp && snapshots[i].timestamp <= end
  }

  /** `drawdown` is the largest relative fall from a snapshot of the period to a later one of it, and zero
      when there is none. */
  predicate WorstFall(snapshots: seq<Snapshot>, start: int, end: int, drawdown: real) {
    && (forall i, j | 0 <= i <= j < |snapshots| && Dated(snapshots, start, end, i) && Dated(snapshots, start, end, j) ::
          snapshots[i].equity - snapshots[j].equity <= drawdown * snapshots[i].equity)
    && ((exists i, j | 0 <= i <= j < |snapshots| &&
                       Dated(snapshots, start, end, i) && Dated(snapshots, start, end, j) ::
           snapshots[i].equity - snapshots[j].equity == drawdown * snapshots[i].equity) ||
        (drawdown == 0.0 && forall i | 0 <= i < |snapshots| :: !Dated(snapshots, start, end, i)))
  }

  lemma FallOfLoss(high: real, low: real, drawdown: real)
    requires high > 0.0
    ensures Loss(high, low) <= drawdown <==> high - low <= drawdown * high
    ensures Loss(high, low) == drawdown <==> high - low == drawdown * high
  {
    var x := Loss(high, low);
    assert x * high == high - low;
    assert (drawdown - x) * high == drawdown * high - x * high;
  }

  lemma WindowedWorstFall(snapshots: seq<Snapshot>, start: int, end: int)
    requires forall i | 0 <= i < |snapshots| && Dated(snapshots, start, end, i) :: snapshots[i].equity > 0.0
    ensures var drawdown := MaximumDrawdown(Window(snapshots, start, end));
            drawdown.Some? && WorstFall(snapshots, start, end, drawdown.value)
  {
    hide Inside, Window, RunningOver;
    InsideExactly(Moments(snapshots), start, end);
    WindowIsInside(snapshots, start, end);
    var inside, window := Inside(Moments(snapshots), start, end), Window(snapshots, start, end);
    if |window| == 0 {
      assert forall i | 0 <= i < |snapshots| :: Dated(snapshots, start, end, i) ==> i in inside;
    } else {
      assert forall k | 0 <= k < |window| :: Dated(snapshots, start, end, inside[k]);
      OnePassIsWorst(window);
      WorstIsWorstPair(window);
      WorstInside(snapshots, start, end, Worst(window));
    }
  }

  /** Where snapshot `i` of the period stands in its curve. */
  lemma PlaceOf(snapshots: seq<Snapshot>, start: int, end: int, i: nat) returns (k: nat)
    requires Dated(snapshots, start, end, i)
    ensures var inside := Inside(Moments(snapshots), start, end); k < |inside| && inside[k] == i
  {
    hide Inside;
    InsideExactly(Moments(snapshots), start, end);
    var inside := Inside(Moments(snapshots), start, end);
    assert Moments(snapshots)[i] == snapshots[i].timestamp;
    assert LiesInside(Moments(snapshots), start, end, i);
    k :| 0 <= k < |inside| && inside[k] == i;
  }

  lemma FallInside(snapshots: seq<Snapshot>, start: int, end: int, worst: real, i: nat, j: nat)
    requires var window := Window(snapshots, start, end); Positive(window) && IsWorstPair(window, worst)
    requires i <= j && Dated(snapshots, start, end, i) && Dated(snapshots, start, end, j)
    ensures snapshots[i].equity - snapshots[j].equity <= worst * snapshots[i].equity
  {
    hide Inside, Window, Loss;
    InsideExactly(Moments(snapshots), start, end);
    WindowIsInside(snapshots, start, end);
    var window := Window(snapshots, start, end);
    var k := PlaceOf(snapshots, start, end, i);
    var l := PlaceOf(snapshots, start, end, j);
    assert k <= l;
    assert Loss(window[k], window[l]) <= worst;
    FallOfLoss(window[k], window[l], worst);
  }

  lemma FallAttained(snapshots: seq<Snapshot>, start: int, end: int, worst: real) returns (i: nat, j: nat)
    requires var window := Window(snapshots, start, end); Positive(window) && IsWorstPair(window, worst)
    ensures i <= j && Dated(snapshots, start, end, i) && Dated(snapshots, start, end, j)
    ensures snapshots[i].equity - snapshots[j].equity == worst * snapshots[i].equity
  {
    hide Inside, Window, Loss;
    InsideExactly(Moments(snapshots), start, end);
    WindowIsInside(snapshots, start, end);
    var inside, window := Inside(Moments(snapshots), start, end), Window(snapshots, start, end);
    var k, l :| 0 <= k <= l < |window| && Loss(window[k], window[l]) == worst;
    i, j := inside[k], inside[l];
    FallOfLoss(window[k], window[l], worst);
  }

  lemma WorstInside(snapshots: seq<Snapshot>, start: int, end: int, worst: real)
    requires var window := Window(snapshots, start, end); Positive(window) && IsWorstPair(window, worst)
    ensures WorstFall(snapshots, start, end, worst)
  {
    hide Inside, Window, IsWorstPair, Dated;
    forall i, j | 0 <= i <= j < |snapshots| && Dated(snapshots, start, end, i) && Dated(snapshots, start, end, j)
      ensures snapshots[i].equity - snapshots[j].equity <= worst * snapshots[i].equity
    {
      FallInside(snapshots, start, end, worst, i, j);
    }
    var i, j := FallAttained(snapshots, start, end, worst);
    DatedExists(snapshots, start, end, j);
  }

  lemma DatedExists(snapshots: seq<Snapshot>, start: int, end: int, i: nat)
    requires Dated(snapshots, start, end, i)
    ensures i < |snapshots|
  {
  }

  /** One period's row, or why there is none. */
  method DailyPerformance(
    known: bool, rows: seq<Valued>, trades: seq<TradeCost>, snapshots: seq<Snapshot>, start: int, end: int)
    returns (r: DailyReport)
    ensures r == Failed(AccountMissing) <==> !known
    ensures r == Failed(PriceMissing) <==> known && exists i | 0 <= i < |rows| :: rows[i].open && rows[i].price.None?
    ensures r == Failed(DivisionByZero) <==>
            known && Priced(rows) && MaximumDrawdown(Window(snapshots, start, end)).None?
    ensures r.Ready? ==>
              MaximumDrawdown(Window(snapshots, start, end)).Some? &&
              r.row == Daily(Realized(rows), Unrealized(rows),
                             PeriodFees(trades, start, end), PeriodTax(trades, start, end),
                             NetResult(rows, trades, start, end), MaximumDrawdown(Window(snapshots, start, end)).value,
                             Executions(trades, start, end), EquityAt(snapshots, start), EquityAt(snapshots, end))
    ensures r.Ready? ==>
              var inside := Inside(TradeMoments(trades), start, end);
              && r.row.fees == Sum(Fees(trades, inside)) && r.row.tax == Sum(Taxes(trades, inside))
              && r.row.executions == |inside|
    ensures (forall i | 0 <= i < |snapshots| && Dated(snapshots, start, end, i) :: snapshots[i].equity > 0.0) &&
            r.Ready? ==>
              WorstFall(snapshots, start, end, r.row.drawdown)
  {
    if !known {
      return Failed(AccountMissing);
    }
    var values := ValueOpenRows(rows);
    if values.None? {
      return Failed(PriceMissing);
    }
    var unrealized := values.value.1;
    var realized := RealizedSum(rows);
    var fees, tax, executions := PeriodTotals(trades, start, end);
    var starting := LastEquity(snapshots, start);
    var ending := LastEquity(snapshots, end);
    var drawdown := Calculate(Window(snapshots, start, end));
    if drawdown.None? {
      return Failed(DivisionByZero);
    }
    PeriodFigures(trades, start, end);
    assert FiguresAgree(trades, start, end);
    if forall i | 0 <= i < |snapshots| && Dated(snapshots, start, end, i) :: snapshots[i].equity > 0.0 {
      WindowedWorstFall(snapshots, start, end);
    }
    return Ready(Daily(realized, unrealized, fees, tax, realized + unrealized - fees - tax, drawdown.value, executions,
                       starting, ending));
  }

  predicate Chronological(snapshots: seq<Snapshot>) {
    forall i, j | 0 <= i <= j < |snapshots| :: snapshots[i].timestamp <= snapshots[j].timestamp
  }

  /** On chronological rows the early break finds the last row at or before the bound. */
  lemma EquityAtIsLast(snapshots: seq<Snapshot>, bound: int, i: nat)
    requires Chronological(snapshots) && i < |snapshots|
    ensures snapshots[i].timestamp <= bound && (forall j | i < j < |snapshots| :: snapshots[j].timestamp > bound)
            ==> EquityAt(snapshots, bound) == Some(snapshots[i].equity)
    ensures EquityAt(snapshots, bound) == None <==> forall j | 0 <= j < |snapshots| :: snapshots[j].timestamp > bound
  {
    var n := UpTo(snapshots, bound);
    if n > 0 {
      assert snapshots[n - 1].timestamp <= bound;
    } else {
      assert snapshots[0].timestamp > bound;
    }
  }

  /** No larger in peak or worst drop. */
  predicate Within(window: seq<real>, curve: seq<real>) {
    && Positive(window) && Positive(curve) && |window| <= |curve|
    && (|window| > 0 ==> Peak(window) <= Peak(curve) && Worst(window) <= Worst(curve))
  }

  lemma WithinSkip(window: seq<real>, curve: seq<real>, x: real)
    requires Within(window, curve) && x > 0.0
    ensures Within(window, curve + [x])
  {
    assert (curve + [x])[..|curve|] == curve;
  }

  lemma WithinTake(window: seq<real>, curve: seq<real>, x: real)
    requires Within(window, curve) && x > 0.0
    ensures Within(window + [x], curve + [x])
  {
    assert (window + [x])[..|window|] == window && (curve + [x])[..|curve|] == curve;
    PeakPositive(window + [x]);
    PeakPositive(curve + [x]);
    WorstNonNegative(curve + [x]);
    LossMonotone(Peak(window + [x]), Peak(curve + [x]), x);
  }

  /** A window is a subsequence of the curve, so its peak and its worst drop are no larger. */
  lemma {:induction false} WindowWithinHistory(snapshots: seq<Snapshot>, start: int, end: int)
    requires Positive(Curve(snapshots))
    ensures Within(Window(snapshots, start, end), Curve(snapshots))
  {
    if |snapshots| > 0 {
      var n := |snapshots| - 1;
      var curve, x := Curve(snapshots), snapshots[n].equity;
      CurveOfPrefix(snapshots, n);
      assert curve[n] == x && curve == curve[..n] + [x];
      WindowWithinHistory(snapshots[..n], start, end);
      var before := Window(snapshots[..n], start, end);
      if start <= snapshots[n].timestamp <= end {
        WithinTake(before, curve[..n], x);
      } else {
        WithinSkip(before, curve[..n], x);
        assert Window(snapshots, start, end) == before;
      }
    }
  }

  lemma {:induction false} WorstNonNegative(curve: seq<real>)
    requires |curve| > 0 && Positive(curve)
    ensures Worst(curve) >= 0.0
  {
    if |curve| > 1 {
      WorstNonNegative(curve[..|curve| - 1]);
    }
  }

  /** A daily window never shows more drawdown than the history persisted with its last snapshot. */
  lemma WindowedDrawdownBounded(snapshots: seq<Snapshot>, start: int, end: int)
    requires Faithful(snapshots) && Positive(Curve(snapshots)) && |snapshots| > 0
    ensures var windowed := MaximumDrawdown(Window(snapshots, start, end));
            windowed.Some? && windowed.value <= snapshots[|snapshots| - 1].drawdown
  {
    var curve := Curve(snapshots);
    assert snapshots[..|snapshots| - 1 + 1] == snapshots;
    OnePassIsWorst(curve);
    WorstNonNegative(curve);
    WindowWithinHistory(snapshots, start, end);
    if |Window(snapshots, start, end)| > 0 {
      OnePassIsWorst(Window(snapshots, start, end));
    }
  }
}
