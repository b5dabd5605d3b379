/** The equity and daily figures of an account against the ledger they are computed from. */
module EquityLedger {
  import opened Options
  import opened Ledger
  import opened Submission
  import opened Gates
  import opened Books
  import opened Invariants
  import opened LedgerTheorems
  import opened Episodes
  import opened EpisodeBooks
  import E = EquityHistory

  type Prices = string -> real

  /** What the services read of the account's rows. */
  function Rows(positions: seq<Position>, account: string, prices: Prices): seq<E.Valued> {
    if |positions| == 0 then []
    else
      var n := |positions| - 1;
      var p := positions[n];
      Rows(positions[..n], account, prices) +
      if p.accountId == account
      then [E.Valued(p.open, Some(prices(p.symbol)), p.quantity, p.averagePrice, p.realizedPnl)] else []
  }

  /** And of its trades. */
  function Costs(trades: seq<Trade>, account: string): seq<E.TradeCost> {
    if |trades| == 0 then []
    else
      var t := trades[|trades| - 1];
      Costs(trades[..|trades| - 1], account) +
      if t.accountId == account then [E.TradeCost(t.fee, t.tax, t.executedAt)] else []
  }

  // ---------- what the account is worth ----------

  /** Holdings at market prices, negative for what a short owes. */
  function HeldAtMarket(positions: seq<Position>, account: string, prices: Prices): real {
    if |positions| == 0 then 0.0
    else
      var n := |positions| - 1;
      HeldAtMarket(positions[..n], account, prices) +
      if positions[n].accountId == account then AtCost(SignedHolding(positions[n]), prices(positions[n].symbol))
      else 0.0
  }

  /** What buying back every open short would cost at market prices, and what selling them brought in. */
  function OwedAtMarket(positions: seq<Position>, account: string, prices: Prices): real {
    if |positions| == 0 then 0.0
    else
      var n := |positions| - 1;
      var p := positions[n];
      OwedAtMarket(positions[..n], account, prices) +
      if p.accountId == account && p.direction.Short? then AtCost(p.quantity, prices(p.symbol)) else 0.0
  }

  function OwedAtCost(positions: seq<Position>, account: string): real {
    if |positions| == 0 then 0.0
    else
      var n := |positions| - 1;
      var p := positions[n];
      OwedAtCost(positions[..n], account) +
      if p.accountId == account && p.direction.Short? then AtCost(p.quantity, p.averagePrice) else 0.0
  }

  /** Closed rows hold nothing. */
  predicate ClosedHoldNothing(positions: seq<Position>) {
    forall i | 0 <= i < |positions| :: !positions[i].open ==> positions[i].quantity == 0.0
  }

  lemma ClosedRowsAreEmpty(s: Store, p: Policy)
    requires Inv(s, p)
    ensures ClosedHoldNothing(s.positions)
  {
    forall i | 0 <= i < |s.positions| && !s.positions[i].open ensures s.positions[i].quantity == 0.0 {
      RowShape(s, p, i);
    }
  }

  lemma ProductSigns(q: real, price: real, average: real)
    ensures AtCost(q, price) == price * q && AtCost(-q, price) == -(price * q)
    ensures (price - average) * q == price * q - average * q
    ensures AtCost(0.0, price) == 0.0
  {
  }

  lemma RowFigures(p: Position, price: real)
    requires !p.open ==> p.quantity == 0.0
    ensures var row := E.Valued(p.open, Some(price), p.quantity, p.averagePrice, p.realizedPnl);
            var owed := if p.direction.Short? then AtCost(p.quantity, price) else 0.0;
            var basis := if p.direction.Short? then AtCost(p.quantity, p.averagePrice) else 0.0;
            && E.ValueOf(row) == AtCost(SignedHolding(p), price) + 2.0 * owed
            && E.UnrealizedOf(row) ==
               AtCost(SignedHolding(p), price) - AtCost(SignedHolding(p), p.averagePrice) + 2.0 * (owed - basis)
  {
    ProductSigns(p.quantity, price, p.averagePrice);
    ProductSigns(p.quantity, p.averagePrice, 0.0);
  }

  /** The services' sums in terms of signed holdings: each open short is counted as if it were held. */
  lemma {:induction false} FiguresOfRows(positions: seq<Position>, account: string, prices: Prices)
    requires ClosedHoldNothing(positions)
    ensures var rows := Rows(positions, account, prices);
            && E.Priced(rows)
            && E.Realized(rows) == RealizedTotal(positions, account)
            && E.MarketValue(rows) ==
               HeldAtMarket(positions, account, prices) + 2.0 * OwedAtMarket(positions, account, prices)
            && E.Unrealized(rows) ==
               HeldAtMarket(positions, account, prices) - HeldAtCost(positions, account)
               + 2.0 * (OwedAtMarket(positions, account, prices) - OwedAtCost(positions, account))
  {
    hide AtCost, SignedHolding, E.ValueOf, E.UnrealizedOf, E.MarketValue, E.Unrealized, E.Realized, E.Priced;
    if |positions| == 0 {
      SumsOfNone();
    } else {
      var n := |positions| - 1;
      var p := positions[n];
      var rows := Rows(positions[..n], account, prices);
      FiguresOfRows(positions[..n], account, prices);
      if p.accountId == account {
        var row := E.Valued(p.open, Some(prices(p.symbol)), p.quantity, p.averagePrice, p.realizedPnl);
        RowFigures(p, prices(p.symbol));
        SumsAppend(rows, row);
      } else {
        assert Rows(positions, account, prices) == rows;
      }
    }
  }

  lemma SumsOfNone()
    ensures E.Priced([]) && E.Realized([]) == E.MarketValue([]) == E.Unrealized([]) == 0.0
  {
  }

  lemma SumsAppend(rows: seq<E.Valued>, row: E.Valued)
    ensures E.Realized(rows + [row]) == E.Realized(rows) + row.realized
    ensures E.MarketValue(rows + [row]) == E.MarketValue(rows) + E.ValueOf(row)
    ensures E.Unrealized(rows + [row]) == E.Unrealized(rows) + E.UnrealizedOf(row)
    ensures E.Priced(rows) && row.price.Some? ==> E.Priced(rows + [row])
  {
    assert (rows + [row])[..|rows|] == rows;
  }

  /** Cash and holdings at market prices. */
  function Worth(s: Store, account: string, prices: Prices): real
    requires account in s.accounts
  {
    s.accounts[account].cash + HeldAtMarket(s.positions, account, prices)
  }

  /** The equity a snapshot stores is what the account is worth plus twice what its open shorts owe; so it
      is right exactly when they owe nothing. */
  lemma SnapshotEquityExactly(s: Store, p: Policy, accounts: map<string, Account>, account: string, prices: Prices)
    requires Reachable(s, p, accounts) && account in s.accounts
    ensures var equity := s.accounts[account].cash + E.MarketValue(Rows(s.positions, account, prices));
            && equity == Worth(s, account, prices) + 2.0 * OwedAtMarket(s.positions, account, prices)
            && (equity == Worth(s, account, prices) <==> OwedAtMarket(s.positions, account, prices) == 0.0)
  {
    ReachableInv(s, p, accounts);
    ClosedRowsAreEmpty(s, p);
    FiguresOfRows(s.positions, account, prices);
  }

  // ---------- the daily net result ----------

  predicate Exits(log: seq<Trade>, n: nat)
    requires n < |log|
  {
    SideOf(log[n].action) != RowSide(log[..n], log[n])
  }

  /** Costs of the account's exits executed in the period. */
  function ExitCostsWithin(log: seq<Trade>, account: string, start: int, end: int): real {
    if |log| == 0 then 0.0
    else
      var n := |log| - 1;
      ExitCostsWithin(log[..n], account, start, end) +
      if log[n].accountId == account && start <= log[n].executedAt <= end && Exits(log, n)
      then log[n].fee + log[n].tax else 0.0
  }

  /** Costs of its entries executed outside it. */
  function EntryCostsOutside(log: seq<Trade>, account: string, start: int, end: int): real {
    if |log| == 0 then 0.0
    else
      var n := |log| - 1;
      EntryCostsOutside(log[..n], account, start, end) +
      if log[n].accountId == account && !(start <= log[n].executedAt <= end) && !Exits(log, n)
      then log[n].fee + log[n].tax else 0.0
  }

  lemma PeriodAppend(costs: seq<E.TradeCost>, c: E.TradeCost, start: int, end: int)
    ensures E.PeriodFees(costs + [c], start, end) + E.PeriodTax(costs + [c], start, end) ==
            E.PeriodFees(costs, start, end) + E.PeriodTax(costs, start, end)
            + if start <= c.executedAt <= end then c.fee + c.tax else 0.0
  {
    assert (costs + [c])[..|costs|] == costs;
  }

  lemma PeriodOfNone(account: string, start: int, end: int)
    ensures PeriodCosts([], account, start, end) == 0.0
  {
  }

  function PeriodCosts(log: seq<Trade>, account: string, start: int, end: int): real {
    E.PeriodFees(Costs(log, account), start, end) + E.PeriodTax(Costs(log, account), start, end)
  }

  lemma PeriodCostsAppend(log: seq<Trade>, t: Trade, account: string, start: int, end: int)
    ensures PeriodCosts(log + [t], account, start, end) ==
            PeriodCosts(log, account, start, end)
            + if t.accountId == account && start <= t.executedAt <= end then t.fee + t.tax else 0.0
  {
    assert (log + [t])[..|log|] == log;
    if t.accountId != account {
      assert Costs(log + [t], account) == Costs(log, account);
    } else {
      PeriodAppend(Costs(log, account), E.TradeCost(t.fee, t.tax, t.executedAt), start, end);
    }
  }

  /** The period's costs are its exits' and its entries'. */
  lemma {:induction false} PeriodCostsSplit(log: seq<Trade>, account: string, start: int, end: int)
    ensures PeriodCosts(log, account, start, end) ==
            EntryCosts(log, account) + ExitCostsWithin(log, account, start, end)
            - EntryCostsOutside(log, account, start, end)
  {
    hide RowSide, SideOf, PeriodCosts;
    if |log| == 0 {
      PeriodOfNone(account, start, end);
    } else {
      var n := |log| - 1;
      assert log[..n] + [log[n]] == log;
      PeriodCostsSplit(log[..n], account, start, end);
      PeriodCostsAppend(log[..n], log[n], account, start, end);
    }
  }

  lemma {:induction false} PeriodCostsOfPart(log: seq<Trade>, part: seq<Trade>, account: string, start: int, end: int)
    requires IsPart(log, part)
    ensures PeriodCosts(log, account, start, end) ==
            PeriodCosts(part, account, start, end) + PeriodCosts(Missing(log, part), account, start, end)
  {
    hide IsPart, Missing, PeriodCosts;
    if |log| == 0 {
      NothingMissing(log, part);
      PeriodOfNone(account, start, end);
    } else {
      var n, m := |log| - 1, |part| - 1;
      assert log[..n] + [log[n]] == log;
      PeriodCostsAppend(log[..n], log[n], account, start, end);
      if m >= 0 && part[m] == log[n] {
        SharedLast(log, part);
        assert part[..m] + [part[m]] == part;
        PeriodCostsAppend(part[..m], part[m], account, start, end);
        PeriodCostsOfPart(log[..n], part[..m], account, start, end);
      } else {
        UnsharedLast(log, part);
        PeriodCostsAppend(Missing(log[..n], part), log[n], account, start, end);
        PeriodCostsOfPart(log[..n], part, account, start, end);
      }
    }
  }

  /** What trades not yet booked leave out of the account's gain: their flow where cash has moved, and
      the costs the period counts for them. */
  function UnbookedGap(s: Store, account: string, start: int, end: int): real {
    TotalCashFlow(Missing(s.cashLog, s.positionLog), account)
    + PeriodCosts(Missing(s.trades, s.positionLog), account, start, end)
  }

  /** The daily net result against what the account has gained, in every reachable state: it leaves out
      the entry costs of other periods, charges the period's exit costs a second time, counts the loss on
      open shorts as a gain, and misses what is not yet booked. */
  lemma NetResultExactly(
    s: Store, p: Policy, accounts: map<string, Account>, account: string, prices: Prices, start: int, end: int)
    requires Reachable(s, p, accounts) && account in accounts
    ensures account in s.accounts
    ensures var gain := Worth(s, account, prices) - accounts[account].cash;
            E.NetResult(Rows(s.positions, account, prices), Costs(s.trades, account), start, end) ==
            gain + EntryCostsOutside(s.positionLog, account, start, end)
            - ExitCostsWithin(s.positionLog, account, start, end)
            + 2.0 * (OwedAtMarket(s.positions, account, prices) - OwedAtCost(s.positions, account))
            - UnbookedGap(s, account, start, end)
  {
    hide Inv, Reachable, EntryCosts, HeldAtCost, RealizedTotal, TotalCashFlow;
    ReachableInv(s, p, accounts);
    ClosedRowsAreEmpty(s, p);
    FiguresOfRows(s.positions, account, prices);
    LogIsPart(s, p);
    PeriodCostsOfPart(s.trades, s.positionLog, account, start, end);
    PeriodCostsSplit(s.positionLog, account, start, end);
    AccountEquation(s, p, accounts, account);
  }

  lemma {:induction false} CostsOfOthers(log: seq<Trade>, account: string, start: int, end: int)
    requires forall i | 0 <= i < |log| :: log[i].accountId != account
    ensures PeriodCosts(log, account, start, end) == 0.0
  {
    hide PeriodCosts;
    if |log| == 0 {
      PeriodOfNone(account, start, end);
    } else {
      var n := |log| - 1;
      CostsOfOthers(log[..n], account, start, end);
      assert log[..n] + [log[n]] == log;
      PeriodCostsAppend(log[..n], log[n], account, start, end);
    }
  }

  /** Where all trades of an account were booked nothing is left out. */
  lemma NothingUnbooked(s: Store, p: Policy, account: string, start: int, end: int)
    requires Inv(s, p) && AccountBooked(s, account)
    ensures UnbookedGap(s, account, start, end) == 0.0
  {
    hide Inv, Missing, PeriodCosts;
    PaidIsBooked(s, p, account);
    OthersMissing(s.cashLog, s.positionLog, account);
    OthersMissing(s.trades, s.positionLog, account);
    FlowOfOthers(Missing(s.cashLog, s.positionLog), account);
    CostsOfOthers(Missing(s.trades, s.positionLog), account, start, end);
  }

  lemma {:induction false} NoShortOwes(positions: seq<Position>, account: string, prices: Prices)
    requires forall i | 0 <= i < |positions| :: positions[i].accountId == account ==> positions[i].direction.Long?
    ensures OwedAtMarket(positions, account, prices) == 0.0 && OwedAtCost(positions, account) == 0.0
  {
    if |positions| > 0 {
      NoShortOwes(positions[..|positions| - 1], account, prices);
    }
  }

  lemma {:induction false} NothingOutside(log: seq<Trade>, account: string, start: int, end: int)
    requires forall i | 0 <= i < |log| :: log[i].accountId == account ==> start <= log[i].executedAt <= end
    ensures EntryCostsOutside(log, account, start, end) == 0.0
  {
    hide RowSide;
    if |log| > 0 {
      NothingOutside(log[..|log| - 1], account, start, end);
    }
  }

  /** Fees and taxes of the account's SELLs in the period. */
  function SaleCostsWithin(log: seq<Trade>, account: string, start: int, end: int): real {
    if |log| == 0 then 0.0
    else
      var t := log[|log| - 1];
      SaleCostsWithin(log[..|log| - 1], account, start, end) +
      if t.accountId == account && start <= t.executedAt <= end && t.action.Sell? then t.fee + t.tax else 0.0
  }

  /** The account has never sold more of any symbol than it held. */
  ghost predicate NeverShort(log: seq<Trade>, account: string) {
    && (forall i | 0 <= i < |log| :: Executable(log[i]))
    && forall symbol :: NeverOversold(TradesOf(log, account, symbol))
  }

  lemma ShorterNeverShort(log: seq<Trade>, account: string)
    requires |log| > 0 && NeverShort(log, account)
    ensures NeverShort(log[..|log| - 1], account)
  {
    hide NetQuantity;
    var n := |log| - 1;
    forall symbol ensures NeverOversold(TradesOf(log[..n], account, symbol)) {
      var all, front := TradesOf(log, account, symbol), TradesOf(log[..n], account, symbol);
      forall i | 0 <= i <= |front| ensures NetQuantity(front[..i]) >= 0.0 {
        assert front[..i] == all[..i];
      }
    }
  }

  lemma SaleMeetsHolding(log: seq<Trade>, account: string)
    requires |log| > 0 && NeverShort(log, account) && log[|log| - 1].accountId == account
    ensures Exits(log, |log| - 1) <==> log[|log| - 1].action.Sell?
  {
    var n := |log| - 1;
    var t := log[n];
    ShorterNeverShort(log, account);
    var front, all := TradesOf(log[..n], account, t.symbol), TradesOf(log, account, t.symbol);
    assert all == front + [t];
    NetAppend(front, t);
    assert front[..|front|] == front && all[..|all|] == all;
    assert NetQuantity(front[..|front|]) >= 0.0 && NetQuantity(all[..|all|]) >= 0.0;
  }

  lemma {:induction false} ExitsAreSales(log: seq<Trade>, account: string, start: int, end: int)
    requires NeverShort(log, account)
    ensures ExitCostsWithin(log, account, start, end) == SaleCostsWithin(log, account, start, end)
  {
    hide NeverShort, Exits;
    if |log| > 0 {
      ShorterNeverShort(log, account);
      ExitsAreSales(log[..|log| - 1], account, start, end);
      if log[|log| - 1].accountId == account {
        SaleMeetsHolding(log, account);
      }
    }
  }

  lemma AppliedNeverShort(s: Store, p: Policy, account: string)
    requires Inv(s, p) && !MayShort(s, p, account)
    ensures NeverShort(s.positionLog, account)
  {
    forall symbol ensures NeverOversold(TradesOf(s.positionLog, account, symbol)) {
      assert BookOk(s, account, symbol);
      BookOfState(s, account, symbol);
      LongBook(s, p, account, symbol);
      LongBookNeverOversold(TradesOf(s.positionLog, account, symbol));
    }
  }

  lemma LongBook(s: Store, p: Policy, account: string, symbol: string)
    requires Inv(s, p) && !MayShort(s, p, account)
    ensures AllLong(RowsOf(s.positions, account, symbol))
  {
    var book := RowsOf(s.positions, account, symbol);
    forall j | 0 <= j < |book| ensures book[j].direction.Long? {
      var i := BookRowInTable(s.positions, account, symbol, j);
      assert Plain(s.positions[i]) == book[j];
    }
  }

  /** For an account that cannot short, over a period with all its trades, the net result is too low by
      exactly the fees and taxes of its sales and what is not yet booked; once all its trades were booked,
      it is right exactly when its sales cost nothing. */
  lemma LongNetResultExactly(
    s: Store, p: Policy, accounts: map<string, Account>, account: string, prices: Prices, start: int, end: int)
    requires Reachable(s, p, accounts) && account in accounts && !MayShort(s, p, account)
    requires forall i | 0 <= i < |s.trades| :: s.trades[i].accountId == account ==>
             start <= s.trades[i].executedAt <= end
    ensures account in s.accounts
    ensures var gain := Worth(s, account, prices) - accounts[account].cash;
            var net := E.NetResult(Rows(s.positions, account, prices), Costs(s.trades, account), start, end);
            var sales := SaleCostsWithin(s.positionLog, account, start, end);
            && net == gain - sales - UnbookedGap(s, account, start, end)
            && (AccountBooked(s, account) ==> net == gain - sales && (net == gain <==> sales == 0.0))
  {
    hide Reachable, OwedAtMarket, OwedAtCost, ExitCostsWithin, SaleCostsWithin, NeverShort, EntryCostsOutside,
         TotalCashFlow, PeriodCosts, Missing;
    ReachableInv(s, p, accounts);
    NetResultExactly(s, p, accounts, account, prices, start, end);
    NoShortOwes(s.positions, account, prices);
    LogWithin(s, p, account, start, end);
    NothingOutside(s.positionLog, account, start, end);
    AppliedNeverShort(s, p, account);
    ExitsAreSales(s.positionLog, account, start, end);
    if AccountBooked(s, account) {
      NothingUnbooked(s, p, account, start, end);
    }
  }

  lemma PaidIsBooked(s: Store, p: Policy, account: string)
    requires Inv(s, p) && AccountBooked(s, account)
    ensures forall i | 0 <= i < |s.cashLog| && s.cashLog[i].accountId == account :: s.cashLog[i] in s.positionLog
  {
    hide OrdersOk, KeysOk, CashOk, BooksOk, LongOk, ValueOk, TradesOk;
  }

  lemma LogWithin(s: Store, p: Policy, account: string, start: int, end: int)
    requires Inv(s, p)
    requires forall i | 0 <= i < |s.trades| :: s.trades[i].accountId == account ==>
             start <= s.trades[i].executedAt <= end
    ensures forall i | 0 <= i < |s.positionLog| :: s.positionLog[i].accountId == account ==>
            start <= s.positionLog[i].executedAt <= end
  {
    hide OrdersOk, KeysOk, CashOk, BooksOk, LongOk, ValueOk, TradesOk;
  }
}
