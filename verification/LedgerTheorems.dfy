/** Results about whole runs of submissions, each of which may be cut off after any write. */
module LedgerTheorems {
  import opened Options
  import opened Ledger
  import opened Gates
  import opened Submission
  import opened Books
  import opened Invariants

  // ---------- idempotency keys ----------

  /** How often a trade id occurs in a log. */
  function Times(log: seq<Trade>, id: nat): nat {
    if |log| == 0 then 0 else Times(log[..|log| - 1], id) + if log[|log| - 1].tradeId == id then 1 else 0
  }

  function TradesOfOrder(trades: seq<Trade>, order: nat): nat {
    if |trades| == 0 then 0
    else TradesOfOrder(trades[..|trades| - 1], order) + if trades[|trades| - 1].orderId == order then 1 else 0
  }

  lemma {:induction false} LoggedOnce(log: seq<Trade>, id: nat)
    requires forall i, j | 0 <= i < j < |log| :: log[i].tradeId < log[j].tradeId
    ensures Times(log, id) == if exists i | 0 <= i < |log| :: log[i].tradeId == id then 1 else 0
  {
    if |log| > 0 {
      var n := |log| - 1;
      LoggedOnce(log[..n], id);
      if exists i | 0 <= i < n :: log[i].tradeId == id {
        var i :| 0 <= i < n && log[i].tradeId == id;
        assert log[..n][i].tradeId == id;
      }
    }
  }

  lemma {:induction false} OneTradeEach(trades: seq<Trade>, order: nat)
    requires forall i, j | 0 <= i < j < |trades| :: trades[i].orderId < trades[j].orderId
    ensures TradesOfOrder(trades, order) == if HasTrade(trades, order) then 1 else 0
  {
    if |trades| > 0 {
      var n := |trades| - 1;
      OneTradeEach(trades[..n], order);
      if HasTrade(trades[..n], order) {
        HasTradeMonotone(trades[..n], [trades[n]], order);
        assert trades[..n] + [trades[n]] == trades;
      }
    }
  }

  /** In every state of every run, a recorded key stands for one filled order with one trade whose
      cash effect and position effect have each been applied exactly once. */
  lemma RecordedKeyIsComplete(s: Store, p: Policy, accounts: map<string, Account>, key: string)
    requires Reachable(s, p, accounts)
    requires key in s.keys
    ensures var row := s.keys[key];
            && row.orderId < |s.orders| && s.orders[row.orderId].status == Filled
            && row.tradeId < |s.trades| && s.trades[row.tradeId].orderId == row.orderId
            && TradesOfOrder(s.trades, row.orderId) == 1
            && Times(s.cashLog, row.tradeId) == 1 && Times(s.positionLog, row.tradeId) == 1
  {
    ReachableInv(s, p, accounts);
    var row := s.keys[key];
    assert KeyComplete(s, row);
    OneTradeEach(s.trades, row.orderId);
    LoggedOnce(s.cashLog, row.tradeId);
    LoggedOnce(s.positionLog, row.tradeId);
    var i :| 0 <= i < |s.cashLog| && s.cashLog[i] == s.trades[row.tradeId];
    var j :| 0 <= j < |s.positionLog| && s.positionLog[j] == s.trades[row.tradeId];
    assert s.cashLog[i].tradeId == row.tradeId && s.positionLog[j].tradeId == row.tradeId;
  }

  /** A call records its key exactly when it completes; a call cut short leaves the key free. */
  lemma KeyRecordedIffDone(s: Store, p: Policy, c: Call, writes: nat)
    ensures Result(s, p, c, writes).Done? ==> c.key !in s.keys
    ensures Result(s, p, c, writes).Done? ==> After(s, p, c, writes).keys.Keys == s.keys.Keys + {c.key}
    ensures !Result(s, p, c, writes).Done? ==> After(s, p, c, writes).keys == s.keys
  {
    hide Refusal;
    if Refusal(s, p, c).None? {
      PassedGates(s, p, c);
    }
  }

  predicate Completes(s: Store, p: Policy, e: Event) {
    e.Submit? && Result(s, p, e.call, e.writes).Done?
  }

  /** The keys of a run's completed calls, in order. */
  function CompletedKeys(s: Store, p: Policy, events: seq<Event>): seq<string> {
    if |events| == 0 then []
    else
      var n := |events| - 1;
      CompletedKeys(s, p, events[..n]) +
      if Completes(Run(s, p, events[..n]), p, events[n]) then [events[n].call.key] else []
  }

  lemma StepKeepsKeys(s: Store, p: Policy, e: Event)
    ensures s.keys.Keys <= Step(s, p, e).keys.Keys
    ensures Completes(s, p, e) ==> e.call.key !in s.keys && e.call.key in Step(s, p, e).keys
  {
    hide Result, After;
    if e.Submit? {
      KeyRecordedIffDone(s, p, e.call, e.writes);
    }
  }

  lemma {:induction false} CompletedKeysRecorded(s: Store, p: Policy, events: seq<Event>, key: string)
    requires key in CompletedKeys(s, p, events)
    ensures key in Run(s, p, events).keys
  {
    hide Completes, Step;
    var n := |events| - 1;
    StepKeepsKeys(Run(s, p, events[..n]), p, events[n]);
    if key in CompletedKeys(s, p, events[..n]) {
      CompletedKeysRecorded(s, p, events[..n], key);
    }
  }

  /** No two completed calls of a run share a key. */
  lemma {:induction false} CompletedCallsHaveDistinctKeys(s: Store, p: Policy, events: seq<Event>)
    ensures var keys := CompletedKeys(s, p, events); forall i, j | 0 <= i < j < |keys| :: keys[i] != keys[j]
  {
    hide Completes, Step;
    if |events| > 0 {
      var n := |events| - 1;
      CompletedCallsHaveDistinctKeys(s, p, events[..n]);
      StepKeepsKeys(Run(s, p, events[..n]), p, events[n]);
      var earlier := CompletedKeys(s, p, events[..n]);
      forall i | 0 <= i < |earlier| ensures earlier[i] in Run(s, p, events[..n]).keys {
        CompletedKeysRecorded(s, p, events[..n], earlier[i]);
      }
    }
  }

  /** A call that stopped after `k` writes, by a failed write or a refused update, and was then repeated in
      whatever form to completion: the two make two trades exactly when the first had recorded its own, pay
      twice exactly when it had moved cash, and hold twice exactly when it had moved the position. */
  lemma RetryAfterStop(s: Store, p: Policy, c: Call, k: nat, retry: Call, writes: nat)
    requires k <= Limit(s, p, c) && Result(Partial(s, p, c, k), p, retry, writes).Done?
    ensures var after := After(Partial(s, p, c, k), p, retry, writes);
            && |after.trades| == |s.trades| + (if k >= TRADED then 2 else 1)
            && |after.cashLog| == |s.cashLog| + (if k >= CASHED then 2 else 1)
            && |after.positionLog| == |s.positionLog| + (if k >= POSITIONED then 2 else 1)
            && after.keys.Keys == Partial(s, p, c, k).keys.Keys + {retry.key}
  {
    hide Refusal;
    var stopped := Partial(s, p, c, k);
    assert After(stopped, p, retry, writes) == Partial(stopped, p, retry, FullLength(retry));
  }

  // ---------- conservation ----------

  /** Cash is opening cash plus every applied trade's flow, and never goes negative. */
  lemma CashIsConserved(s: Store, p: Policy, accounts: map<string, Account>, account: string)
    requires Reachable(s, p, accounts)
    requires account in accounts
    ensures account in s.accounts
    ensures s.accounts[account].cash == accounts[account].cash + TotalCashFlow(s.cashLog, account)
    ensures accounts[account].cash >= 0.0 ==> s.accounts[account].cash >= 0.0
  {
    ReachableInv(s, p, accounts);
    ReachableAccounts(s, p, accounts);
  }

  lemma {:induction false} RunKeepsAccounts(s: Store, p: Policy, events: seq<Event>)
    ensures var after := Run(s, p, events);
            && after.opening == s.opening && after.accounts.Keys == s.accounts.Keys
            && forall a | a in s.accounts :: after.accounts[a].assetClass == s.accounts[a].assetClass
  {
    hide Refusal;
    if |events| > 0 {
      var n := |events| - 1;
      RunKeepsAccounts(s, p, events[..n]);
      var before := Run(s, p, events[..n]);
      if events[n].Submit? && Refusal(before, p, events[n].call).None? {
        PassedGates(before, p, events[n].call);
      }
    }
  }

  lemma ReachableAccounts(s: Store, p: Policy, accounts: map<string, Account>)
    requires Reachable(s, p, accounts)
    ensures s.accounts.Keys == accounts.Keys && s.opening.Keys == accounts.Keys
    ensures forall a | a in accounts :: s.opening[a] == accounts[a].cash
    ensures forall a | a in accounts :: s.accounts[a].assetClass == accounts[a].assetClass
  {
    var events: seq<Event> :| s == Run(Fresh(accounts), p, events);
    RunKeepsAccounts(Fresh(accounts), p, events);
  }

  lemma RunAppend(s: Store, p: Policy, events: seq<Event>, c: Call, k: nat)
    ensures Run(s, p, events + [Submit(c, k)]) == After(Run(s, p, events), p, c, k)
  {
    hide After;
    assert (events + [Submit(c, k)])[..|events|] == events;
  }

  /** No row holds less than nothing, and the open ones hold something. */
  lemma RowShape(s: Store, p: Policy, i: nat)
    requires Inv(s, p) && i < |s.positions|
    ensures s.positions[i].quantity >= 0.0 && (s.positions[i].open <==> s.positions[i].quantity > 0.0)
  {
    var account, symbol := s.positions[i].accountId, s.positions[i].symbol;
    assert BookOk(s, account, symbol);
    BookOfState(s, account, symbol);
    RowInBook(s.positions, i, account, symbol);
    var book := RowsOf(s.positions, account, symbol);
    var j :| 0 <= j < |book| && book[j] == Plain(s.positions[i]);
  }

  lemma BooksFromInv(s: Store, p: Policy, account: string, symbol: string)
    requires Inv(s, p)
    ensures BookOk(s, account, symbol) && TradesOk(s) && LogsOk(s)
  {
  }

  lemma OpenRowIsBookEnd(s: Store, p: Policy, account: string, symbol: string)
    requires Inv(s, p)
    ensures var open := OpenPosition(s.positions, account, symbol);
            var net := NetQuantity(TradesOf(s.positionLog, account, symbol));
            if open.Some? then open.value.quantity > 0.0 && SignedHolding(open.value) == net else net == 0.0
  {
    hide *;
    BooksFromInv(s, p, account, symbol);
    BookOfState(s, account, symbol);
    OpenIsBookEnd(s.positions, account, symbol);
  }

  /** Each open quantity is applied BUYs minus applied SELLs, signed by direction; an account that
      cannot short never nets below zero. */
  lemma QuantityIsConserved(s: Store, p: Policy, accounts: map<string, Account>, account: string, symbol: string)
    requires Reachable(s, p, accounts)
    ensures var open := OpenPosition(s.positions, account, symbol);
            var net := NetQuantity(TradesOf(s.positionLog, account, symbol));
            && (if open.Some? then open.value.quantity > 0.0 && SignedHolding(open.value) == net else net == 0.0)
            && (!MayShort(s, p, account) ==> net >= 0.0)
  {
    ReachableInv(s, p, accounts);
    OpenRowIsBookEnd(s, p, account, symbol);
  }

  /** Fees and taxes of the trades that entered a holding, which stay out of realized profit. */
  function EntryCosts(log: seq<Trade>, account: string): real {
    if |log| == 0 then 0.0
    else
      var n := |log| - 1;
      EntryCosts(log[..n], account) +
      if log[n].accountId == account && SideOf(log[n].action) == RowSide(log[..n], log[n])
      then log[n].fee + log[n].tax else 0.0
  }

  /** What the rows hold at their average prices, negative for what a short owes. */
  function HeldAtCost(positions: seq<Position>, account: string): real {
    if |positions| == 0 then 0.0
    else
      var n := |positions| - 1;
      HeldAtCost(positions[..n], account) +
      if positions[n].accountId == account then AtCost(SignedHolding(positions[n]), positions[n].averagePrice) else 0.0
  }

  lemma {:induction false} FlowSplits(log: seq<Trade>, account: string)
    ensures TotalCashFlow(log, account) == TotalNetFlow(log, account) - EntryCosts(log, account)
  {
    hide RowSide;
    if |log| > 0 {
      FlowSplits(log[..|log| - 1], account);
    }
  }

  lemma {:induction false} ValueSplits(positions: seq<Position>, account: string)
    ensures TableValue(positions, account) == RealizedTotal(positions, account) - HeldAtCost(positions, account)
  {
    if |positions| > 0 {
      ValueSplits(positions[..|positions| - 1], account);
    }
  }

  /** The trades of a log that are not in a part of it. */
  function Missing(log: seq<Trade>, part: seq<Trade>): seq<Trade> {
    if |log| == 0 then []
    else
      var n := |log| - 1;
      Missing(log[..n], part) + if log[n] in part then [] else [log[n]]
  }

  predicate Increasing(log: seq<Trade>) {
    forall i, j | 0 <= i < j < |log| :: log[i].tradeId < log[j].tradeId
  }

  predicate IsPart(log: seq<Trade>, part: seq<Trade>) {
    Increasing(log) && Increasing(part) && forall i | 0 <= i < |part| :: part[i] in log
  }

  lemma IncreasingPrefix(log: seq<Trade>)
    requires Increasing(log) && |log| > 0
    ensures Increasing(log[..|log| - 1]) && log[|log| - 1] !in log[..|log| - 1]
  {
  }

  lemma {:induction false} MissingAnyway(log: seq<Trade>, part: seq<Trade>, t: Trade)
    requires t !in log
    ensures Missing(log, part + [t]) == Missing(log, part)
  {
    if |log| > 0 {
      MissingAnyway(log[..|log| - 1], part, t);
      assert log[|log| - 1] in part + [t] <==> log[|log| - 1] in part;
    }
  }

  /** A trade of the part is before the last of the log, unless both are the last. */
  lemma PartBefore(log: seq<Trade>, part: seq<Trade>, i: nat)
    requires IsPart(log, part) && |log| > 0 && i < |part|
    requires i < |part| - 1 || part[i] != log[|log| - 1]
    ensures part[i] in log[..|log| - 1] && part[i] != log[|log| - 1]
  {
    var n, m := |log| - 1, |part| - 1;
    var j :| 0 <= j <= n && log[j] == part[i];
    var last :| 0 <= last <= n && log[last] == part[m];
    assert i < m ==> log[j].tradeId < log[last].tradeId;
    assert j < n;
    assert log[..n][j] == part[i];
  }

  lemma PartOfFront(log: seq<Trade>, part: seq<Trade>)
    requires IsPart(log, part) && |log| > 0 && |part| > 0 && part[|part| - 1] == log[|log| - 1]
    ensures IsPart(log[..|log| - 1], part[..|part| - 1]) && log[|log| - 1] !in log[..|log| - 1]
  {
    hide Increasing;
    IncreasingPrefix(log);
    IncreasingPrefix(part);
    var front := part[..|part| - 1];
    forall i | 0 <= i < |front| ensures front[i] in log[..|log| - 1] {
      PartBefore(log, part, i);
    }
  }

  /** When both end in the same trade, what is missing is missing before it. */
  lemma SharedLast(log: seq<Trade>, part: seq<Trade>)
    requires IsPart(log, part) && |log| > 0 && |part| > 0 && part[|part| - 1] == log[|log| - 1]
    ensures IsPart(log[..|log| - 1], part[..|part| - 1])
    ensures Missing(log, part) == Missing(log[..|log| - 1], part[..|part| - 1])
  {
    hide IsPart, Missing;
    PartOfFront(log, part);
    var n, m := |log| - 1, |part| - 1;
    LastShared(log[..n], part[..m], log[n]);
    assert log[..n] + [log[n]] == log && part[..m] + [part[m]] == part;
  }

  lemma LastShared(log: seq<Trade>, part: seq<Trade>, t: Trade)
    requires t !in log
    ensures Missing(log + [t], part + [t]) == Missing(log, part)
  {
    MissingAnyway(log, part, t);
    assert (log + [t])[..|log|] == log;
    assert (part + [t])[|part|] == t;
  }

  /** Otherwise the last trade of the log is missing too. */
  lemma UnsharedLast(log: seq<Trade>, part: seq<Trade>)
    requires IsPart(log, part) && |log| > 0 && (|part| == 0 || part[|part| - 1] != log[|log| - 1])
    ensures IsPart(log[..|log| - 1], part) && log[|log| - 1] !in part
    ensures Missing(log, part) == Missing(log[..|log| - 1], part) + [log[|log| - 1]]
  {
    hide Increasing;
    IncreasingPrefix(log);
    forall i | 0 <= i < |part| ensures part[i] in log[..|log| - 1] && part[i] != log[|log| - 1] {
      PartBefore(log, part, i);
    }
  }

  /** Every recorded trade of the account has moved its position. */
  predicate AccountBooked(s: Store, account: string) {
    forall i | 0 <= i < |s.trades| && s.trades[i].accountId == account :: s.trades[i] in s.positionLog
  }

  lemma {:induction false} BookedTrades(log: seq<Trade>, part: seq<Trade>, account: string, symbol: string)
    requires IsPart(log, part)
    requires forall i | 0 <= i < |log| && log[i].accountId == account :: log[i] in part
    ensures TradesOf(part, account, symbol) == TradesOf(log, account, symbol)
  {
    hide IsPart, Missing;
    if |log| == 0 {
      NothingMissing(log, part);
    } else {
      var n, m := |log| - 1, |part| - 1;
      if m >= 0 && part[m] == log[n] {
        SharedLast(log, part);
        forall i | 0 <= i < n && log[i].accountId == account ensures log[i] in part[..m] {
          EarlierIsInPart(log, part, i);
        }
        BookedTrades(log[..n], part[..m], account, symbol);
      } else {
        UnsharedLast(log, part);
        BookedTrades(log[..n], part, account, symbol);
      }
    }
  }

  lemma EarlierIsInPart(log: seq<Trade>, part: seq<Trade>, i: nat)
    requires IsPart(log, part) && i < |log| - 1 && log[i] in part && |part| > 0 && part[|part| - 1] == log[|log| - 1]
    ensures log[i] in part[..|part| - 1]
  {
    var j :| 0 <= j < |part| && part[j] == log[i];
    assert log[i].tradeId < log[|log| - 1].tradeId;
    assert part[..|part| - 1][j] == log[i];
  }

  lemma CashFlowAppend(log: seq<Trade>, t: Trade, account: string)
    ensures TotalCashFlow(log + [t], account) ==
            TotalCashFlow(log, account) + if t.accountId == account then CashFlow(t) else 0.0
  {
    assert (log + [t])[..|log|] == log;
  }

  lemma {:induction false} CashFlowSplits(log: seq<Trade>, part: seq<Trade>, account: string)
    requires IsPart(log, part)
    ensures TotalCashFlow(log, account) == TotalCashFlow(part, account) + TotalCashFlow(Missing(log, part), account)
  {
    hide IsPart, Missing, CashFlow;
    if |log| == 0 {
      NothingMissing(log, part);
    } else {
      var n, m := |log| - 1, |part| - 1;
      if m >= 0 && part[m] == log[n] {
        SharedLast(log, part);
        CashFlowSplits(log[..n], part[..m], account);
      } else {
        UnsharedLast(log, part);
        CashFlowAppend(Missing(log[..n], part), log[n], account);
        CashFlowSplits(log[..n], part, account);
      }
    }
  }

  lemma PartFits(log: seq<Trade>, part: seq<Trade>)
    requires IsPart(log, part)
    ensures |part| > 0 ==> |log| > 0
  {
    if |part| > 0 {
      assert part[0] in log;
    }
  }

  lemma NothingMissing(log: seq<Trade>, part: seq<Trade>)
    requires IsPart(log, part) && |log| == 0
    ensures part == [] && Missing(log, part) == []
  {
    hide IsPart;
    PartFits(log, part);
  }

  lemma {:induction false} OthersMissing(log: seq<Trade>, part: seq<Trade>, account: string)
    requires forall i | 0 <= i < |log| && log[i].accountId == account :: log[i] in part
    ensures forall i | 0 <= i < |Missing(log, part)| :: Missing(log, part)[i].accountId != account
  {
    if |log| > 0 {
      OthersMissing(log[..|log| - 1], part, account);
    }
  }

  lemma {:induction false} FlowOfOthers(log: seq<Trade>, account: string)
    requires forall i | 0 <= i < |log| :: log[i].accountId != account
    ensures TotalCashFlow(log, account) == 0.0
  {
    hide CashFlow;
    if |log| > 0 {
      FlowOfOthers(log[..|log| - 1], account);
    }
  }

  lemma LogIsPart(s: Store, p: Policy)
    requires Inv(s, p)
    ensures IsPart(s.cashLog, s.positionLog) && IsPart(s.trades, s.positionLog) && IsPart(s.trades, s.cashLog)
  {
    hide OrdersOk, KeysOk, CashOk, BooksOk, LongOk, ValueOk;
  }

  /** The account equation, in every reachable state and for every account, shorting or not: cash is
      opening cash plus realized profit, less what is held at cost, less entry costs, plus the flow of
      trades that have moved cash and not yet the position. */
  lemma AccountEquation(s: Store, p: Policy, accounts: map<string, Account>, account: string)
    requires Reachable(s, p, accounts) && account in accounts
    ensures account in s.accounts
    ensures s.accounts[account].cash ==
               accounts[account].cash + RealizedTotal(s.positions, account)
               - HeldAtCost(s.positions, account) - EntryCosts(s.positionLog, account)
               + TotalCashFlow(Missing(s.cashLog, s.positionLog), account)
  {
    CashIsConserved(s, p, accounts, account);
    ReachableInv(s, p, accounts);
    LogIsPart(s, p);
    CashFlowSplits(s.cashLog, s.positionLog, account);
    FlowSplits(s.positionLog, account);
    ValueSplits(s.positions, account);
  }

  // ---------- gates imply completion ----------

  /** Whether the requested stop, and a take-profit already on the row, sit on the right sides of
      the average price the row will have. */
  predicate LevelsFit(open: Option<Position>, c: Call) {
    c.stopLoss.Some? ==>
      if open.None? then if c.action.Buy? then c.stopLoss.value < c.price else c.stopLoss.value > c.price
      else
        var row := open.value;
        && row.quantity + c.quantity != 0.0
        && var average := if row.direction == SideOf(c.action)
                          then WeightedAverage(row.quantity, row.averagePrice, c.quantity, c.price)
                          else row.averagePrice;
           && (if row.direction.Long? then c.stopLoss.value < average else c.stopLoss.value > average)
           && (row.takeProfit.Some? ==>
                 if row.direction.Long? then row.takeProfit.value > average else row.takeProfit.value < average)
  }

  /** Selling must not cost more than it and the account bring in. */
  predicate SaleCoversCosts(s: Store, p: Policy, c: Call)
    requires c.accountId in s.accounts
  {
    var (fee, tax) := FeeTax(p, c.venue, c.action);
    fee + tax <= s.accounts[c.accountId].cash + c.quantity * c.price
  }

  lemma LevelsFitExactly(s: Store, p: Policy, c: Call)
    requires Inv(s, p) && Limit(s, p, c) >= POSITIONED
    ensures Verdict(s, p, c).Done? <==> LevelsFit(OpenPosition(s.positions, c.accountId, c.symbol), c)
  {
    hide Refusal, Inv, NetQuantity;
    PassedGates(s, p, c);
    RowIndexInRange(s, p, c);
    OpenRowIsBookEnd(s, p, c.accountId, c.symbol);
    var t := TradeOf(s, p, c);
    var row := RowsAfter(s, p, c).value[RowIndex(s, p, c)];
    match OpenIndex(s.positions, c.accountId, c.symbol)
    case None => assert row == Opened(t);
    case Some(i) => assert Some(row) == Touched(s.positions[i], t);
  }

  /** When the position manager accepts a gated trade. */
  lemma PositionAcceptedExactly(s: Store, p: Policy, c: Call)
    requires Inv(s, p) && Refusal(s, p, c).None? && !c.action.OtherAction?
    ensures var open := OpenPosition(s.positions, c.accountId, c.symbol);
            RowsAfter(s, p, c).Some? <==>
            if open.None? then c.action.Buy? || MayShort(s, p, c.accountId)
            else open.value.direction == SideOf(c.action) || c.quantity <= open.value.quantity
  {
    hide Inv, NetQuantity;
    PassedGates(s, p, c);
    OpenRowIsBookEnd(s, p, c.accountId, c.symbol);
  }

  lemma OpenRowIsLong(s: Store, p: Policy, account: string, symbol: string)
    requires Inv(s, p) && !MayShort(s, p, account)
    ensures var open := OpenPosition(s.positions, account, symbol); open.Some? ==> open.value.direction.Long?
  {
    hide OrdersOk, TradesOk, LogsOk, KeysOk, CashOk, BooksOk, ValueOk;
  }

  /** For an account that is not Forex: past the gates, a BUY always gets its cash and position
      effects and a SELL does exactly when its costs are covered; the call then completes exactly
      when its levels fit. */
  lemma SpotCompletion(s: Store, p: Policy, c: Call)
    requires Inv(s, p) && Refusal(s, p, c).None? && !c.action.OtherAction? && !IsForex(s, c.accountId)
    ensures c.accountId in s.accounts
    ensures Limit(s, p, c) >= POSITIONED <==> (c.action.Sell? ==> SaleCoversCosts(s, p, c))
    ensures Verdict(s, p, c).Done? <==>
            (c.action.Sell? ==> SaleCoversCosts(s, p, c)) &&
            LevelsFit(OpenPosition(s.positions, c.accountId, c.symbol), c)
  {
    hide Refusal, Inv, NetQuantity;
    OpenRowIsLong(s, p, c.accountId, c.symbol);
    PassedGates(s, p, c);
    PassedMoneyGates(s, p, c);
    PositionAcceptedExactly(s, p, c);
    if Limit(s, p, c) >= POSITIONED {
      LevelsFitExactly(s, p, c);
    }
  }

  /** For a Forex account the gates leave five ways to strand a filled order: a BUY whose cost is not
      covered by cash, a SELL whose costs are not, a short the manager cannot open, a BUY larger than
      the short it reduces, and levels that do not fit the new average price. */
  lemma ForexCompletion(s: Store, p: Policy, c: Call)
    requires Inv(s, p) && Refusal(s, p, c).None? && !c.action.OtherAction? && IsForex(s, c.accountId)
    ensures var open := OpenPosition(s.positions, c.accountId, c.symbol);
            var (fee, tax) := FeeTax(p, c.venue, c.action);
            Verdict(s, p, c).Done? <==>
            && (c.action.Buy? ==> c.quantity * c.price + fee + tax <= s.accounts[c.accountId].cash)
            && (c.action.Sell? ==> SaleCoversCosts(s, p, c))
            && (open.None? && c.action.Sell? ==> p.managerSeesAccounts)
            && (open.Some? && open.value.direction.Short? && c.action.Buy? ==> c.quantity <= open.value.quantity)
            && LevelsFit(open, c)
  {
    hide Refusal, Inv, NetQuantity;
    PassedGates(s, p, c);
    PassedMoneyGates(s, p, c);
    PositionAcceptedExactly(s, p, c);
    if Limit(s, p, c) >= POSITIONED {
      LevelsFitExactly(s, p, c);
    }
  }

  /** The levels are checked again for every account, so a spot BUY with a stop at its own price
      is filled, paid for and held, and still fails without recording its key. */
  lemma StopAtPriceStrandsFilledOrder(s: Store, p: Policy, c: Call)
    requires Inv(s, p) && Refusal(s, p, c).None? && c.action.Buy? && !IsForex(s, c.accountId)
    requires OpenPosition(s.positions, c.accountId, c.symbol).None? && c.stopLoss == Some(c.price)
    ensures Verdict(s, p, c) == LevelsRefused
    ensures var after := After(s, p, c, FullLength(c));
            && after.orders[|s.orders|].status == Filled
            && after.cashLog == s.cashLog + [TradeOf(s, p, c)] &&
                after.positionLog == s.positionLog + [TradeOf(s, p, c)]
            && after.keys == s.keys
  {
    hide Inv, NetQuantity;
    SpotCompletion(s, p, c);
  }

  // ---------- order lifecycle and rates ----------

  /** Every order's story in every state of every run. */
  lemma OrderStory(s: Store, p: Policy, accounts: map<string, Account>, i: nat)
    requires Reachable(s, p, accounts)
    requires i < |s.orders|
    ensures var o := s.orders[i];
            && |o.history| > 0 && o.status == o.history[|o.history| - 1]
            && (o.history <= [New, Validated, Pending, Filled] || o.history <= [New, Rejected])
            && (o.status == Rejected ==> o.note == InvalidAction)
            && TradesOfOrder(s.trades, i) <= 1
            && (o.status == Filled ==> TradesOfOrder(s.trades, i) == 1)
            && forall j | 0 <= j < |s.trades| :: s.trades[j].orderId == i ==> TradeOfOrder(s.trades[j], o)
  {
    ReachableInv(s, p, accounts);
    assert Lifecycle(s.orders[i]);
    OneTradeEach(s.trades, i);
  }

  predicate IsResolved(status: Status) {
    status == Filled || status == PartiallyFilled || status == Rejected || status == Cancelled || status == Expired
  }

  function CountResolved(orders: seq<Order>): nat {
    if |orders| == 0 then 0
    else CountResolved(orders[..|orders| - 1]) + if IsResolved(orders[|orders| - 1].status) then 1 else 0
  }

  function CountStatus(orders: seq<Order>, status: Status): (r: nat)
    ensures IsResolved(status) ==> r <= CountResolved(orders)
  {
    if |orders| == 0 then 0
    else CountStatus(orders[..|orders| - 1], status) + if orders[|orders| - 1].status == status then 1 else 0
  }

  function Rate(part: nat, total: nat): real {
    if total == 0 then 0.0 else part as real / total as real
  }

  function ExecutionRate(orders: seq<Order>): real {
    Rate(CountStatus(orders, Filled), CountResolved(orders))
  }

  function OrderFailureRate(orders: seq<Order>): real {
    Rate(CountStatus(orders, Rejected), CountResolved(orders))
  }

  function WithStatuses(orders: seq<Order>, statuses: set<Status>): set<nat> {
    set i: nat | i < |orders| && orders[i].status in statuses
  }

  lemma {:induction false} CountsAreOrders(orders: seq<Order>, status: Status)
    ensures CountStatus(orders, status) == |WithStatuses(orders, {status})|
    ensures CountResolved(orders) ==
            |WithStatuses(orders, {Filled, PartiallyFilled, Rejected, Cancelled, Expired})|
  {
    if |orders| == 0 {
      assert WithStatuses(orders, {status}) == {};
      assert WithStatuses(orders, {Filled, PartiallyFilled, Rejected, Cancelled, Expired}) == {};
    } else {
      CountsAreOrders(orders[..|orders| - 1], status);
      OneMoreOrder(orders, {status});
      OneMoreOrder(orders, {Filled, PartiallyFilled, Rejected, Cancelled, Expired});
    }
  }

  lemma OneMoreOrder(orders: seq<Order>, statuses: set<Status>)
    requires |orders| > 0
    ensures var n := |orders| - 1;
            |WithStatuses(orders, statuses)| ==
            |WithStatuses(orders[..n], statuses)| + if orders[n].status in statuses then 1 else 0
  {
    var n := |orders| - 1;
    var before, after := WithStatuses(orders[..n], statuses), WithStatuses(orders, statuses);
    assert after == if orders[n].status in statuses then before + {n} else before;
  }

  function Resolved(orders: seq<Order>): set<nat> {
    WithStatuses(orders, {Filled, PartiallyFilled, Rejected, Cancelled, Expired})
  }

  lemma RateTimes(part: nat, total: nat)
    ensures Rate(part, total) * total as real == if total == 0 then 0.0 else part as real
    ensures total == 0 ==> Rate(part, total) == 0.0
  {
    if total > 0 {
      QuotientTimes(part as real, total as real);
    }
  }

  /** The execution rate is the share of FILLED orders among the resolved ones, the failure rate that of
      REJECTED ones; both are zero when none is resolved. */
  lemma RatesAreShares(orders: seq<Order>)
    ensures var resolved := |Resolved(orders)|;
            if resolved == 0 then ExecutionRate(orders) == OrderFailureRate(orders) == 0.0
            else
              && ExecutionRate(orders) * resolved as real == |WithStatuses(orders, {Filled})| as real
              && OrderFailureRate(orders) * resolved as real == |WithStatuses(orders, {Rejected})| as real
  {
    hide Rate, CountStatus, CountResolved, WithStatuses;
    CountsAreOrders(orders, Filled);
    CountsAreOrders(orders, Rejected);
    RateTimes(CountStatus(orders, Filled), CountResolved(orders));
    RateTimes(CountStatus(orders, Rejected), CountResolved(orders));
  }

  lemma {:induction false} CountsPartition(orders: seq<Order>)
    ensures CountStatus(orders, Filled) + CountStatus(orders, Rejected) <= CountResolved(orders)
    ensures CountStatus(orders, Filled) + CountStatus(orders, Rejected) == CountResolved(orders) <==>
            forall i | 0 <= i < |orders| :: IsResolved(orders[i].status) ==>
                orders[i].status == Filled || orders[i].status == Rejected
  {
    if |orders| > 0 {
      var n := |orders| - 1;
      CountsPartition(orders[..n]);
      assert forall i | 0 <= i < n :: orders[..n][i] == orders[i];
    }
  }

  lemma QuotientsAdd(x: real, y: real, n: real)
    requires n > 0.0
    ensures x / n + y / n == 1.0 <==> x + y == n
  {
    var a, b := x / n, y / n;
    QuotientTimes(x, n);
    QuotientTimes(y, n);
    assert (a + b) * n == x + y;
    assert (a + b - 1.0) * n == x + y - n;
  }

  lemma RatesSum(filled: nat, rejected: nat, total: nat)
    requires total > 0
    ensures Rate(filled, total) + Rate(rejected, total) == 1.0 <==> filled + rejected == total
  {
    QuotientsAdd(filled as real, rejected as real, total as real);
  }

  /** The two rates sum to one exactly when no resolved order ended any other way. */
  lemma RatesAreComplementary(orders: seq<Order>)
    requires CountResolved(orders) > 0
    ensures ExecutionRate(orders) + OrderFailureRate(orders) == 1.0 <==>
            forall i | 0 <= i < |orders| :: IsResolved(orders[i].status) ==>
                orders[i].status == Filled || orders[i].status == Rejected
  {
    CountsPartition(orders);
    RatesSum(CountStatus(orders, Filled), CountStatus(orders, Rejected), CountResolved(orders));
  }

  /** So in every reachable state with a resolved order they do. */
  lemma ReachableRatesSumToOne(s: Store, p: Policy, accounts: map<string, Account>)
    requires Reachable(s, p, accounts)
    requires CountResolved(s.orders) > 0
    ensures ExecutionRate(s.orders) + OrderFailureRate(s.orders) == 1.0
  {
    var orders := s.orders;
    forall i | 0 <= i < |orders| && IsResolved(orders[i].status)
      ensures orders[i].status == Filled || orders[i].status == Rejected
    {
      OrderStory(s, p, accounts, i);
    }
    RatesAreComplementary(orders);
  }

  // ---------- Forex margin ----------

  /** Margin is asked for exactly the growth of exposure on the trade's own side. */
  lemma MarginIsExposureGrowth(open: Option<Position>, action: Action, quantity: real)
    requires quantity > 0.0 && (open.Some? ==> open.value.quantity >= 0.0)
    ensures var side := if action.Buy? then 1.0 else -1.0;
            var before := side * (if open.Some? then SignedHolding(open.value) else 0.0);
            NewExposure(open, action, quantity) == Max(0.0, before + quantity) - Max(0.0, before)
    ensures NewExposure(open, action, quantity) == 0.0 <==>
            open.Some? && open.value.direction != SideOf(action) && quantity <= open.value.quantity
  {
  }
}
