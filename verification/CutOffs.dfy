/** Which calls that were cut off between their trade and their position update the consistency check finds. */
module CutOffs {
  import opened Options
  import opened Ledger
  import opened Gates
  import opened Submission
  import opened Books
  import opened Invariants
  import opened LedgerTheorems
  import opened Episodes
  import opened EpisodeBooks
  import opened Attribution
  import opened Reconciliation

  // ---------- one call ----------

  /** Every recorded trade of the account has filled its order and moved cash and position. */
  predicate Applied(s: Store, account: string) {
    forall i | 0 <= i < |s.trades| && s.trades[i].accountId == account ::
      && s.trades[i].orderId < |s.orders| && s.orders[s.trades[i].orderId].status == Filled
      && s.trades[i] in s.cashLog && s.trades[i] in s.positionLog
  }

  /** The call was cut off between its trade and its position update. */
  predicate CutsOff(s: Store, p: Policy, e: Event, account: string) {
    e.Submit? && e.call.accountId == account && Unbooked(Min(e.writes, Limit(s, p, e.call)))
  }

  lemma SubmissionKeepsApplied(s: Store, p: Policy, c: Call, k: nat, account: string)
    requires Applied(s, account) && k <= Limit(s, p, c) && (c.accountId == account ==> !Unbooked(k))
    ensures Applied(Partial(s, p, c, k), account)
  {
    hide Refusal;
  }

  lemma StepKeepsApplied(s: Store, p: Policy, e: Event, account: string)
    requires Applied(s, account) && !CutsOff(s, p, e, account)
    ensures Applied(Step(s, p, e), account)
  {
    hide Limit, Partial, Applied;
    match e
    case Submit(c, writes) => SubmissionKeepsApplied(s, p, c, Min(writes, Limit(s, p, c)), account);
    case EditLevels(id, stop, take) => EditKeepsApplied(s, id, stop, take, account);
  }

  lemma EditKeepsApplied(s: Store, id: nat, stop: Option<real>, take: Option<real>, account: string)
    requires Applied(s, account)
    ensures Applied(EditedLevels(s, id, stop, take), account)
  {
  }

  lemma {:induction false} RunKeepsApplied(p: Policy, accounts: map<string, Account>, events: seq<Event>,
    account: string)
    requires forall i | 0 <= i < |events| :: !CutsOff(Run(Fresh(accounts), p, events[..i]), p, events[i], account)
    ensures Applied(Run(Fresh(accounts), p, events), account)
  {
    hide CutsOff, Step;
    if |events| > 0 {
      var n := |events| - 1;
      forall i | 0 <= i < n
        ensures !CutsOff(Run(Fresh(accounts), p, events[..n][..i]), p, events[..n][i], account)
      {
        assert events[..n][..i] == events[..i];
      }
      RunKeepsApplied(p, accounts, events[..n], account);
      StepKeepsApplied(Run(Fresh(accounts), p, events[..n]), p, events[n], account);
    }
  }

  lemma AppliedOrdersPass(s: Store, account: string)
    requires OrdersOk(s) && TradesOk(s) && Applied(s, account)
    ensures OrdersPass(s, account)
  {
    OrderCheckExactly(s, account, |s.orders|);
    assert s.orders[..|s.orders|] == s.orders;
    forall i | 0 <= i < |s.orders| && s.orders[i].accountId == account ensures !HasUnfilledTrade(s, i) {
      if HasTrade(s.trades, i) {
        var j :| 0 <= j < |s.trades| && s.trades[j].orderId == i;
        assert TradeOfOrder(s.trades[j], s.orders[s.trades[j].orderId]);
      }
    }
    assert forall v :: v !in OrderCheck(s.orders, s.trades, account);
  }

  /** Once everything recorded was applied the order, cash and position checks pass. */
  lemma AppliedPasses(s: Store, p: Policy, account: string)
    requires Inv(s, p) && account in s.accounts && Applied(s, account)
    ensures account in s.opening
    ensures OrdersPass(s, account) && CashPasses(s, account, s.opening[account]) && PositionsPass(s, account)
  {
    hide BooksOk, LongOk, ValueOk, LogsOk, KeysOk, SymbolPasses, Booked, CashPasses, OrdersPass, TotalCashFlow, Missing;
    AppliedOrdersPass(s, account);
    OthersMissing(s.trades, s.cashLog, account);
    FlowOfOthers(Missing(s.trades, s.cashLog), account);
    CashPassesOfInv(s, p, account);
    forall y | y in TradedOrHeld(s, account) ensures SymbolPasses(s, account, y) {
      SymbolBooked(s, p, account, y);
      BookedSymbolPasses(s, p, account, y);
    }
  }

  /** As long as no call of the account was cut off between its trade and its position update, they pass. */
  lemma UncutRunReconciles(p: Policy, accounts: map<string, Account>, events: seq<Event>, account: string)
    requires account in accounts
    requires forall i | 0 <= i < |events| :: !CutsOff(Run(Fresh(accounts), p, events[..i]), p, events[i], account)
    ensures var s := Run(Fresh(accounts), p, events);
            && account in s.accounts && OrdersPass(s, account) && CashPasses(s, account, accounts[account].cash)
            && PositionsPass(s, account)
  {
    hide Run, Applied, CutsOff, OrdersPass, CashPasses, PositionsPass;
    var s := Run(Fresh(accounts), p, events);
    RunKeepsApplied(p, accounts, events, account);
    assert Reachable(s, p, accounts);
    ReachableInv(s, p, accounts);
    ReachableAccounts(s, p, accounts);
    AppliedPasses(s, p, account);
  }

  /** Replaying the trade on top of the symbol's last row gives a fault or a different row. */
  predicate Shows(row: Option<Position>, t: Trade) {
    row.None? || !row.value.open || Touched(row.value, t).None? || !Alike(row.value, Touched(row.value, t).value)
  }

  lemma FaultsOfStep(symbol: string, row: Option<Position>, t: Trade, isForex: bool)
    requires !t.action.OtherAction?
    ensures var r := ReplayStep(Replayed(row, {}), t, isForex);
            r.Replayed? && r.faults + RowFaults(symbol, row, r.row) == {} <==> !Shows(row, t)
  {
    hide Gain, FeesKept, WeightedAverage, Close;
    var r := ReplayStep(Replayed(row, {}), t, isForex);
    if row.None? {
      assert r.row.Some? ==> RowMissing(symbol) in RowFaults(symbol, row, r.row);
    } else if r.Replayed? && r.row.Some? {
      FaultsOfRows(symbol, row.value, r.row.value);
    }
  }

  /** A trade above the tolerance always shows. */
  lemma LargeTradeShows(row: Option<Position>, t: Trade)
    requires t.quantity > EPSILON
    ensures Shows(row, t)
  {
    hide Gain, FeesKept, WeightedAverage;
  }

  lemma OrdersAfterCutOff(s: Store, p: Policy, c: Call, k: nat)
    requires OrdersOk(s) && TradesOk(s) && Applied(s, c.accountId) && Unbooked(k) && k <= Limit(s, p, c)
    ensures OrdersPass(Partial(s, p, c, k), c.accountId) <==> k != TRADED
  {
    hide Refusal;
    var after := Partial(s, p, c, k);
    OrdersKept(s, p, c, k);
    OrderCheckExactly(after, c.accountId, |after.orders|);
    assert after.orders[..|after.orders|] == after.orders;
    var n := |s.orders|;
    assert after.trades[|s.trades|].orderId == n && HasTrade(after.trades, n);
    forall i | 0 <= i < n && s.orders[i].accountId == c.accountId ensures !HasUnfilledTrade(after, i) {
      if HasTrade(after.trades, i) {
        var j :| 0 <= j < |after.trades| && after.trades[j].orderId == i;
        assert TradeOfOrder(s.trades[j], s.orders[s.trades[j].orderId]);
      }
    }
    assert HasUnfilledTrade(after, n) <==> k == TRADED;
    assert UnexpectedTrade(n) in OrderCheck(after.orders, after.trades, c.accountId) <==> k == TRADED;
  }

  lemma CashAfterCutOff(s: Store, p: Policy, c: Call, k: nat)
    requires Inv(s, p) && c.accountId in s.accounts && Applied(s, c.accountId) && Unbooked(k) && k <= Limit(s, p, c)
    ensures c.accountId in Partial(s, p, c, k).accounts && c.accountId in s.opening
    ensures CashPasses(Partial(s, p, c, k), c.accountId, s.opening[c.accountId]) <==>
            k >= CASHED || Abs(CashFlow(TradeOf(s, p, c))) <= EPSILON
  {
    hide Refusal, CashPasses, TotalCashFlow, CashFlow, Missing, BooksOk, ValueOk, LongOk, KeysOk,
         OrdersOk, BalanceAfter;
    var after, t := Partial(s, p, c, k), TradeOf(s, p, c);
    SubmissionKeepsInv(s, p, c, k);
    CashPassesOfInv(after, p, c.accountId);
    OthersMissing(s.trades, s.cashLog, c.accountId);
    FlowOfOthers(Missing(s.trades, s.cashLog), c.accountId);
    if k < CASHED {
      OneMoreMissing(s.trades, s.cashLog, t);
      CashFlowAppend(Missing(s.trades, s.cashLog), t, c.accountId);
    } else {
      OthersMissing(after.trades, after.cashLog, c.accountId);
      FlowOfOthers(Missing(after.trades, after.cashLog), c.accountId);
    }
  }

  lemma OneMoreMissing(log: seq<Trade>, part: seq<Trade>, t: Trade)
    requires t !in part
    ensures Missing(log + [t], part) == Missing(log, part) + [t]
  {
    assert (log + [t])[..|log|] == log;
  }

  lemma PositionsAfterCutOff(s: Store, p: Policy, c: Call, k: nat)
    requires Inv(s, p) && c.accountId in s.accounts && Applied(s, c.accountId) && Unbooked(k) && k <= Limit(s, p, c)
    ensures c.accountId in Partial(s, p, c, k).accounts
    ensures PositionsPass(Partial(s, p, c, k), c.accountId) <==>
            !Shows(LastRow(RowsOf(s.positions, c.accountId, c.symbol)), TradeOf(s, p, c))
  {
    hide Refusal, Inv, SymbolPasses, Shows, LastRow, RowsOf, TradesOf, Limit, Applied, Partial, TradeOf;
    var after, t := Partial(s, p, c, k), TradeOf(s, p, c);
    SubmissionKeepsInv(s, p, c, k);
    MayShortKept(s, p, c, k, c.accountId);
    CutOffTables(s, p, c, k);
    TradeFields(s, p, c);
    AppliedIsBooked(s, c.accountId);
    forall y | y != c.symbol ensures SymbolPasses(after, c.accountId, y) {
      SymbolBooked(s, p, c.accountId, y);
      TradesOfAppend(s.trades, t, c.accountId, y);
      BookedSymbolPasses(after, p, c.accountId, y);
    }
    SymbolAfterCutOff(s, p, c, k);
    TradedSymbol(after, |s.trades|);
  }

  lemma AppliedIsBooked(s: Store, account: string)
    requires Applied(s, account)
    ensures AccountBooked(s, account)
  {
  }

  lemma AssetClassKept(s: Store, p: Policy, c: Call, k: nat)
    requires k <= Limit(s, p, c) && c.accountId in s.accounts
    ensures var after := Partial(s, p, c, k);
            c.accountId in after.accounts &&
            after.accounts[c.accountId].assetClass == s.accounts[c.accountId].assetClass
  {
    hide Refusal;
  }

  lemma SymbolAfterCutOff(s: Store, p: Policy, c: Call, k: nat)
    requires Inv(s, p) && c.accountId in s.accounts && Applied(s, c.accountId) && Unbooked(k) && k <= Limit(s, p, c)
    ensures c.accountId in Partial(s, p, c, k).accounts
    ensures SymbolPasses(Partial(s, p, c, k), c.accountId, c.symbol) <==>
            !Shows(LastRow(RowsOf(s.positions, c.accountId, c.symbol)), TradeOf(s, p, c))
  {
    hide Refusal, Inv, Shows, LastRow, RowsOf, TradesOf, Limit, Applied, Partial, TradeOf,
         ReplayStep, RowFaults, Executable;
    var t, trades := TradeOf(s, p, c), TradesOf(s.trades, c.accountId, c.symbol);
    AssetClassKept(s, p, c, k);
    CutOffTables(s, p, c, k);
    TradeFields(s, p, c);
    TradeExecutable(s, p, c, k);
    AppliedIsBooked(s, c.accountId);
    SymbolBooked(s, p, c.accountId, c.symbol);
    TradesOfAppend(s.trades, t, c.accountId, c.symbol);
    ReplayOfBooked(s, p, c.accountId, c.symbol);
    assert (trades + [t])[..|trades|] == trades;
    KnownAction(t);
    FaultsOfStep(c.symbol, LastRow(RowsOf(s.positions, c.accountId, c.symbol)), t,
                 s.accounts[c.accountId].assetClass.ForexAsset?);
  }

  lemma KnownAction(t: Trade)
    requires Executable(t)
    ensures !t.action.OtherAction?
  {
  }

  /** From a state in which everything recorded for the account was applied, for a call cut off anywhere:
      the order check fails exactly when the trade was the last write, the cash check exactly when the call
      stopped between trade and cash and the trade's flow is above the tolerance, and the position check
      exactly when it stopped between trade and position and the trade shows, as every trade above the
      tolerance does. */
  lemma CutOffFoundExactly(s: Store, p: Policy, c: Call, k: nat)
    requires Inv(s, p) && c.accountId in s.accounts && Applied(s, c.accountId) && k <= Limit(s, p, c)
    ensures c.accountId in Partial(s, p, c, k).accounts && c.accountId in s.opening
    ensures var after, t := Partial(s, p, c, k), TradeOf(s, p, c);
            && (OrdersPass(after, c.accountId) <==> k != TRADED)
            && (CashPasses(after, c.accountId, s.opening[c.accountId]) <==>
                !(TRADED <= k < CASHED && Abs(CashFlow(t)) > EPSILON))
            && (PositionsPass(after, c.accountId) <==>
                !(TRADED <= k < POSITIONED && Shows(LastRow(RowsOf(s.positions, c.accountId, c.symbol)), t)))
            && (c.quantity > EPSILON ==> Shows(LastRow(RowsOf(s.positions, c.accountId, c.symbol)), t))
  {
    hide Refusal, Limit, Partial, OrdersPass, CashPasses, PositionsPass, Shows, CashFlow, Applied, TradeOf, RowsOf,
         BooksOk, LongOk, ValueOk, KeysOk;
    AssetClassKept(s, p, c, k);
    TradeFields(s, p, c);
    if c.quantity > EPSILON {
      LargeTradeShows(LastRow(RowsOf(s.positions, c.accountId, c.symbol)), TradeOf(s, p, c));
    }
    if Unbooked(k) {
      OrdersAfterCutOff(s, p, c, k);
      CashAfterCutOff(s, p, c, k);
      PositionsAfterCutOff(s, p, c, k);
    } else {
      SubmissionKeepsInv(s, p, c, k);
      SubmissionKeepsApplied(s, p, c, k, c.accountId);
      OpeningKept(s, p, c, k);
      AppliedPasses(Partial(s, p, c, k), p, c.accountId);
    }
  }

  lemma OpeningKept(s: Store, p: Policy, c: Call, k: nat)
    requires k <= Limit(s, p, c)
    ensures Partial(s, p, c, k).opening == s.opening
  {
    hide Refusal;
  }

  // ---------- over whole runs ----------

  /** What the call adds to the holding of its symbol once booked. */
  function SignedQuantity(c: Call): real {
    match c.action
    case Buy => c.quantity
    case Sell => -c.quantity
    case OtherAction(_) => 0.0
  }

  /** The signed quantities of the account's calls for the symbol that the run cut off. */
  function CutOffQuantity(s: Store, p: Policy, events: seq<Event>, account: string, symbol: string): real {
    if |events| == 0 then 0.0
    else
      var n := |events| - 1;
      CutOffQuantity(s, p, events[..n], account, symbol) +
      if CutsOff(Run(s, p, events[..n]), p, events[n], account) && events[n].call.symbol == symbol
      then SignedQuantity(events[n].call) else 0.0
  }

  lemma CallUnmatched(s: Store, p: Policy, c: Call, k: nat, account: string, symbol: string)
    requires k <= Limit(s, p, c)
    ensures Unmatched(Partial(s, p, c, k), account, symbol) ==
            Unmatched(s, account, symbol) +
            if Unbooked(k) && c.accountId == account && c.symbol == symbol then SignedQuantity(c) else 0.0
  {
    hide TradesOf, NetQuantity, Limit, Partial, TradeOf;
    var t := TradeOf(s, p, c);
    CutOffTables(s, p, c, k);
    TradeFields(s, p, c);
    NetOfLonger(s.trades, t, account, symbol);
    NetOfLonger(s.positionLog, t, account, symbol);
  }

  lemma NetOfLonger(log: seq<Trade>, t: Trade, account: string, symbol: string)
    ensures NetQuantity(TradesOf(log + [t], account, symbol)) ==
            NetQuantity(TradesOf(log, account, symbol)) +
            if t.accountId == account && t.symbol == symbol then Signed(t) else 0.0
  {
    hide TradesOf, NetQuantity;
    TradesOfAppend(log, t, account, symbol);
    if t.accountId == account && t.symbol == symbol {
      NetAppend(TradesOf(log, account, symbol), t);
    } else {
      assert TradesOf(log + [t], account, symbol) == TradesOf(log, account, symbol);
    }
  }

  lemma StepUnmatched(s: Store, p: Policy, e: Event, account: string, symbol: string)
    ensures Unmatched(Step(s, p, e), account, symbol) ==
            Unmatched(s, account, symbol) +
            if CutsOff(s, p, e, account) && e.call.symbol == symbol then SignedQuantity(e.call) else 0.0
  {
    hide Limit, Partial, Unmatched;
    match e
    case Submit(c, writes) => CallUnmatched(s, p, c, Min(writes, Limit(s, p, c)), account, symbol);
    case EditLevels(id, stop, take) => EditUnmatched(s, id, stop, take, account, symbol);
  }

  lemma EditUnmatched(s: Store, id: nat, stop: Option<real>, take: Option<real>, account: string, symbol: string)
    ensures Unmatched(EditedLevels(s, id, stop, take), account, symbol) == Unmatched(s, account, symbol)
  {
  }

  /** Over every run, what is recorded and not booked of a symbol nets to what its cut-off calls add up to. */
  lemma {:induction false} UnmatchedIsCutOff(
    p: Policy, accounts: map<string, Account>, events: seq<Event>, account: string, symbol: string)
    ensures Unmatched(Run(Fresh(accounts), p, events), account, symbol) ==
            CutOffQuantity(Fresh(accounts), p, events, account, symbol)
  {
    hide CutsOff, Step;
    if |events| > 0 {
      var n := |events| - 1;
      UnmatchedIsCutOff(p, accounts, events[..n], account, symbol);
      StepUnmatched(Run(Fresh(accounts), p, events[..n]), p, events[n], account, symbol);
    }
  }

  /** So cut-off calls that do not net out in some symbol are found, however many there were and whatever
      came after them. */
  lemma CutOffsAreFound(
    p: Policy, accounts: map<string, Account>, events: seq<Event>, account: string, symbol: string)
    requires account in accounts
    requires Abs(CutOffQuantity(Fresh(accounts), p, events, account, symbol)) > EPSILON
    ensures var s := Run(Fresh(accounts), p, events); account in s.accounts && !PositionsPass(s, account)
  {
    hide Run, CutOffQuantity, PositionsPass, Unmatched;
    var s := Run(Fresh(accounts), p, events);
    assert Reachable(s, p, accounts);
    ReachableAccounts(s, p, accounts);
    UnmatchedIsCutOff(p, accounts, events, account, symbol);
    if PositionsPass(s, account) {
      PassingNetsOut(s, p, accounts, account, symbol);
    }
  }

  /** Event `i` of the run cuts a call of the account off. */
  predicate CutAt(p: Policy, accounts: map<string, Account>, events: seq<Event>, account: string, i: nat)
    requires i < |events|
  {
    CutsOff(Run(Fresh(accounts), p, events[..i]), p, events[i], account)
  }

  lemma CutOfPrefix(p: Policy, accounts: map<string, Account>, events: seq<Event>, account: string, n: nat, i: nat)
    requires i < n <= |events|
    ensures CutAt(p, accounts, events[..n], account, i) == CutAt(p, accounts, events, account, i)
  {
    assert events[..n][..i] == events[..i];
  }

  lemma {:induction false} OneCutQuantity(
    p: Policy, accounts: map<string, Account>, events: seq<Event>, account: string, symbol: string, i: nat)
    requires forall j | 0 <= j < |events| && j != i :: !CutAt(p, accounts, events, account, j)
    requires i < |events| ==> CutAt(p, accounts, events, account, i) && events[i].call.symbol == symbol
    ensures CutOffQuantity(Fresh(accounts), p, events, account, symbol) ==
            if i < |events| then SignedQuantity(events[i].call) else 0.0
  {
    hide CutsOff, Run;
    if |events| > 0 {
      var n := |events| - 1;
      forall j | 0 <= j < n
        ensures CutAt(p, accounts, events[..n], account, j) == CutAt(p, accounts, events, account, j)
      {
        CutOfPrefix(p, accounts, events, account, n, j);
      }
      OneCutQuantity(p, accounts, events[..n], account, symbol, i);
      assert CutAt(p, accounts, events, account, n) <==>
             CutsOff(Run(Fresh(accounts), p, events[..n]), p, events[n], account);
    }
  }

  lemma CutOffTrades(s: Store, p: Policy, e: Event, account: string)
    requires CutsOff(s, p, e, account)
    ensures Abs(SignedQuantity(e.call)) == e.call.quantity
  {
    hide Refusal, Limit;
    GatedCutOff(s, p, e.call, e.writes);
  }

  lemma GatedCutOff(s: Store, p: Policy, c: Call, writes: nat)
    requires Unbooked(Min(writes, Limit(s, p, c)))
    ensures Refusal(s, p, c).None? && c.quantity > 0.0 && !c.action.OtherAction?
  {
    hide Refusal;
    TradeExecutable(s, p, c, Min(writes, Limit(s, p, c)));
  }

  /** Over every run with at most one cut-off call of the account, anywhere in it: the order, cash and
      position checks all pass at its end exactly when there was none. */
  lemma OneCutOffIsFound(p: Policy, accounts: map<string, Account>, events: seq<Event>, account: string)
    requires account in accounts
    requires forall i, j | 0 <= i < |events| && 0 <= j < |events| && i != j ::
               !(CutAt(p, accounts, events, account, i) && CutAt(p, accounts, events, account, j))
    requires forall i | 0 <= i < |events| && CutAt(p, accounts, events, account, i) ::
               events[i].Submit? && events[i].call.quantity > EPSILON
    ensures var s := Run(Fresh(accounts), p, events);
            && account in s.accounts
            && (OrdersPass(s, account) && CashPasses(s, account, accounts[account].cash) &&
                PositionsPass(s, account) <==>
                forall i | 0 <= i < |events| :: !CutAt(p, accounts, events, account, i))
  {
    hide Run, CutAt, OrdersPass, CashPasses, PositionsPass;
    AccountStays(p, accounts, events, account);
    if forall i | 0 <= i < |events| :: !CutAt(p, accounts, events, account, i) {
      NoneCutOff(p, accounts, events, account);
    } else {
      var i :| 0 <= i < |events| && CutAt(p, accounts, events, account, i);
      OneCutOff(p, accounts, events, account, i);
    }
  }

  lemma AccountStays(p: Policy, accounts: map<string, Account>, events: seq<Event>, account: string)
    requires account in accounts
    ensures account in Run(Fresh(accounts), p, events).accounts
  {
    hide Run;
    assert Reachable(Run(Fresh(accounts), p, events), p, accounts);
    ReachableAccounts(Run(Fresh(accounts), p, events), p, accounts);
  }

  lemma NoneCutOff(p: Policy, accounts: map<string, Account>, events: seq<Event>, account: string)
    requires account in accounts && forall i | 0 <= i < |events| :: !CutAt(p, accounts, events, account, i)
    ensures var s := Run(Fresh(accounts), p, events);
            && account in s.accounts && OrdersPass(s, account) && CashPasses(s, account, accounts[account].cash)
            && PositionsPass(s, account)
  {
    hide Run, CutsOff, OrdersPass, CashPasses, PositionsPass;
    forall i | 0 <= i < |events| ensures !CutsOff(Run(Fresh(accounts), p, events[..i]), p, events[i], account) {
      assert !CutAt(p, accounts, events, account, i);
    }
    UncutRunReconciles(p, accounts, events, account);
  }

  lemma OneCutOff(p: Policy, accounts: map<string, Account>, events: seq<Event>, account: string, i: nat)
    requires account in accounts && i < |events| && CutAt(p, accounts, events, account, i)
    requires events[i].Submit? && events[i].call.quantity > EPSILON
    requires forall j | 0 <= j < |events| && j != i :: !CutAt(p, accounts, events, account, j)
    ensures var s := Run(Fresh(accounts), p, events); account in s.accounts && !PositionsPass(s, account)
  {
    hide Run, CutsOff, CutOffQuantity, PositionsPass, SignedQuantity;
    OneCutQuantity(p, accounts, events, account, events[i].call.symbol, i);
    CutOffTrades(Run(Fresh(accounts), p, events[..i]), p, events[i], account);
    CutOffsAreFound(p, accounts, events, account, events[i].call.symbol);
  }
}
