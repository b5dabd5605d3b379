/** What the gates guarantee about the stored state of every run, not just about the call they guard. */
module RunSafety {
  import opened Options
  import opened Ledger
  import opened Gates
  import opened Submission
  import opened Books
  import opened Invariants
  import opened LedgerTheorems
  import opened Allocation

  // ---------- one request, one effect ----------

  lemma KnownKeyRefused(s: Store, p: Policy, c: Call)
    requires c.key in s.keys
    ensures Refusal(s, p, c).Some?
  {
  }

  /** Once a call has completed, any later call with its key is refused and changes nothing. */
  lemma RepeatChangesNothing(s: Store, p: Policy, events: seq<Event>, c: Call, writes: nat)
    requires c.key in CompletedKeys(s, p, events)
    ensures var now := Run(s, p, events);
            Result(now, p, c, writes).Refused? && After(now, p, c, writes) == now
  {
    hide Refusal, CompletedKeys, Run;
    CompletedKeysRecorded(s, p, events, c.key);
    KnownKeyRefused(Run(s, p, events), p, c);
  }

  // ---------- nothing is written without clearance ----------

  /** A call that writes at all carried its evidence and its approval, met its venue's open session,
      and was not stopped by the kill switch or a halt; a refused call writes nothing. */
  lemma WritesOnlyWhenCleared(s: Store, p: Policy, c: Call, writes: nat)
    ensures After(s, p, c, writes) != s ==>
              && c.evidence && c.approved && !p.killSwitch
              && c.venue.market !in p.haltedMarkets && Upper(c.symbol) !in p.haltedSymbols
              && SessionRule(c.venue).None? && QuantityRule(p, c.venue, c.quantity).None?
    ensures Result(s, p, c, writes).Refused? ==> After(s, p, c, writes) == s
  {
  }

  // ---------- limits over every run ----------

  predicate WithinLimits(o: Order, p: Policy, accounts: set<string>) {
    && o.accountId in accounts && !IsBlank(o.symbol) && o.quantity > 0.0 && o.requestedPrice > 0.0
    && OrderValue(o.quantity, o.requestedPrice) <= p.maxOrderValue
    && !p.killSwitch && Upper(o.symbol) !in p.haltedSymbols
  }

  predicate OrdersWithinLimits(s: Store, p: Policy) {
    forall i | 0 <= i < |s.orders| :: WithinLimits(s.orders[i], p, s.accounts.Keys)
  }

  lemma GatedCallWithinLimits(s: Store, p: Policy, c: Call)
    requires Refusal(s, p, c).None?
    ensures WithinLimits(NewOrder(c), p, s.accounts.Keys)
  {
  }

  lemma OrderKeepsRequest(s: Store, p: Policy, c: Call, k: nat)
    requires k >= INSERTED
    ensures var o, n := OrderAt(s, p, c, k), NewOrder(c);
            && o.accountId == n.accountId && o.symbol == n.symbol
            && o.quantity == n.quantity && o.requestedPrice == n.requestedPrice
  {
  }

  lemma SubmissionKeepsLimits(s: Store, p: Policy, c: Call, k: nat)
    requires OrdersWithinLimits(s, p) && k <= Limit(s, p, c)
    ensures OrdersWithinLimits(Partial(s, p, c, k), p)
  {
    hide Refusal;
    if k > 0 {
      PassedGates(s, p, c);
      GatedCallWithinLimits(s, p, c);
      OrderKeepsRequest(s, p, c, k);
    }
  }

  lemma {:induction false} RunKeepsLimits(s: Store, p: Policy, events: seq<Event>)
    requires OrdersWithinLimits(s, p)
    ensures OrdersWithinLimits(Run(s, p, events), p)
  {
    if |events| > 0 {
      var n := |events| - 1;
      RunKeepsLimits(s, p, events[..n]);
      var before := Run(s, p, events[..n]);
      if events[n].Submit? {
        SubmissionKeepsLimits(before, p, events[n].call, Min(events[n].writes, Limit(before, p, events[n].call)));
      }
    }
  }

  /** In every reachable state every stored order is within the order limit, belongs to a known
      account, and is for a symbol that is not halted; with the kill switch on there are none. */
  lemma EveryOrderWithinLimits(s: Store, p: Policy, accounts: map<string, Account>)
    requires Reachable(s, p, accounts)
    ensures forall i | 0 <= i < |s.orders| :: WithinLimits(s.orders[i], p, accounts.Keys)
    ensures p.killSwitch ==> s.orders == [] && s.trades == []
  {
    var events: seq<Event> :| s == Run(Fresh(accounts), p, events);
    RunKeepsLimits(Fresh(accounts), p, events);
    ReachableAccounts(s, p, accounts);
    ReachableInv(s, p, accounts);
    assert |s.orders| > 0 ==> WithinLimits(s.orders[0], p, accounts.Keys);
    assert |s.trades| > 0 ==> s.trades[0].orderId < |s.orders|;
  }

  // ---------- the position cap ----------

  function Held(open: Option<Position>): real {
    if open.Some? then open.value.quantity else 0.0
  }

  lemma CapGate(s: Store, p: Policy, c: Call, cap: real)
    requires Refusal(s, p, c).None? && c.action.Buy? && p.maxPositionValue == Some(cap)
    ensures OrderValue(Held(OpenPosition(s.positions, c.accountId, c.symbol)) + c.quantity, c.price) <= cap
  {
  }

  /** `open` is the open position of a book that nets to `net`. */
  predicate HoldsNet(open: Option<Position>, net: real) {
    if open.Some? then open.value.quantity > 0.0 && SignedHolding(open.value) == net else net == 0.0
  }

  lemma BuyingGrowsHolding(before: Option<Position>, after: Option<Position>, net: real, bought: real)
    requires HoldsNet(before, net) && HoldsNet(after, net + bought) && bought > 0.0
    ensures Held(after) <= Held(before) + bought
  {
  }

  lemma CapFollows(held: real, net: real, before: Option<Position>, after: Option<Position>, c: Call, cap: real)
    requires HoldsNet(before, net) && HoldsNet(after, net + c.quantity) && c.quantity > 0.0 && c.price > 0.0
    requires held == Held(before) && OrderValue(held + c.quantity, c.price) <= cap
    ensures OrderValue(Held(after), c.price) <= cap
  {
    BuyingGrowsHolding(before, after, net, c.quantity);
    var slack := held + c.quantity - Held(after);
    assert slack * c.price >= 0.0;
  }

  function NetOf(s: Store, account: string, symbol: string): real {
    NetQuantity(TradesOf(s.positionLog, account, symbol))
  }

  lemma NetAfterBuy(s: Store, p: Policy, c: Call)
    requires Limit(s, p, c) >= POSITIONED && c.action.Buy?
    ensures NetOf(Partial(s, p, c, POSITIONED), c.accountId, c.symbol) == NetOf(s, c.accountId, c.symbol) + c.quantity
  {
    hide Refusal;
    var t := TradeOf(s, p, c);
    TradesOfAppend(s.positionLog, t, c.accountId, c.symbol);
    NetAppend(TradesOf(s.positionLog, c.accountId, c.symbol), t);
  }

  lemma StateHoldsNet(s: Store, p: Policy, account: string, symbol: string)
    requires Inv(s, p)
    ensures HoldsNet(OpenPosition(s.positions, account, symbol), NetOf(s, account, symbol))
  {
    OpenRowIsBookEnd(s, p, account, symbol);
  }

  lemma BoughtState(s: Store, p: Policy, c: Call, after: Store)
    requires Inv(s, p) && Limit(s, p, c) >= POSITIONED && c.action.Buy? && after == Partial(s, p, c, POSITIONED)
    ensures HoldsNet(OpenPosition(s.positions, c.accountId, c.symbol), NetOf(s, c.accountId, c.symbol))
    ensures HoldsNet(OpenPosition(after.positions, c.accountId, c.symbol), NetOf(s, c.accountId, c.symbol) + c.quantity)
  {
    hide *;
    StateHoldsNet(s, p, c.accountId, c.symbol);
    SubmissionKeepsInv(s, p, c, POSITIONED);
    StateHoldsNet(after, p, c.accountId, c.symbol);
    NetAfterBuy(s, p, c);
  }

  /** The cap is checked on what the position manager then really holds: after a BUY the open
      position, valued at the order's price, is within it. */
  lemma BuyKeepsPositionCap(s: Store, p: Policy, c: Call, cap: real)
    requires Inv(s, p) && Limit(s, p, c) >= POSITIONED && c.action.Buy? && p.maxPositionValue == Some(cap)
    ensures OrderValue(Held(OpenPosition(Partial(s, p, c, POSITIONED).positions, c.accountId, c.symbol)),
        c.price) <= cap
  {
    hide *;
    GatesPassed(s, p, c);
    var after := Partial(s, p, c, POSITIONED);
    PassedGates(s, p, c);
    CapGate(s, p, c, cap);
    BoughtState(s, p, c, after);
    var before := OpenPosition(s.positions, c.accountId, c.symbol);
    CapFollows(Held(before), NetOf(s, c.accountId, c.symbol), before,
        OpenPosition(after.positions, c.accountId, c.symbol), c, cap);
  }

  lemma GatesPassed(s: Store, p: Policy, c: Call)
    requires Limit(s, p, c) >= POSITIONED
    ensures Refusal(s, p, c).None?
  {
  }

  // ---------- what a completed call leaves behind ----------

  lemma DoneIsFullLength(s: Store, p: Policy, c: Call, writes: nat)
    requires Result(s, p, c, writes).Done?
    ensures Refusal(s, p, c).None? && !c.action.OtherAction? && Limit(s, p, c) == FullLength(c)
    ensures After(s, p, c, writes) == Partial(s, p, c, FullLength(c)) &&
        Result(s, p, c, writes) == Done(TradeOf(s, p, c))
  {
    hide Refusal;
    if Refusal(s, p, c).None? {
      PassedGates(s, p, c);
    }
  }

  /** One new order that went all the way, one new trade at the requested price and quantity, the key
      pointing at both, and the cash moved by gross and costs. */
  lemma CompletedCallRecords(s: Store, p: Policy, c: Call, writes: nat)
    requires Result(s, p, c, writes).Done?
    ensures c.accountId in s.accounts
    ensures var after := After(s, p, c, writes);
            && |after.orders| == |s.orders| + 1 && after.orders[..|s.orders|] == s.orders
            && |after.trades| == |s.trades| + 1 && after.trades[..|s.trades|] == s.trades
            && var o, t := after.orders[|s.orders|], after.trades[|s.trades|];
               && o.history == FILL_PATH && o.status == Filled && o.snapshotId == c.snapshotId
               && o.accountId == t.accountId == c.accountId && o.symbol == t.symbol == c.symbol &&
                   o.action == t.action == c.action
               && o.quantity == o.filledQuantity == t.quantity == c.quantity
               && o.requestedPrice == o.filledPrice == t.fillPrice == c.price
               && o.filledAt == Some(t.executedAt) && t.executedAt == c.executedAt && t.orderId == |s.orders|
               && (t.fee, t.tax) == (match c.venue.market
                                     case Us => (c.venue.usCommission,
                                                 if c.action == Sell then c.venue.usRegulatoryFee else 0.0)
                                     case Crypto => (c.venue.cryptoTakerFee, 0.0)
                                     case _ => if c.action == Sell then (p.sellFee, p.sellTax) else (p.buyFee, 0.0))
               && Result(s, p, c, writes) == Done(t)
               && after.keys == s.keys[c.key := KeyRow(c.accountId, |s.orders|, |s.trades|)]
               && var account := s.accounts[c.accountId];
                  after.accounts == s.accounts[c.accountId := account.(cash := account.cash + CashFlow(t))]
  {
    hide Refusal, Limit, BuyRequiredCash, OrderValue;
    DoneIsFullLength(s, p, c, writes);
    PassedGates(s, p, c);
    BalanceMade(s, p, c);
  }

  lemma BalanceMade(s: Store, p: Policy, c: Call)
    requires Refusal(s, p, c).None? && Limit(s, p, c) >= CASHED && c.accountId in s.accounts
    ensures BalanceAfter(s, p, c) == Some(s.accounts[c.accountId].cash + CashFlow(TradeOf(s, p, c)))
  {
    hide Refusal;
    CashFlowOfUpdate(s.accounts[c.accountId].cash, TradeOf(s, p, c));
  }

  // ---------- what an IDX run costs ----------

  function GrossFlow(log: seq<Trade>, account: string): real {
    if |log| == 0 then 0.0
    else
      var t := log[|log| - 1];
      GrossFlow(log[..|log| - 1], account) +
      if t.accountId != account then 0.0 else if t.action.Buy? then -Gross(t) else Gross(t)
  }

  function Trades(log: seq<Trade>, account: string, action: Action): nat {
    if |log| == 0 then 0
    else
      var t := log[|log| - 1];
      Trades(log[..|log| - 1], account, action) + if t.accountId == account && t.action == action then 1 else 0
  }

  predicate IdxCosts(t: Trade, p: Policy) {
    if t.action.Buy? then t.fee == p.buyFee && t.tax == 0.0
    else t.action.Sell? && t.fee == p.sellFee && t.tax == p.sellTax
  }

  predicate AllIdxCosts(log: seq<Trade>, p: Policy) {
    forall i | 0 <= i < |log| :: IdxCosts(log[i], p)
  }

  lemma SubmissionKeepsIdxCosts(s: Store, p: Policy, c: Call, k: nat)
    requires AllIdxCosts(s.cashLog, p) && UsesLots(c.venue) && k <= Limit(s, p, c)
    ensures AllIdxCosts(Partial(s, p, c, k).cashLog, p)
  {
    hide Refusal;
  }

  lemma {:induction false} RunKeepsIdxCosts(s: Store, p: Policy, events: seq<Event>)
    requires LotRun(events) && AllIdxCosts(s.cashLog, p)
    ensures AllIdxCosts(Run(s, p, events).cashLog, p)
  {
    if |events| > 0 {
      var n := |events| - 1;
      assert LotRun(events[..n]);
      RunKeepsIdxCosts(s, p, events[..n]);
      if events[n].Submit? {
        var c, before := events[n].call, Run(s, p, events[..n]);
        SubmissionKeepsIdxCosts(before, p, c, Min(events[n].writes, Limit(before, p, c)));
      }
    }
  }

  function Paid(cost: real, times: nat): real {
    cost * times as real
  }

  lemma PaidOnceMore(cost: real, times: nat)
    ensures Paid(cost, 0) == 0.0 && Paid(cost, times + 1) == Paid(cost, times) + cost
  {
  }

  lemma {:induction false} FlowOfIdxCosts(log: seq<Trade>, p: Policy, account: string)
    requires AllIdxCosts(log, p)
    ensures TotalCashFlow(log, account) ==
            GrossFlow(log, account) - Paid(p.buyFee, Trades(log, account, Buy))
            - Paid(p.sellFee + p.sellTax, Trades(log, account, Sell))
  {
    hide Gross, Paid;
    PaidOnceMore(p.buyFee, 0);
    PaidOnceMore(p.sellFee + p.sellTax, 0);
    if |log| > 0 {
      var n := |log| - 1;
      assert IdxCosts(log[n], p);
      FlowOfIdxCosts(log[..n], p, account);
      PaidOnceMore(p.buyFee, Trades(log[..n], account, Buy));
      PaidOnceMore(p.sellFee + p.sellTax, Trades(log[..n], account, Sell));
    }
  }

  /** After any run on the home market, cash is opening cash plus gross flows, less one buy fee for
      every BUY and one sell fee and tax for every SELL applied. */
  lemma IdxRunCash(s: Store, p: Policy, accounts: map<string, Account>, events: seq<Event>, account: string)
    requires s == Run(Fresh(accounts), p, events) && LotRun(events) && account in accounts
    ensures account in s.accounts
    ensures s.accounts[account].cash ==
               accounts[account].cash + GrossFlow(s.cashLog, account)
               - Paid(p.buyFee, Trades(s.cashLog, account, Buy))
               - Paid(p.sellFee + p.sellTax, Trades(s.cashLog, account, Sell))
  {
    hide GrossFlow, Trades, TotalCashFlow;
    CashIsConserved(s, p, accounts, account);
    RunKeepsIdxCosts(Fresh(accounts), p, events);
    FlowOfIdxCosts(s.cashLog, p, account);
  }
}
