/** Sizing an order from a fraction of cash, and what lot-sized orders keep over a run. */
module Allocation {
  import opened Options
  import opened Ledger
  import opened Gates
  import opened Submission
  import opened Books
  import opened Invariants
  import opened LedgerTheorems

  /** Floor division of a whole number by a positive lot. */
  function AllocationQuantity(cash: real, allocation: real, price: real, lot: int): int {
    if cash <= 0.0 || allocation <= 0.0 || price <= 0.0 || lot <= 0 then 0
    else (cash * allocation / price).Floor / lot * lot
  }

  lemma FloorAtLeast(x: real, n: int)
    ensures n as real <= x <==> n <= x.Floor
  {
  }

  lemma AffordableShares(capital: real, price: real, n: int)
    requires price > 0.0
    ensures n as real * price <= capital <==> n <= (capital / price).Floor
  {
    var shares := capital / price;
    assert shares * price == capital;
    FloorAtLeast(shares, n);
    if n as real <= shares {
      assert (shares - n as real) * price >= 0.0;
    } else {
      assert (n as real - shares) * price > 0.0;
    }
  }

  lemma MultiplyMonotone(x: int, y: int, lot: int)
    requires lot > 0 && x <= y
    ensures x * lot <= y * lot
  {
  }

  lemma LargestMultiple(q: int, r: int, lots: int, lot: int)
    requires 0 <= r < lot
    ensures q * lot + r >= 0 ==> q * lot >= 0
    ensures lots * lot <= q * lot + r ==> lots * lot <= q * lot
  {
    if lots <= q {
      MultiplyMonotone(lots, q, lot);
    } else {
      MultiplyMonotone(q + 1, lots, lot);
    }
    if q < 0 {
      MultiplyMonotone(q, -1, lot);
    } else {
      MultiplyMonotone(0, q, lot);
    }
  }

  lemma OptimalLots(capital: real, price: real, lot: int, lots: int, shares: int, quantity: int)
    requires capital > 0.0 && price > 0.0 && lot > 0
    requires shares == (capital / price).Floor && quantity == shares / lot * lot
    ensures quantity >= 0 && quantity as real * price <= capital
    ensures (lots * lot) as real * price <= capital ==> lots * lot <= quantity
  {
    AffordableShares(capital, price, 0);
    LargestMultiple(shares / lot, shares % lot, lots, lot);
    AffordableShares(capital, price, quantity);
    AffordableShares(capital, price, lots * lot);
  }

  lemma ProductPositive(x: real, y: real)
    requires x > 0.0 && y > 0.0
    ensures x * y > 0.0
    ensures y <= 1.0 ==> x * y <= x
  {
    if y <= 1.0 {
      assert x * (1.0 - y) >= 0.0;
    }
  }

  /** The result is affordable, and no larger multiple of the lot is. */
  lemma AllocationIsOptimal(cash: real, allocation: real, price: real, lot: int, lots: int)
    requires cash > 0.0 && allocation > 0.0 && price > 0.0 && lot > 0
    ensures var quantity := AllocationQuantity(cash, allocation, price, lot);
            && quantity >= 0 && IsMultiple(quantity as real, lot)
            && quantity as real * price <= cash * allocation
            && ((lots * lot) as real * price <= cash * allocation ==> lots * lot <= quantity)
  {
    ProductPositive(cash, allocation);
    OptimalLots(cash * allocation, price, lot, lots, (cash * allocation / price).Floor,
                AllocationQuantity(cash, allocation, price, lot));
    WholeLots((cash * allocation / price).Floor / lot, lot);
  }

  /** Such a quantity passes the lot gate and, with no fees and at most all cash allocated, the cash gate. */
  lemma AllocationPassesGates(s: Store, p: Policy, c: Call, allocation: real, quantity: int)
    requires c.accountId in s.accounts && p.lotSize > 0 && UsesLots(c.venue)
    requires quantity == AllocationQuantity(s.accounts[c.accountId].cash, allocation, c.price, p.lotSize)
    requires c.quantity == quantity as real
    requires quantity > 0 && allocation <= 1.0 && p.buyFee == 0.0
    ensures QuantityRule(p, c.venue, c.quantity).None? && CashRule(s, p, c).None?
  {
    AffordableLots(s.accounts[c.accountId].cash, allocation, c.price, p.lotSize, quantity);
    hide AllocationQuantity, IsMultiple;
    FeelessCashGate(s, p, c);
  }

  lemma AffordableLots(cash: real, allocation: real, price: real, lot: int, quantity: int)
    requires lot > 0 && allocation <= 1.0 && quantity == AllocationQuantity(cash, allocation, price, lot) &&
        quantity > 0
    ensures IsMultiple(quantity as real, lot) && quantity as real * price <= cash
  {
    NonZeroAllocation(cash, allocation, price, lot);
    hide *;
    AllocationIsOptimal(cash, allocation, price, lot, 0);
    ProductPositive(cash, allocation);
  }

  lemma FeelessCashGate(s: Store, p: Policy, c: Call)
    requires c.accountId in s.accounts && UsesLots(c.venue) && p.buyFee == 0.0
    requires c.quantity * c.price <= s.accounts[c.accountId].cash
    ensures CashRule(s, p, c).None?
  {
    var gross := c.quantity * c.price;
    assert BuyRequiredCash(gross, 0.0, 0.0) == gross;
  }

  lemma NonZeroAllocation(cash: real, allocation: real, price: real, lot: int)
    requires AllocationQuantity(cash, allocation, price, lot) != 0
    ensures cash > 0.0 && allocation > 0.0 && price > 0.0
  {
  }

  // ---------- lots over a run ----------

  lemma WholeLots(n: int, lot: int)
    requires lot != 0
    ensures IsMultiple((n * lot) as real, lot)
  {
    assert (n * lot) as real == n as real * lot as real;
    assert (n * lot) as real / lot as real == n as real;
  }

  lemma MultipleForm(x: real, lot: int, n: int)
    requires lot != 0
    ensures x == (n * lot) as real ==> IsMultiple(x, lot)
    ensures IsMultiple(x, lot) && n == (x / lot as real).Floor ==> x == (n * lot) as real
  {
    WholeLots(n, lot);
    assert x / lot as real * lot as real == x;
  }

  lemma MultiplesAdd(x: real, y: real, lot: int)
    requires lot != 0 && IsMultiple(x, lot) && IsMultiple(y, lot)
    ensures IsMultiple(x + y, lot) && IsMultiple(x - y, lot)
  {
    var a, b := (x / lot as real).Floor, (y / lot as real).Floor;
    MultipleForm(x, lot, a);
    MultipleForm(y, lot, b);
    LotsDistribute(a, b, lot);
    hide *;
    MultipleForm(x + y, lot, a + b);
    MultipleForm(x - y, lot, a - b);
  }

  lemma LotsDistribute(a: int, b: int, lot: int)
    ensures ((a + b) * lot) as real == (a * lot) as real + (b * lot) as real
    ensures ((a - b) * lot) as real == (a * lot) as real - (b * lot) as real
  {
  }

  predicate LotRun(events: seq<Event>) {
    forall i | 0 <= i < |events| :: events[i].Submit? ==> UsesLots(events[i].call.venue)
  }

  predicate AllLots(trades: seq<Trade>, lot: int)
    requires lot != 0
  {
    forall i | 0 <= i < |trades| :: IsMultiple(trades[i].quantity, lot)
  }

  lemma {:induction false} LotRunTrades(s: Store, p: Policy, events: seq<Event>)
    requires p.lotSize != 0 && LotRun(events) && AllLots(s.positionLog, p.lotSize)
    ensures AllLots(Run(s, p, events).positionLog, p.lotSize)
  {
    if |events| > 0 {
      var n := |events| - 1;
      assert LotRun(events[..n]);
      LotRunTrades(s, p, events[..n]);
      assert events[n].Submit? ==> UsesLots(events[n].call.venue);
    }
  }

  lemma SignedLots(t: Trade, net: real, lot: int)
    requires lot != 0 && IsMultiple(t.quantity, lot) && IsMultiple(net, lot)
    ensures IsMultiple(net + Signed(t), lot)
  {
    MultiplesAdd(net, t.quantity, lot);
  }

  lemma {:induction false} NetOfLots(trades: seq<Trade>, lot: int)
    requires lot != 0 && AllLots(trades, lot)
    ensures IsMultiple(NetQuantity(trades), lot)
  {
    if |trades| == 0 {
      WholeLots(0, lot);
    } else {
      NetOfLots(trades[..|trades| - 1], lot);
      SignedLots(trades[|trades| - 1], NetQuantity(trades[..|trades| - 1]), lot);
    }
  }

  lemma {:induction false} FilteredLots(log: seq<Trade>, account: string, symbol: string, lot: int)
    requires lot != 0 && AllLots(log, lot)
    ensures AllLots(TradesOf(log, account, symbol), lot)
  {
    if |log| > 0 {
      FilteredLots(log[..|log| - 1], account, symbol, lot);
    }
  }

  lemma OpenQuantityInLots(s: Store, p: Policy, account: string, symbol: string)
    requires p.lotSize != 0 && Inv(s, p) && AllLots(s.positionLog, p.lotSize)
    ensures var open := OpenPosition(s.positions, account, symbol);
            open.Some? ==> IsMultiple(open.value.quantity, p.lotSize)
  {
    var net := NetQuantity(TradesOf(s.positionLog, account, symbol));
    OpenRowIsBookEnd(s, p, account, symbol);
    FilteredLots(s.positionLog, account, symbol, p.lotSize);
    NetOfLots(TradesOf(s.positionLog, account, symbol), p.lotSize);
    WholeLots(0, p.lotSize);
    MultiplesAdd(0.0, net, p.lotSize);
  }

  /** Along any run on a lot-based market every open quantity stays a whole number of lots. */
  lemma PositionsStayInLots(
    s: Store, p: Policy, accounts: map<string, Account>, events: seq<Event>, account: string, symbol: string)
    requires s == Run(Fresh(accounts), p, events) && p.lotSize != 0 && LotRun(events)
    ensures var open := OpenPosition(s.positions, account, symbol);
            open.Some? ==> IsMultiple(open.value.quantity, p.lotSize)
  {
    ReachableInv(s, p, accounts);
    LotRunTrades(Fresh(accounts), p, events);
    OpenQuantityInLots(s, p, account, symbol);
  }
}
