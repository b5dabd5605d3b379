/** Concrete runs that reach the failures the general results describe, so that none of their
    hypotheses is empty. */
module Witnesses {
  import opened Options
  import opened Ledger
  import opened Gates
  import opened Submission
  import opened Books
  import opened Invariants
  import opened LedgerTheorems
  import opened Episodes
  import opened EpisodeBooks
  import opened Pairing
  import opened Attribution
  import opened LevelSafety

  const HOME := Venue(Idx, true, true, 0.0, 0.0, true, true, true, true, true, 0.0, true)
  const PAIRS := HOME.(market := Forex)
  const FREE := Policy(1, 0.0, 0.0, 0.0, false, 1000000.0, {}, {}, None, None, true)

  /** One account "A" with a thousand in cash. */
  function Funded(assetClass: AssetClass): map<string, Account> {
    map["A" := Account(1000.0, 1000.0, 1000.0, assetClass)]
  }

  /** An order of "X" at a price of one. */
  function Ask(action: Action, quantity: real, key: string, stop: Option<real>, venue: Venue): Call {
    Call("A", "X", action, quantity, 1.0, 0, true, None, true, key, stop, venue)
  }

  lemma NotBlank()
    ensures !IsBlank("X") && !IsBlank("k") && !IsBlank("l") && !IsBlank("m") && !IsBlank("n")
  {
    assert !IsSpace("X"[0]) && !IsSpace("k"[0]) && !IsSpace("l"[0]) && !IsSpace("m"[0]) && !IsSpace("n"[0]);
  }

  /** A spot BUY with a stop at its own price passes every gate and strands a filled order. */
  lemma StopAtPriceStrands()
    ensures Verdict(Fresh(Funded(StockId)), FREE, Ask(Buy, 10.0, "k", Some(1.0), HOME)) == LevelsRefused
  {
    NotBlank();
  }

  const STRANDED := Ask(Buy, 10.0, "k", Some(1.0), HOME)
  const CORRECTED := Ask(Buy, 10.0, "k", Some(0.5), HOME)

  /** Repeated with the same key and a stop below the price it completes: one request has paid for and holds
      twenty. */
  lemma CorrectedStopBuysTwice()
    ensures var s := After(Fresh(Funded(StockId)), FREE, STRANDED, COMPLETE);
            var after := After(s, FREE, CORRECTED, 9);
            && Result(s, FREE, CORRECTED, 9).Done?
            && "A" in after.accounts && after.accounts["A"].cash == 980.0 && |after.trades| == 2
            && after.positions == [Position("A", "X", Long, 20.0, 1.0, 0.0, true, Some(0.5), None, 0.0)]
            && after.keys.Keys == {"k"}
  {
    hide After, Result;
    StrandedTables(Fresh(Funded(StockId)));
    CorrectedCompletes(After(Fresh(Funded(StockId)), FREE, STRANDED, COMPLETE));
  }

  /** Ten are paid for and held, and no key is recorded. */
  predicate Stranded(s: Store) {
    && "A" in s.accounts && s.accounts["A"].assetClass == StockId && s.accounts["A"].cash == 990.0
    && s.positions == [Position("A", "X", Long, 10.0, 1.0, 0.0, true, None, None, 0.0)]
    && |s.trades| == 1 && s.keys.Keys == {}
  }

  lemma StrandedTables(s: Store)
    requires s == Fresh(Funded(StockId))
    ensures Stranded(After(s, FREE, STRANDED, COMPLETE))
  {
    hide Limit, Refusal;
    StrandedLimit(s);
  }

  lemma StrandedLimit(s: Store)
    requires s == Fresh(Funded(StockId))
    ensures Limit(s, FREE, STRANDED) == POSITIONED
  {
    NotBlank();
  }

  lemma CorrectedCompletes(s: Store)
    requires Stranded(s)
    ensures var after := After(s, FREE, CORRECTED, 9);
            && Result(s, FREE, CORRECTED, 9).Done?
            && "A" in after.accounts && after.accounts["A"].cash == 980.0 && |after.trades| == 2
            && after.positions == [Position("A", "X", Long, 20.0, 1.0, 0.0, true, Some(0.5), None, 0.0)]
            && after.keys.Keys == {"k"}
  {
    hide Limit, Refusal, Verdict;
    CorrectedLimit(s);
  }

  lemma CorrectedLimit(s: Store)
    requires Stranded(s)
    ensures Limit(s, FREE, CORRECTED) == 9 && Verdict(s, FREE, CORRECTED).Done?
  {
    NotBlank();
  }

  lemma ForexBuyUncovered()
    ensures Verdict(Fresh(Funded(ForexAsset)), FREE.(buyFee := 1.0), Ask(Buy, 1000.0, "k", Some(0.5), PAIRS))
            == CashRefused
  {
    NotBlank();
  }

  lemma ForexSaleUncovered()
    ensures Verdict(Fresh(Funded(ForexAsset)), FREE.(sellFee := 3000.0), Ask(Sell, 1000.0, "k", Some(1.5), PAIRS))
            == CashRefused
  {
    NotBlank();
  }

  lemma ForexShortUnopened()
    ensures Verdict(Fresh(Funded(ForexAsset)), FREE.(managerSeesAccounts := false),
                    Ask(Sell, 10.0, "k", Some(1.5), PAIRS))
            == PositionRefused
  {
    NotBlank();
  }

  const SHORT_TEN := Position("A", "X", Short, 10.0, 1.0, 0.0, true, Some(1.5), None, 0.0)

  /** A Forex account that has sold ten from flat. */
  function Shorted(): Store {
    Run(Fresh(Funded(ForexAsset)), FREE, [Submit(Ask(Sell, 10.0, "k", Some(1.5), PAIRS), 9)])
  }

  lemma OneCall(s: Store, p: Policy, c: Call, k: nat)
    ensures Run(s, p, [Submit(c, k)]) == After(s, p, c, k)
  {
    hide Partial, Limit;
    assert [Submit(c, k)][..0] == [];
    assert Run(s, p, []) == s;
  }

  /** What is known of a Forex account "A" that has traded "X" only, every call booked. */
  ghost predicate Stands(s: Store, cash: real, rows: seq<Position>, keys: set<string>) {
    && Inv(s, FREE) && Booked(s, "A", "X")
    && "A" in s.accounts && s.accounts["A"].assetClass == ForexAsset && s.accounts["A"].cash == cash
    && s.positions == rows && s.keys.Keys == keys
  }

  ghost predicate HoldsShort(s: Store) {
    Stands(s, 1010.0, [SHORT_TEN], {"k"})
  }

  lemma ShortedHoldsShort()
    ensures HoldsShort(Shorted())
  {
    hide Inv, Run, After, HoldsShort;
    NoInvYet();
    SoldFromFlat(Fresh(Funded(ForexAsset)));
    OneCall(Fresh(Funded(ForexAsset)), FREE, Ask(Sell, 10.0, "k", Some(1.5), PAIRS), 9);
  }

  lemma SoldFromFlat(s: Store)
    requires s == Fresh(Funded(ForexAsset)) && Inv(s, FREE)
    ensures HoldsShort(After(s, FREE, Ask(Sell, 10.0, "k", Some(1.5), PAIRS), 9))
  {
    hide Inv, Limit, Refusal, Booked;
    ShortAllowed(s);
    NoTradesYet(s);
    SubmissionKeepsInv(s, FREE, Ask(Sell, 10.0, "k", Some(1.5), PAIRS), 9);
    StaysBooked(s, FREE, Ask(Sell, 10.0, "k", Some(1.5), PAIRS), 9);
  }

  lemma NoTradesYet(s: Store)
    requires s.trades == s.positionLog
    ensures Booked(s, "A", "X")
  {
  }

  lemma ShortAllowed(s: Store)
    requires s == Fresh(Funded(ForexAsset))
    ensures Limit(s, FREE, Ask(Sell, 10.0, "k", Some(1.5), PAIRS)) == 9
  {
    NotBlank();
  }

  lemma NoInvYet()
    ensures Inv(Fresh(Funded(ForexAsset)), FREE)
  {
  }

  /** The fourth needs a short to reduce: a BUY larger than it. */
  lemma ForexBuyOverShort()
    ensures Verdict(Shorted(), FREE, Ask(Buy, 20.0, "l", Some(1.5), PAIRS)) == PositionRefused
  {
    hide Shorted, Inv;
    NotBlank();
    ShortedHoldsShort();
    BuyOverShort(Shorted());
  }

  lemma BuyOverShort(s: Store)
    requires HoldsShort(s)
    ensures Verdict(s, FREE, Ask(Buy, 20.0, "l", Some(1.5), PAIRS)) == PositionRefused
  {
    hide Inv, Booked;
    NotBlank();
  }

  /** And a SELL that adds to the short with a stop between its own price and the new average. */
  lemma ForexStopBehindAverage()
    ensures Verdict(Shorted(), FREE, Ask(Sell, 10.0, "l", Some(0.5), PAIRS).(price := 0.2)) == LevelsRefused
  {
    hide Shorted, Inv;
    NotBlank();
    ShortedHoldsShort();
    SellBelowAverage(Shorted());
  }

  lemma SellBelowAverage(s: Store)
    requires HoldsShort(s)
    ensures Verdict(s, FREE, Ask(Sell, 10.0, "l", Some(0.5), PAIRS).(price := 0.2)) == LevelsRefused
  {
    hide Inv, Booked;
    NotBlank();
  }

  /** A short stopped at 1.5 is averaged up to 2, and the call that did it is cut off before setting its
      own stop. */
  lemma AveragedPastStop()
    ensures var before := Shorted();
            var after := After(before, FREE, Ask(Sell, 10.0, "l", Some(3.5), PAIRS).(price := 3.0), POSITIONED);
            AllGuarded(before.positions) && !AllGuarded(after.positions)
  {
    hide Shorted, Inv;
    ShortedHoldsShort();
    AverageUp(Shorted());
  }

  lemma AverageUp(s: Store)
    requires HoldsShort(s)
    ensures var after := After(s, FREE, Ask(Sell, 10.0, "l", Some(3.5), PAIRS).(price := 3.0), POSITIONED);
            AllGuarded(s.positions) && !AllGuarded(after.positions)
  {
    hide Inv, Booked, Limit, Refusal;
    AddingAllowed(s);
    var after := After(s, FREE, Ask(Sell, 10.0, "l", Some(3.5), PAIRS).(price := 3.0), POSITIONED);
    assert after.positions == [SHORT_TEN.(quantity := 20.0, averagePrice := 2.0)];
    assert !Guarded(after.positions[0]);
  }

  lemma AddingAllowed(s: Store)
    requires HoldsShort(s)
    ensures Limit(s, FREE, Ask(Sell, 10.0, "l", Some(3.5), PAIRS).(price := 3.0)) >= POSITIONED
  {
    hide Inv, Booked;
    NotBlank();
  }

  const CLOSED_SHORT := SHORT_TEN.(quantity := 0.0, open := false)
  const LONG_TEN := Position("A", "X", Long, 10.0, 1.0, 0.0, true, Some(0.5), None, 0.0)
  const BUY_BACK := Ask(Buy, 10.0, "l", Some(1.5), PAIRS)
  const BUY_ANEW := Ask(Buy, 10.0, "m", Some(0.5), PAIRS)
  const SELL_ANEW := Ask(Sell, 10.0, "n", Some(0.5), PAIRS)

  /** Bought back in full, the short is a closed row and no episode: the report stops. */
  lemma ShortRoundTripStopsReport(regimes: Regimes)
    ensures var s := After(Shorted(), FREE, BUY_BACK, 9);
            Booked(s, "A", "X") && SymbolReport(s, "A", "X", regimes) == CountMismatch("X")
  {
    hide Shorted, Inv, SymbolReport, After, RowsPaired, ClosedShorts, NoShortClosed;
    ShortedHoldsShort();
    BoughtBack(Shorted());
    assert [] + [CLOSED_SHORT] == [CLOSED_SHORT];
    OneShortClosed([CLOSED_SHORT]);
    BookedReport(After(Shorted(), FREE, BUY_BACK, 9), FREE, "A", "X", regimes);
  }

  lemma BoughtBack(s: Store)
    requires HoldsShort(s)
    ensures Stands(After(s, FREE, BUY_BACK, 9), 1000.0, [CLOSED_SHORT], {"k", "l"})
  {
    hide Inv, Limit, Refusal, Booked;
    BuyBackAllowed(s);
    SubmissionKeepsInv(s, FREE, BUY_BACK, 9);
    StaysBooked(s, FREE, BUY_BACK, 9);
  }

  lemma BuyBackAllowed(s: Store)
    requires HoldsShort(s)
    ensures Limit(s, FREE, BUY_BACK) == 9
  {
    hide Inv, Booked;
    NotBlank();
  }

  lemma RowsOfAppend(rows: seq<Position>, row: Position)
    requires Holds(row, "A", "X")
    ensures RowsOf(rows + [row], "A", "X") == RowsOf(rows, "A", "X") + [Plain(row)]
  {
    assert (rows + [row])[..|rows|] == rows;
  }

  lemma OneShortClosed(rows: seq<Position>)
    requires rows == [] + [CLOSED_SHORT] || rows == [] + [CLOSED_SHORT] + [LONG_TEN]
    ensures ClosedShorts(RowsOf(rows, "A", "X")) == 1
  {
    hide ClosedShorts, RowsOf;
    NoneClosed();
    RowsOfAppend([], CLOSED_SHORT);
    RowsOfAppend([] + [CLOSED_SHORT], LONG_TEN);
    CountsAppend([], Plain(CLOSED_SHORT));
    CountsAppend([] + [Plain(CLOSED_SHORT)], Plain(LONG_TEN));
  }

  lemma NoneClosed()
    ensures ClosedShorts([]) == 0 && RowsOf([], "A", "X") == []
  {
  }

  lemma BoughtAnew(s: Store)
    requires Stands(s, 1000.0, [CLOSED_SHORT], {"k", "l"})
    ensures Stands(After(s, FREE, BUY_ANEW, 9), 990.0, [CLOSED_SHORT, LONG_TEN], {"k", "l", "m"})
  {
    hide Inv, Limit, Refusal, Booked;
    BuyAnewAllowed(s);
    SubmissionKeepsInv(s, FREE, BUY_ANEW, 9);
    StaysBooked(s, FREE, BUY_ANEW, 9);
  }

  lemma BuyAnewAllowed(s: Store)
    requires Stands(s, 1000.0, [CLOSED_SHORT], {"k", "l"})
    ensures Limit(s, FREE, BUY_ANEW) == 9
  {
    hide Inv, Booked;
    NotBlank();
  }

  lemma SellAnewAllowed(s: Store)
    requires Stands(s, 990.0, [CLOSED_SHORT, LONG_TEN], {"k", "l", "m"})
    ensures Limit(s, FREE, SELL_ANEW) >= TRADED && AbortedClose(s, SELL_ANEW, TRADED)
  {
    hide Inv, Booked;
    NotBlank();
  }

  /** Bought anew and sold by a call that was cut off, the two counts agree again: the report is made, and
      some row does not meet its own episode. */
  lemma ShortHidesLostSale(regimes: Regimes)
    ensures var s := After(After(Shorted(), FREE, BUY_BACK, 9), FREE, BUY_ANEW, 9);
            var after := After(s, FREE, SELL_ANEW, TRADED);
            AbortedClose(s, SELL_ANEW, TRADED) && SymbolReport(after, "A", "X", regimes).Gathered? &&
            !RowsPaired(after, "A", "X")
  {
    hide Shorted, Inv, SymbolReport, RowsPaired, AbortedClose, Limit, Partial, Booked, ClosedShorts, RowsOf;
    ShortedHoldsShort();
    BoughtBack(Shorted());
    BoughtAnew(After(Shorted(), FREE, BUY_BACK, 9));
    var s := After(After(Shorted(), FREE, BUY_BACK, 9), FREE, BUY_ANEW, 9);
    SellAnewAllowed(s);
    assert [] + [CLOSED_SHORT] + [LONG_TEN] == [CLOSED_SHORT, LONG_TEN];
    OneShortClosed([CLOSED_SHORT, LONG_TEN]);
    CutOffTables(s, FREE, SELL_ANEW, TRADED);
    CutOffGuardExactly(s, FREE, SELL_ANEW, TRADED, regimes);
  }

  // ---------- following a spot account without fees ----------

  function Deals(trades: seq<Trade>): (r: seq<(Action, real)>)
    ensures |r| == |trades| && forall i | 0 <= i < |r| :: r[i] == (trades[i].action, trades[i].quantity)
  {
    seq(|trades|, i requires 0 <= i < |trades| => (trades[i].action, trades[i].quantity))
  }

  /** What is known of account "A" and symbol "X": cash, booked holding, recorded trades and used keys. */
  ghost predicate At(s: Store, cash: real, held: real, deals: seq<(Action, real)>, keys: set<string>) {
    && Inv(s, FREE)
    && "A" in s.accounts && s.accounts["A"].assetClass == StockId && s.accounts["A"].cash == cash >= 0.0
    && NetQuantity(TradesOf(s.positionLog, "A", "X")) == held
    && Deals(TradesOf(s.trades, "A", "X")) == deals
    && s.keys.Keys == keys
  }

  predicate Affordable(cash: real, held: real, action: Action, quantity: real) {
    0.0 < quantity <= 1000.0 && IsWhole(quantity) &&
    (if action.Buy? then quantity <= cash else action.Sell? && quantity <= held)
  }

  lemma Start()
    ensures At(Fresh(Funded(StockId)), 1000.0, 0.0, [], {})
  {
  }

  lemma HomeFeesAreZero(action: Action)
    ensures FeeTax(FREE, HOME, action) == (0.0, 0.0)
  {
  }

  lemma Passes(s: Store, cash: real, held: real, deals: seq<(Action, real)>, keys: set<string>,
               action: Action, quantity: real, key: string)
    requires At(s, cash, held, deals, keys) && Affordable(cash, held, action, quantity) && key !in keys && !IsBlank(key)
    ensures var c := Ask(action, quantity, key, None, HOME);
            Refusal(s, FREE, c).None? && Limit(s, FREE, c) == FullLength(c)
  {
    hide Inv, NetQuantity, TradesOf, OpenPosition, IsBlank, Limit;
    NotBlank();
    var c := Ask(action, quantity, key, None, HOME);
    OpenRowIsBookEnd(s, FREE, "A", "X");
    OpenRowIsLong(s, FREE, "A", "X");
    assert OrderValue(quantity, 1.0) == quantity;
    HomeFeesAreZero(action);
    SpotCompletion(s, FREE, c);
    VerdictIsFull(s, FREE, c);
  }

  lemma VerdictIsFull(s: Store, p: Policy, c: Call)
    requires Refusal(s, p, c).None? && !c.action.OtherAction?
    ensures Verdict(s, p, c).Done? ==> Limit(s, p, c) == FullLength(c)
  {
    hide Refusal;
    PassedGates(s, p, c);
  }

  function Change(action: Action, quantity: real): real {
    if action.Buy? then quantity else -quantity
  }

  /** The account after the first `k` writes of such a call. */
  lemma Advance(s: Store, cash: real, held: real, deals: seq<(Action, real)>, keys: set<string>,
                action: Action, quantity: real, key: string, k: nat)
    requires At(s, cash, held, deals, keys) && Affordable(cash, held, action, quantity) && key !in keys && !IsBlank(key)
    requires TRADED <= k <= POSITIONED + 1
    ensures var after := After(s, FREE, Ask(action, quantity, key, None, HOME), k);
            && At(after, if k >= CASHED then cash - Change(action, quantity) else cash,
                  if k >= POSITIONED then held + Change(action, quantity) else held,
                  deals + [(action, quantity)], if k > POSITIONED then keys + {key} else keys)
            && (Booked(s, "A", "X") && k >= POSITIONED ==> Booked(after, "A", "X"))
  {
    hide Inv, NetQuantity, TradesOf, OpenPosition, IsBlank, Limit, Refusal, OrderAt, RowsAt;
    var c := Ask(action, quantity, key, None, HOME);
    var t := TradeOf(s, FREE, c);
    Passes(s, cash, held, deals, keys, action, quantity, key);
    SubmissionKeepsInv(s, FREE, c, k);
    HomeFeesAreZero(action);
    TradesOfAppend(s.trades, t, "A", "X");
    TradesOfAppend(s.positionLog, t, "A", "X");
    NetAppend(TradesOf(s.positionLog, "A", "X"), t);
    BalanceStands(s, c, k);
  }

  lemma BalanceStands(s: Store, c: Call, k: nat)
    requires c.accountId in s.accounts && Limit(s, FREE, c) == FullLength(c) && !c.action.OtherAction?
    requires FeeTax(FREE, c.venue, c.action) == (0.0, 0.0) && c.price == 1.0
    ensures BalanceAfter(s, FREE, c) == Some(s.accounts[c.accountId].cash - Change(c.action, c.quantity))
  {
    hide Refusal;
    assert c.quantity * 1.0 == c.quantity;
  }

  // ---------- runs ----------

  function Step10(action: Action, key: string, writes: nat): Event {
    Submit(Ask(action, 10.0, key, None, HOME), writes)
  }

  const COMPLETE: nat := 8

  const BUY_TEN := Step10(Buy, "k", COMPLETE)
  const BUY_TEN_UNBOOKED := Step10(Buy, "k", CASHED)
  const SELL_TEN_UNPAID := Step10(Sell, "l", TRADED)
  const SELL_TEN_AGAIN := Step10(Sell, "l", COMPLETE)
  const BUY_TWENTY := Submit(Ask(Buy, 20.0, "m", None, HOME), COMPLETE)
  const SELL_TEN := Step10(Sell, "n", COMPLETE)

  function Reached(events: seq<Event>): Store {
    Run(Fresh(Funded(StockId)), FREE, events)
  }

  /** Where a run of such calls leads, one more call at a time. */
  lemma Then(events: seq<Event>, more: seq<Event>, cash: real, held: real, deals: seq<(Action, real)>,
             keys: set<string>, action: Action, quantity: real, key: string, k: nat)
    requires At(Reached(events), cash, held, deals, keys) && Affordable(cash, held, action, quantity)
    requires key !in keys && !IsBlank(key) && TRADED <= k <= COMPLETE
    requires more == events + [Submit(Ask(action, quantity, key, None, HOME), k)]
    ensures At(Reached(more), if k >= CASHED then cash - Change(action, quantity) else cash,
               if k >= POSITIONED then held + Change(action, quantity) else held,
               deals + [(action, quantity)], if k > POSITIONED then keys + {key} else keys)
    ensures Booked(Reached(events), "A", "X") && k >= POSITIONED ==> Booked(Reached(more), "A", "X")
    ensures Reached(more) == After(Reached(events), FREE, Ask(action, quantity, key, None, HOME), k)
  {
    hide At, Booked, After, IsBlank;
    assert more[..|events|] == events;
    Advance(Reached(events), cash, held, deals, keys, action, quantity, key, k);
  }

  /** The account buys ten. */
  lemma AfterBuy()
    ensures At(Reached([BUY_TEN]), 990.0, 10.0, [(Buy, 10.0)], {"k"}) && Booked(Reached([BUY_TEN]), "A", "X")
  {
    hide At, Booked, Run, IsBlank;
    NotBlank();
    Beginning();
    Then([], [BUY_TEN], 1000.0, 0.0, [], {}, Buy, 10.0, "k", COMPLETE);
    assert [] + [(Buy, 10.0)] == [(Buy, 10.0)] && {} + {"k"} == {"k"};
  }

  lemma Beginning()
    ensures At(Reached([]), 1000.0, 0.0, [], {}) && Booked(Reached([]), "A", "X")
  {
    Start();
  }

  /** It sells them, but the call is cut off after the trade. */
  lemma AfterLostSale()
    ensures At(Reached([BUY_TEN, SELL_TEN_UNPAID]), 990.0, 10.0, [(Buy, 10.0), (Sell, 10.0)], {"k"})
    ensures Reached([BUY_TEN, SELL_TEN_UNPAID]) == After(Reached([BUY_TEN]), FREE, SELL_TEN_UNPAID.call, TRADED)
  {
    hide At, Booked, Run, IsBlank;
    NotBlank();
    AfterBuy();
    Then([BUY_TEN], [BUY_TEN, SELL_TEN_UNPAID], 990.0, 10.0, [(Buy, 10.0)], {"k"}, Sell, 10.0, "l", TRADED);
    assert [(Buy, 10.0)] + [(Sell, 10.0)] == [(Buy, 10.0), (Sell, 10.0)];
  }

  /** The guard stops the report of that account: a reachable state the service cannot report on. */
  lemma LostSaleStopsReport(regimes: Regimes)
    ensures SymbolReport(Reached([BUY_TEN, SELL_TEN_UNPAID]), "A", "X", regimes) == CountMismatch("X")
  {
    hide Run, IsBlank, SymbolReport, Booked, Inv, OpenPosition, TradesOf, NetQuantity, Limit, Refusal, Partial;
    AfterBuy();
    AfterLostSale();
    var s, c := Reached([BUY_TEN]), SELL_TEN_UNPAID.call;
    SaleOfLong(s, c, 10.0, 990.0, [(Buy, 10.0)], {"k"});
    CannotShort(s);
    AbortedSaleTripsGuardExactly(s, FREE, c, TRADED, regimes);
  }

  lemma SaleOfLong(s: Store, c: Call, held: real, cash: real, deals: seq<(Action, real)>, keys: set<string>)
    requires At(s, cash, held, deals, keys) && "l" !in keys && held >= 10.0 && c == Ask(Sell, 10.0, "l", None, HOME)
    ensures Inv(s, FREE) && Limit(s, FREE, c) == COMPLETE
    ensures var open := OpenPosition(s.positions, "A", "X");
            open.Some? && open.value.direction.Long? && open.value.quantity == held
  {
    hide Inv, OpenPosition, TradesOf, NetQuantity, Limit, Refusal;
    NotBlank();
    Passes(s, cash, held, deals, keys, Sell, 10.0, "l");
    OpenRowIsBookEnd(s, FREE, "A", "X");
  }

  lemma CannotShort(s: Store)
    requires "A" in s.accounts && s.accounts["A"].assetClass == StockId
    ensures !MayShort(s, FREE, "A")
  {
  }

  const RETRIED := [BUY_TEN, SELL_TEN_UNPAID, SELL_TEN_AGAIN]

  /** The sale is retried and completes. */
  lemma AfterRetriedSale()
    ensures At(Reached(RETRIED), 1000.0, 0.0, [(Buy, 10.0), (Sell, 10.0), (Sell, 10.0)], {"k", "l"})
    ensures Reached(RETRIED) == After(Reached([BUY_TEN, SELL_TEN_UNPAID]), FREE, SELL_TEN_AGAIN.call, COMPLETE)
  {
    hide At, Booked, Run, IsBlank;
    NotBlank();
    AfterLostSale();
    Then([BUY_TEN, SELL_TEN_UNPAID], RETRIED, 990.0, 10.0, [(Buy, 10.0), (Sell, 10.0)], {"k"},
         Sell, 10.0, "l", COMPLETE);
    assert [(Buy, 10.0), (Sell, 10.0)] + [(Sell, 10.0)] == [(Buy, 10.0), (Sell, 10.0), (Sell, 10.0)];
    assert {"k"} + {"l"} == {"k", "l"};
  }

  lemma RetryCompletes(s: Store, held: real, cash: real, deals: seq<(Action, real)>)
    requires At(s, cash, held, deals, {"k"}) && held >= 10.0
    ensures Result(s, FREE, SELL_TEN_AGAIN.call, COMPLETE).Done?
  {
    hide At, Refusal, Limit, IsBlank;
    NotBlank();
    Passes(s, cash, held, deals, {"k"}, Sell, 10.0, "l");
  }

  /** The guard is silent now, and the one filed row meets an episode of other trades than its own. */
  lemma RetriedSaleIsReported(regimes: Regimes)
    ensures var s := Reached(RETRIED);
            SymbolReport(s, "A", "X", regimes).Gathered? && !RowsPaired(s, "A", "X") &&
            Mispaired(TradesOf(s.trades, "A", "X"), TradesOf(s.positionLog, "A", "X"),
                      TradeOf(Reached([BUY_TEN]), FREE, SELL_TEN_UNPAID.call),
                      TradeOf(Reached([BUY_TEN, SELL_TEN_UNPAID]), FREE, SELL_TEN_AGAIN.call))
  {
    hide Run, IsBlank, SymbolReport, Booked, Inv, OpenPosition, TradesOf, NetQuantity, Limit, Refusal, Partial,
         FiledRows, Result, TradeOf, Mispaired, RowsPaired, RowsOf, OnePass, ClosedEpisodes, NoShortClosed, NetFlow,
         Flow;
    AfterBuy();
    AfterLostSale();
    AfterRetriedSale();
    var s, c := Reached([BUY_TEN]), SELL_TEN_UNPAID.call;
    SaleOfLong(s, c, 10.0, 990.0, [(Buy, 10.0)], {"k"});
    CannotShort(s);
    NoShortsAfter(s, FREE, "A", "X");
    ClosedShortsCount(RowsOf(s.positions, "A", "X"));
    RetryCompletes(Reached([BUY_TEN, SELL_TEN_UNPAID]), 10.0, 990.0, [(Buy, 10.0), (Sell, 10.0)]);
    RetriedSaleMispairs(s, FREE, c, TRADED, SELL_TEN_AGAIN.call, COMPLETE);
    RetriedSpotCallExactly(s, FREE, c, TRADED, SELL_TEN_AGAIN.call, COMPLETE, regimes);
  }

  const BUY_TWO_LOTS := Submit(Ask(Buy, 20.0, "k", None, HOME), COMPLETE)

  /** Had it held twice as much, the retried sale would have stopped the report. */
  lemma RetriedHalfStopsReport(regimes: Regimes)
    ensures var s := Reached([BUY_TWO_LOTS, SELL_TEN_UNPAID, SELL_TEN_AGAIN]);
            SymbolReport(s, "A", "X", regimes) == CountMismatch("X")
  {
    hide Run, IsBlank, SymbolReport, Booked, Inv, OpenPosition, TradesOf, NetQuantity, Limit, Refusal, Partial,
         Result, TradeOf, RowsPaired, At;
    NotBlank();
    Beginning();
    var one, two := [(Buy, 20.0)], [(Buy, 20.0), (Sell, 10.0)];
    Then([], [BUY_TWO_LOTS], 1000.0, 0.0, [], {}, Buy, 20.0, "k", COMPLETE);
    assert [] + [(Buy, 20.0)] == one && one + [(Sell, 10.0)] == two && {} + {"k"} == {"k"};
    Then([BUY_TWO_LOTS], [BUY_TWO_LOTS, SELL_TEN_UNPAID], 980.0, 20.0, one, {"k"}, Sell, 10.0, "l", TRADED);
    var s, between, c := Reached([BUY_TWO_LOTS]), Reached([BUY_TWO_LOTS, SELL_TEN_UNPAID]), SELL_TEN_UNPAID.call;
    Then([BUY_TWO_LOTS, SELL_TEN_UNPAID], [BUY_TWO_LOTS, SELL_TEN_UNPAID, SELL_TEN_AGAIN], 980.0, 20.0, two, {"k"},
         Sell, 10.0, "l", COMPLETE);
    SaleOfLong(s, c, 20.0, 980.0, one, {"k"});
    StockAccount(s, 980.0, 20.0, one, {"k"});
    RetryCompletes(between, 20.0, 980.0, two);
    RetriedSpotCallExactly(s, FREE, c, TRADED, SELL_TEN_AGAIN.call, COMPLETE, regimes);
  }

  lemma StockAccount(s: Store, cash: real, held: real, deals: seq<(Action, real)>, keys: set<string>)
    requires At(s, cash, held, deals, keys)
    ensures !MayShort(s, FREE, "A")
  {
  }

  const TRADED_ON := [BUY_TEN, SELL_TEN_UNPAID, SELL_TEN_AGAIN, BUY_TWENTY, SELL_TEN]
  const TRADED_ON_DEALS := [(Buy, 10.0), (Sell, 10.0), (Sell, 10.0), (Buy, 20.0), (Sell, 10.0)]

  /** Then twenty are bought and ten of them sold. */
  lemma AfterTradingOn()
    ensures At(Reached(TRADED_ON), 990.0, 10.0, TRADED_ON_DEALS, {"k", "l", "m", "n"})
  {
    hide At, Booked, Run, IsBlank;
    NotBlank();
    AfterRetriedSale();
    var three := [(Buy, 10.0), (Sell, 10.0), (Sell, 10.0)];
    var four := three + [(Buy, 20.0)];
    Then(RETRIED, RETRIED + [BUY_TWENTY], 1000.0, 0.0, three, {"k", "l"}, Buy, 20.0, "m", COMPLETE);
    assert {"k", "l"} + {"m"} == {"k", "l", "m"} && {"k", "l", "m"} + {"n"} == {"k", "l", "m", "n"};
    assert TRADED_ON == RETRIED + [BUY_TWENTY] + [SELL_TEN];
    Then(RETRIED + [BUY_TWENTY], TRADED_ON, 980.0, 20.0, four, {"k", "l", "m"}, Sell, 10.0, "n", COMPLETE);
    assert four + [(Sell, 10.0)] == TRADED_ON_DEALS;
  }

  lemma NetStep(trades: seq<Trade>, i: nat)
    requires i < |trades|
    ensures NetQuantity(trades[..i + 1]) == NetQuantity(trades[..i]) + Signed(trades[i])
  {
    assert trades[..i + 1][..i] == trades[..i];
  }

  /** The last SELL returns the running quantity to zero although no BUY has started from zero since the
      first SELL did: the first of the two recorded sales closed, and the second went below. */
  lemma TradingOnFails(trades: seq<Trade>)
    requires Deals(trades) == TRADED_ON_DEALS
    ensures OnePass(trades).None?
  {
    assert |trades| == 5;
    assert forall i | 0 <= i < 5 :: (trades[i].action, trades[i].quantity) == TRADED_ON_DEALS[i];
    NetStep(trades, 0);
    NetStep(trades, 1);
    NetStep(trades, 2);
    NetStep(trades, 3);
    NetStep(trades, 4);
    hide NetQuantity, OnePass;
    assert trades[..0] == [] && NetQuantity([]) == 0.0 by { NoNet(); }
    assert Closes(trades, 1) && Closes(trades, 4);
    assert !Starts(trades, 1) && !Starts(trades, 2) && !Starts(trades, 3);
    assert !Timed(trades, 4);
    PassFailsExactly(trades);
  }

  lemma NoNet()
    ensures NetQuantity([]) == 0.0
  {
  }

  /** A reachable state, and every one after it, on which the whole report fails in the holding-period pass. */
  lemma TradingOnStopsReport(regimes: Regimes)
    ensures var s := Reached(TRADED_ON);
            SymbolReport(s, "A", "X", regimes) == PassFailed("X") && !GatherAccount(s, "A", regimes).Gathered?
    ensures forall more :: OnePass(TradesOf(Reached(TRADED_ON).trades, "A", "X") + more).None?
  {
    hide Run, IsBlank, Booked, Inv, NetQuantity, TradesOf, Gather, FiledRows, OnePass;
    AfterTradingOn();
    var s := Reached(TRADED_ON);
    var trades := TradesOf(s.trades, "A", "X");
    TradingOnFails(trades);
    AccountReportExactly(s, "A", regimes);
    forall more ensures OnePass(trades + more).None? {
      PassFailsForGood(trades, more);
    }
  }

  /** A buy cut off after its cash update. */
  lemma AfterUnbookedBuy()
    ensures At(Reached([BUY_TEN_UNBOOKED]), 990.0, 0.0, [(Buy, 10.0)], {})
    ensures Result(Reached([]), FREE, BUY_TEN.call, CASHED) == WriteFailed
  {
    hide At, Booked, Run, IsBlank, Limit, Refusal;
    NotBlank();
    Beginning();
    Passes(Reached([]), 1000.0, 0.0, [], {}, Buy, 10.0, "k");
    Then([], [BUY_TEN_UNBOOKED], 1000.0, 0.0, [], {}, Buy, 10.0, "k", CASHED);
    assert [] + [(Buy, 10.0)] == [(Buy, 10.0)];
  }

  lemma BuyCompletes(s: Store)
    requires At(s, 990.0, 0.0, [(Buy, 10.0)], {})
    ensures Result(s, FREE, BUY_TEN.call, COMPLETE).Done?
  {
    hide At, Refusal, Limit, IsBlank;
    NotBlank();
    Passes(s, 990.0, 0.0, [(Buy, 10.0)], {}, Buy, 10.0, "k");
  }

  /** Retried with the same key it completes, and has paid twice and holds once. */
  lemma RetriedBuyPaysTwice()
    ensures Result(Reached([]), FREE, BUY_TEN.call, CASHED) == WriteFailed
    ensures Result(Reached([BUY_TEN_UNBOOKED]), FREE, BUY_TEN.call, COMPLETE).Done?
    ensures At(Reached([BUY_TEN_UNBOOKED, BUY_TEN]), 980.0, 10.0, [(Buy, 10.0), (Buy, 10.0)], {"k"})
  {
    hide At, Booked, Run, IsBlank, Result;
    NotBlank();
    AfterUnbookedBuy();
    BuyCompletes(Reached([BUY_TEN_UNBOOKED]));
    Then([BUY_TEN_UNBOOKED], [BUY_TEN_UNBOOKED, BUY_TEN], 990.0, 0.0, [(Buy, 10.0)], {}, Buy, 10.0, "k", COMPLETE);
    assert [(Buy, 10.0)] + [(Buy, 10.0)] == [(Buy, 10.0), (Buy, 10.0)] && {} + {"k"} == {"k"};
  }
}
