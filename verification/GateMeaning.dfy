/** The gates against an independent reading: each reason has a condition of its own, and a refusal
    names the present condition that comes first in the documented order. */
module GateMeaning {
  import opened Options
  import opened Ledger
  import opened Gates
  import opened Submission
  import opened Books
  import opened Invariants
  import opened LedgerTheorems
  import opened Allocation

  // ---------- conditions on the state, in terms of the book and not of the row ----------

  /** What the account holds of the symbol, negative when short. */
  function Holding(s: Store, c: Call): real {
    NetQuantity(TradesOf(s.positionLog, c.accountId, c.symbol))
  }

  /** How much the order enlarges the holding on its own side. */
  function Growth(holding: real, action: Action, quantity: real): real {
    var side := if action.Buy? then holding else -holding;
    Max(0.0, side + quantity) - Max(0.0, side)
  }

  function BuyCost(p: Policy, v: Venue): real {
    match v.market
    case Us => v.usCommission
    case Crypto => v.cryptoTakerFee
    case _ => p.buyFee
  }

  function SaleCost(p: Policy, v: Venue): real {
    match v.market
    case Us => v.usCommission + v.usRegulatoryFee
    case Crypto => v.cryptoTakerFee
    case _ => p.sellFee + p.sellTax
  }

  predicate Longward(s: Store, c: Call) {
    Holding(s, c) > 0.0 || (Holding(s, c) == 0.0 && c.action.Buy?)
  }

  function LotsOf(n: int, lot: int): real {
    (n * lot) as real
  }

  ghost predicate BadLots(p: Policy, v: Venue, quantity: real) {
    match v.market
    case Us => !v.usQuantityAllowed
    case Crypto => !v.cryptoQuantityValid
    case Forex => forall n: int :: quantity != LotsOf(n, 1)
    case _ => p.lotSize != 0 && forall n: int :: quantity != LotsOf(n, p.lotSize)
  }

  predicate ForexAccount(s: Store, c: Call) {
    c.accountId in s.accounts && s.accounts[c.accountId].assetClass.ForexAsset?
  }

  predicate BadStop(s: Store, c: Call) {
    c.stopLoss.Some? && if Longward(s, c) then c.stopLoss.value >= c.price else c.stopLoss.value <= c.price
  }

  /** Nothing but the characters that count as white space. */
  predicate Empty(text: string) {
    forall i | 0 <= i < |text| ::
      text[i] as int in {0x09, 0x0A, 0x0B, 0x0C, 0x0D, 0x1C, 0x1D, 0x1E, 0x1F, 0x20, 0x85, 0xA0, 0x1680, 0x2000, 0x2001,
        0x2002, 0x2003, 0x2004, 0x2005, 0x2006, 0x2007, 0x2008, 0x2009, 0x200A, 0x2028, 0x2029, 0x202F, 0x205F, 0x3000}
  }

  /** `capitals` is the text with each of the letters a to z moved 32 code points down. */
  predicate InCapitals(capitals: string, text: string) {
    && |capitals| == |text|
    && forall i | 0 <= i < |text| ::
         capitals[i] as int == text[i] as int - if 97 <= text[i] as int <= 122 then 32 else 0
  }

  lemma EmptyIsBlank(text: string)
    ensures Empty(text) <==> IsBlank(text)
  {
    forall i | 0 <= i < |text| ensures IsSpace(text[i]) <==> Empty([text[i]]) {
      assert [text[i]][0] == text[i];
    }
    assert Empty(text) <==> forall i | 0 <= i < |text| :: Empty([text[i]]);
  }

  lemma CapitalsAreUpper(capitals: string, text: string)
    ensures InCapitals(capitals, text) <==> capitals == Upper(text)
  {
    if InCapitals(capitals, text) {
      assert forall i | 0 <= i < |text| :: capitals[i] as int == UpperChar(text[i]) as int;
    }
  }

  lemma HaltedInCapitals(p: Policy, symbol: string)
    ensures Upper(symbol) in p.haltedSymbols <==>
            exists halted | halted in p.haltedSymbols :: InCapitals(halted, symbol)
  {
    hide Upper, InCapitals;
    forall halted ensures InCapitals(halted, symbol) <==> halted == Upper(symbol) {
      CapitalsAreUpper(halted, symbol);
    }
  }

  /** Whether the condition a reason stands for is present, judged on its own. */
  ghost predicate Present(s: Store, p: Policy, c: Call, r: Reason) {
    match r
    case AccountNotFound => c.accountId !in s.accounts
    case EvidenceMissing => !c.evidence
    case ApprovalMissing => !c.approved
    case BadSymbol => Empty(c.symbol)
    case BadQuantity => c.quantity <= 0.0
    case BadLotSize => BadLots(p, c.venue, c.quantity)
    case LotSizeIsZero => UsesLots(c.venue) && p.lotSize == 0
    case BadPrice => c.price <= 0.0
    case BadPriceTick => c.venue.market == Crypto && !c.venue.cryptoOnTick
    case BelowMinimumNotional => c.venue.market == Crypto && !c.venue.cryptoNotionalMet
    case StopLossRequired => ForexAccount(s, c) && c.stopLoss == None
    case StopLossWrongSide => ForexAccount(s, c) && BadStop(s, c)
    case UnsupportedPair => ForexAccount(s, c) && Growth(Holding(s, c), c.action, c.quantity) > 0.0 &&
        !c.venue.pairSupported
    case InsufficientMargin =>
      ForexAccount(s, c) &&
      var growth := Growth(Holding(s, c), c.action, c.quantity);
      growth > 0.0 && s.accounts[c.accountId].cash < c.price * growth
    case InsufficientCash =>
      c.accountId in s.accounts && !ForexAccount(s, c) && c.action == Buy &&
      s.accounts[c.accountId].cash < c.quantity * c.price + BuyCost(p, c.venue)
    case InsufficientPosition =>
      c.action == Sell && Holding(s, c) < c.quantity && (ForexAccount(s, c) ==> Holding(s, c) > 0.0)
    case DuplicateRequest => Empty(c.key) || c.key in s.keys
    case RiskLimitExceeded => c.quantity * c.price > p.maxOrderValue
    case KillSwitchEngaged => p.killSwitch
    case MarketHalted => c.venue.market in p.haltedMarkets
    case SymbolHalted => exists halted | halted in p.haltedSymbols :: InCapitals(halted, c.symbol)
    case DailyLossExceeded =>
      c.action == Buy && p.maxDailyLoss.Some? &&
      RealizedTotal(s.positions, c.accountId) < 0.0 && RealizedTotal(s.positions, c.accountId) <= -p.maxDailyLoss.value
    case MaxPositionExceeded =>
      c.action == Buy && p.maxPositionValue.Some? &&
          (Abs(Holding(s, c)) + c.quantity) * c.price > p.maxPositionValue.value
    case UsSessionClosed => c.venue.market == Us && !c.venue.usSessionOpen
    case CryptoMarketClosed => c.venue.market == Crypto && !c.venue.cryptoMarketOpen
    case CryptoExchangeUnavailable => c.venue.market == Crypto && !c.venue.cryptoExchangeUp
  }

  /** The documented order of the gates. */
  function Rank(r: Reason): nat {
    match r
    case AccountNotFound => 1
    case EvidenceMissing => 2
    case ApprovalMissing => 3
    case BadSymbol => 4
    case BadQuantity => 5
    case BadLotSize => 6
    case LotSizeIsZero => 6
    case BadPrice => 7
    case BadPriceTick => 8
    case BelowMinimumNotional => 9
    case StopLossRequired => 10
    case StopLossWrongSide => 11
    case UnsupportedPair => 12
    case InsufficientMargin => 13
    case InsufficientCash => 14
    case InsufficientPosition => 15
    case DuplicateRequest => 16
    case RiskLimitExceeded => 17
    case KillSwitchEngaged => 18
    case MarketHalted => 19
    case SymbolHalted => 20
    case DailyLossExceeded => 21
    case MaxPositionExceeded => 22
    case UsSessionClosed => 23
    case CryptoMarketClosed => 24
    case CryptoExchangeUnavailable => 25
  }

  // ---------- the row's quantity and direction say what the book holds ----------

  lemma HoldingOfRow(s: Store, p: Policy, c: Call)
    requires Inv(s, p)
    ensures var open := OpenPosition(s.positions, c.accountId, c.symbol);
            var held := if open.Some? then open.value.quantity else 0.0;
            && held == Abs(Holding(s, c))
            && (open.Some? <==> Holding(s, c) != 0.0)
            && (open.Some? ==> (open.value.direction.Long? <==> Holding(s, c) > 0.0))
  {
    hide Inv, OpenPosition, NetQuantity, TradesOf;
    OpenRowIsBookEnd(s, p, c.accountId, c.symbol);
  }

  lemma GrowthOfRow(open: Option<Position>, holding: real, action: Action, quantity: real)
    requires quantity > 0.0 && (open.Some? <==> holding != 0.0)
    requires open.Some? ==> open.value.quantity == Abs(holding) && (open.value.direction.Long? <==> holding > 0.0)
    ensures NewExposure(open, action, quantity) == Growth(holding, action, quantity)
  {
  }

  lemma LotsExactly(p: Policy, v: Venue, quantity: real)
    ensures QuantityRule(p, v, quantity) ==
            if UsesLots(v) && p.lotSize == 0 then Some(LotSizeIsZero)
            else if BadLots(p, v, quantity) then Some(BadLotSize)
            else None
  {
    if UsesLots(v) && p.lotSize != 0 {
      WholeLotsExactly(quantity, p.lotSize);
    } else if v.market.Forex? {
      forall n: int ensures LotsOf(n, 1) == n as real {
      }
      assert LotsOf(quantity.Floor, 1) == quantity.Floor as real;
    }
    hide IsMultiple, LotsOf;
  }

  lemma WholeLotsExactly(quantity: real, lot: int)
    requires lot != 0
    ensures IsMultiple(quantity, lot) <==> exists n: int :: quantity == LotsOf(n, lot)
  {
    var n := (quantity / lot as real).Floor;
    MultipleForm(quantity, lot, n);
    forall m: int ensures quantity == LotsOf(m, lot) ==> IsMultiple(quantity, lot) {
      MultipleForm(quantity, lot, m);
    }
    hide IsMultiple;
    assert IsMultiple(quantity, lot) ==> quantity == LotsOf(n, lot);
  }

  // ---------- gate group by gate group ----------

  ghost function Pick(s: Store, p: Policy, c: Call, r: Reason, rest: Option<Reason>): Option<Reason> {
    if Present(s, p, c, r) then Some(r) else rest
  }

  lemma ForexRuleExactly(s: Store, p: Policy, c: Call)
    requires Inv(s, p) && IsForex(s, c.accountId) && c.quantity > 0.0
    ensures ForexRule(s, c) ==
            Pick(s, p, c, StopLossRequired, Pick(s, p, c, StopLossWrongSide,
              Pick(s, p, c, UnsupportedPair, Pick(s, p, c, InsufficientMargin, None))))
  {
    hide Inv, OpenPosition, Holding, Growth, NewExposure;
    HoldingOfRow(s, p, c);
    GrowthOfRow(OpenPosition(s.positions, c.accountId, c.symbol), Holding(s, c), c.action, c.quantity);
  }

  lemma NoForexReason(s: Store, p: Policy, c: Call, r: Reason)
    requires !IsForex(s, c.accountId)
    requires r == StopLossRequired || r == StopLossWrongSide || r == UnsupportedPair || r == InsufficientMargin
    ensures !Present(s, p, c, r)
  {
    hide Holding, Growth;
  }

  lemma CashRuleExactly(s: Store, p: Policy, c: Call)
    requires c.accountId in s.accounts
    ensures CashRule(s, p, c) == Pick(s, p, c, InsufficientCash, None)
  {
  }

  lemma SellRuleExactly(s: Store, p: Policy, c: Call)
    requires Inv(s, p) && c.accountId in s.accounts && c.quantity > 0.0
    ensures SellRule(s, c) == Pick(s, p, c, InsufficientPosition, None)
  {
    hide Inv, OpenPosition, Holding;
    HoldingOfRow(s, p, c);
    if !IsForex(s, c.accountId) {
      OpenRowIsLong(s, p, c.accountId, c.symbol);
    }
  }

  lemma LimitRuleExactly(s: Store, p: Policy, c: Call)
    requires Inv(s, p)
    ensures LimitRule(s, p, c) ==
            Pick(s, p, c, RiskLimitExceeded, Pick(s, p, c, KillSwitchEngaged, Pick(s, p, c, MarketHalted,
              Pick(s, p, c, SymbolHalted, Pick(s, p, c, DailyLossExceeded, Pick(s, p, c, MaxPositionExceeded, None))))))
  {
    hide Inv, OpenPosition, Holding, RealizedTotal, Upper, InCapitals;
    HoldingOfRow(s, p, c);
    HaltedInCapitals(p, c.symbol);
  }

  lemma SessionRuleExactly(s: Store, p: Policy, c: Call)
    ensures SessionRule(c.venue) ==
            Pick(s, p, c, UsSessionClosed, Pick(s, p, c, CryptoMarketClosed,
                Pick(s, p, c, CryptoExchangeUnavailable, None)))
  {
  }

  // ---------- the refusal ----------

  /** The reasons that are read straight off the call. */
  lemma PlainReasons(s: Store, p: Policy, c: Call)
    ensures Present(s, p, c, AccountNotFound) == (c.accountId !in s.accounts)
    ensures Present(s, p, c, EvidenceMissing) == !c.evidence && Present(s, p, c, ApprovalMissing) == !c.approved
    ensures Present(s, p, c, BadSymbol) == IsBlank(c.symbol)
    ensures Present(s, p, c, BadQuantity) == (c.quantity <= 0.0) && Present(s, p, c, BadPrice) == (c.price <= 0.0)
    ensures Present(s, p, c, BadPriceTick) == (c.venue.market.Crypto? && !c.venue.cryptoOnTick)
    ensures Present(s, p, c, BelowMinimumNotional) == (c.venue.market.Crypto? && !c.venue.cryptoNotionalMet)
    ensures Present(s, p, c, DuplicateRequest) == (IsBlank(c.key) || c.key in s.keys)
    ensures QuantityRule(p, c.venue, c.quantity) == Pick(s, p, c, BadLotSize, Pick(s, p, c, LotSizeIsZero, None))
  {
    hide IsBlank, Empty, BadLots, QuantityRule;
    EmptyIsBlank(c.symbol);
    EmptyIsBlank(c.key);
    LotsExactly(p, c.venue, c.quantity);
    LotReasons(s, p, c);
  }

  lemma LotReasons(s: Store, p: Policy, c: Call)
    ensures Present(s, p, c, BadLotSize) == BadLots(p, c.venue, c.quantity)
    ensures Present(s, p, c, LotSizeIsZero) == (UsesLots(c.venue) && p.lotSize == 0)
    ensures UsesLots(c.venue) && p.lotSize == 0 ==> !BadLots(p, c.venue, c.quantity)
  {
  }

  lemma ForexReasons(s: Store, p: Policy, c: Call)
    requires Inv(s, p) && c.quantity > 0.0
    ensures (if IsForex(s, c.accountId) then ForexRule(s, c) else None) ==
            Pick(s, p, c, StopLossRequired, Pick(s, p, c, StopLossWrongSide,
              Pick(s, p, c, UnsupportedPair, Pick(s, p, c, InsufficientMargin, None))))
  {
    hide Inv, Present, ForexRule, IsForex;
    if IsForex(s, c.accountId) {
      ForexRuleExactly(s, p, c);
    } else {
      NoForexReason(s, p, c, StopLossRequired);
      NoForexReason(s, p, c, StopLossWrongSide);
      NoForexReason(s, p, c, UnsupportedPair);
      NoForexReason(s, p, c, InsufficientMargin);
    }
  }

  /** Every gate group, in the terms of its reasons' own conditions. */
  lemma GroupsExactly(s: Store, p: Policy, c: Call)
    requires Inv(s, p) && c.accountId in s.accounts && c.quantity > 0.0
    ensures (if IsForex(s, c.accountId) then ForexRule(s, c) else None) ==
            Pick(s, p, c, StopLossRequired, Pick(s, p, c, StopLossWrongSide,
              Pick(s, p, c, UnsupportedPair, Pick(s, p, c, InsufficientMargin, None))))
    ensures CashRule(s, p, c) == Pick(s, p, c, InsufficientCash, None)
    ensures SellRule(s, c) == Pick(s, p, c, InsufficientPosition, None)
    ensures OrElse(LimitRule(s, p, c), SessionRule(c.venue)) ==
            Pick(s, p, c, RiskLimitExceeded, Pick(s, p, c, KillSwitchEngaged, Pick(s, p, c, MarketHalted,
              Pick(s, p, c, SymbolHalted, Pick(s, p, c, DailyLossExceeded, Pick(s, p, c, MaxPositionExceeded,
                Pick(s, p, c, UsSessionClosed, Pick(s, p, c, CryptoMarketClosed,
                  Pick(s, p, c, CryptoExchangeUnavailable, None)))))))))
  {
    hide Inv, Present, IsForex, ForexRule, CashRule, SellRule, LimitRule, SessionRule;
    ForexReasons(s, p, c);
    CashRuleExactly(s, p, c);
    SellRuleExactly(s, p, c);
    LimitRuleExactly(s, p, c);
    SessionRuleExactly(s, p, c);
  }

  /** A refusal names a condition that is present, and no earlier one is. */
  lemma RefusalIsFirst(s: Store, p: Policy, c: Call, q: Reason)
    requires Inv(s, p)
    ensures var r := Refusal(s, p, c);
            && (r.Some? ==> Present(s, p, c, r.value))
            && ((r.Some? ==> Rank(q) < Rank(r.value)) ==> !Present(s, p, c, q))
  {
    hide Inv, Present, IsBlank, IsForex, QuantityRule, ForexRule, CashRule, SellRule, LimitRule, SessionRule;
    PlainReasons(s, p, c);
    if c.accountId in s.accounts && c.quantity > 0.0 {
      GroupsExactly(s, p, c);
    }
  }

  lemma SameRank(s: Store, p: Policy, c: Call, q: Reason, r: Reason)
    requires Rank(q) == Rank(r) && Present(s, p, c, q) && Present(s, p, c, r)
    ensures q == r
  {
    hide Present, BadLots;
    LotReasons(s, p, c);
  }

  /** A call is refused for a reason exactly when its condition is present and no earlier one is. */
  lemma RefusedForFirstPresent(s: Store, p: Policy, c: Call, r: Reason)
    requires Inv(s, p)
    ensures Refusal(s, p, c) == Some(r) <==>
            Present(s, p, c, r) && forall q: Reason | Rank(q) < Rank(r) :: !Present(s, p, c, q)
  {
    hide *;
    var first := Refusal(s, p, c);
    forall q: Reason ensures (first.Some? ==> Present(s, p, c, first.value)) &&
                             ((first.Some? ==> Rank(q) < Rank(first.value)) ==> !Present(s, p, c, q)) {
      RefusalIsFirst(s, p, c, q);
    }
    if first.Some? && Present(s, p, c, r) && Rank(r) == Rank(first.value) {
      SameRank(s, p, c, r, first.value);
    }
  }

  /** So it is accepted exactly when no condition is present. */
  lemma AcceptedIffNonePresent(s: Store, p: Policy, c: Call)
    requires Inv(s, p)
    ensures Refusal(s, p, c).None? <==> forall q: Reason :: !Present(s, p, c, q)
  {
    hide *;
    forall q: Reason ensures Refusal(s, p, c).None? ==> !Present(s, p, c, q) {
      RefusalIsFirst(s, p, c, q);
    }
    RefusalIsFirst(s, p, c, AccountNotFound);
  }

  lemma SaleRefusedCash(s: Store, p: Policy, c: Call)
    requires Refusal(s, p, c).None? && c.action == Sell && c.accountId in s.accounts
    ensures Verdict(s, p, c) == CashRefused <==> BalanceAfter(s, p, c).None?
    ensures BalanceAfter(s, p, c).None? <==>
            SaleCost(p, c.venue) > s.accounts[c.accountId].cash + c.quantity * c.price
    ensures FILLED_ROW <= Limit(s, p, c) && (BalanceAfter(s, p, c).None? ==> Limit(s, p, c) == FILLED_ROW)
  {
    hide Refusal, RowsAfter, RowIndex, LevelRows;
    PassedGates(s, p, c);
  }

  /** A gated SELL whose market's costs exceed cash and proceeds together is stranded: its order ends filled
      and its trade recorded, with cash, positions and keys as they were. No other gated SELL is refused its
      cash update. */
  lemma SaleStrandedExactly(s: Store, p: Policy, c: Call, writes: nat)
    requires Refusal(s, p, c).None? && c.action == Sell && writes >= FILLED_ROW
    ensures c.accountId in s.accounts
    ensures var after := After(s, p, c, writes);
            var stranded := SaleCost(p, c.venue) > s.accounts[c.accountId].cash + c.quantity * c.price;
            && (Verdict(s, p, c) == CashRefused <==> stranded)
            && |after.orders| == |s.orders| + 1 && after.orders[|s.orders|].status == Filled
            && |after.trades| == |s.trades| + 1
            && (stranded ==> after.accounts == s.accounts && after.positions == s.positions && after.keys == s.keys)
  {
    hide Refusal, BalanceAfter, RowsAfter, RowIndex, LevelRows, SaleCost, Limit, Verdict;
    PassedGates(s, p, c);
    SaleRefusedCash(s, p, c);
  }
}
