/** The read-only pre-trade gates of one order submission, first failing gate wins. */
module Gates {
  import opened Options
  import opened Ledger

  datatype Market = Idx | Us | Crypto | Forex | OtherMarket(name: string)

  /** Construct-once settings of the engine. `managerSeesAccounts` says whether the position
      manager was given the account table, without which it can never open a short. */
  datatype Policy = Policy(
    lotSize: int, buyFee: real, sellFee: real, sellTax: real,
    killSwitch: bool, maxOrderValue: real, haltedMarkets: set<Market>, haltedSymbols: set<string>,
    maxDailyLoss: Option<real>, maxPositionValue: Option<real>, managerSeesAccounts: bool)

  /** The active market and the answers of the market-specific policies for this order. */
  datatype Venue = Venue(
    market: Market,
    usQuantityAllowed: bool, usSessionOpen: bool, usCommission: real, usRegulatoryFee: real,
    cryptoQuantityValid: bool, cryptoOnTick: bool, cryptoNotionalMet: bool,
    cryptoMarketOpen: bool, cryptoExchangeUp: bool, cryptoTakerFee: real,
    pairSupported: bool)

  datatype Call = Call(
    accountId: string, symbol: string, action: Action, quantity: real, price: real, executedAt: int,
    evidence: bool, snapshotId: Option<int>, approved: bool, key: string, stopLoss: Option<real>, venue: Venue)

  datatype Reason =
    | AccountNotFound
    | EvidenceMissing
    | ApprovalMissing
    | BadSymbol
    | BadQuantity
    | BadLotSize
    | LotSizeIsZero
    | BadPrice
    | BadPriceTick
    | BelowMinimumNotional
    | StopLossRequired
    | StopLossWrongSide
    | UnsupportedPair
    | InsufficientMargin
    | InsufficientCash
    | InsufficientPosition
    | DuplicateRequest
    | RiskLimitExceeded
    | KillSwitchEngaged
    | MarketHalted
    | SymbolHalted
    | DailyLossExceeded
    | MaxPositionExceeded
    | UsSessionClosed
    | CryptoMarketClosed
    | CryptoExchangeUnavailable

  predicate IsSpace(c: char) {
    '\U{0009}' <= c <= '\U{000D}' || '\U{001C}' <= c <= '\U{0020}' || c == '\U{0085}' || c == '\U{00A0}' ||
    c == '\U{1680}' || '\U{2000}' <= c <= '\U{200A}' || c == '\U{2028}' || c == '\U{2029}' ||
    c == '\U{202F}' || c == '\U{205F}' || c == '\U{3000}'
  }

  /** True when stripping white space leaves nothing. */
  predicate IsBlank(s: string) {
    forall i | 0 <= i < |s| :: IsSpace(s[i])
  }

  function UpperChar(c: char): char {
    if 'a' <= c <= 'z' then c - 'a' + 'A' else c
  }

  function Upper(s: string): string {
    seq(|s|, i requires 0 <= i < |s| => UpperChar(s[i]))
  }

  predicate IsWhole(x: real) {
    x == x.Floor as real
  }

  predicate IsMultiple(quantity: real, lot: int)
    requires lot != 0
  {
    IsWhole(quantity / (lot as real))
  }

  function FeeTax(p: Policy, v: Venue, action: Action): (real, real) {
    match v.market
    case Us => (v.usCommission, if action.Buy? then 0.0 else v.usRegulatoryFee)
    case Crypto => (v.cryptoTakerFee, 0.0)
    case _ => if action.Buy? then (p.buyFee, 0.0) else (p.sellFee, p.sellTax)
  }

  /** Markets that trade in the policy's lots. */
  predicate UsesLots(v: Venue) {
    v.market.Idx? || v.market.OtherMarket?
  }

  predicate IsForex(s: Store, account: string) {
    account in s.accounts && s.accounts[account].assetClass.ForexAsset?
  }

  /** Whether the position manager lets this account open a short. */
  predicate MayShort(s: Store, p: Policy, account: string) {
    p.managerSeesAccounts && IsForex(s, account)
  }

  /** Quantity of new exposure a Forex order takes on, the part that needs margin. */
  function NewExposure(open: Option<Position>, action: Action, quantity: real): real {
    if open.None? || SideOf(action) == open.value.direction then quantity
    else Max(0.0, quantity - open.value.quantity)
  }

  function OrderValue(quantity: real, price: real): real {
    quantity * price
  }

  /** Margin at 1:1 leverage. */
  function RequiredMargin(price: real, exposure: real): real {
    price * exposure
  }

  // ---------- gate groups, in order ----------

  function QuantityRule(p: Policy, v: Venue, quantity: real): Option<Reason> {
    match v.market
    case Us => if v.usQuantityAllowed then None else Some(BadLotSize)
    case Crypto => if v.cryptoQuantityValid then None else Some(BadLotSize)
    case Forex => if IsWhole(quantity) then None else Some(BadLotSize)
    case _ =>
      if p.lotSize == 0 then Some(LotSizeIsZero)
      else if IsMultiple(quantity, p.lotSize) then None
      else Some(BadLotSize)
  }

  function ForexRule(s: Store, c: Call): Option<Reason>
    requires c.accountId in s.accounts
  {
    var open := OpenPosition(s.positions, c.accountId, c.symbol);
    var direction := if open.Some? then open.value.direction else SideOf(c.action);
    var exposure := NewExposure(open, c.action, c.quantity);
    if c.stopLoss.None? then Some(StopLossRequired)
    else if !StopSideValid(direction, c.price, c.stopLoss.value) then Some(StopLossWrongSide)
    else if exposure > 0.0 && !c.venue.pairSupported then Some(UnsupportedPair)
    else if exposure > 0.0 && s.accounts[c.accountId].cash < RequiredMargin(c.price, exposure)
        then Some(InsufficientMargin)
    else None
  }

  function CashRule(s: Store, p: Policy, c: Call): Option<Reason>
    requires c.accountId in s.accounts
  {
    var (fee, tax) := FeeTax(p, c.venue, c.action);
    if c.action.Buy? && !IsForex(s, c.accountId) &&
       s.accounts[c.accountId].cash < BuyRequiredCash(OrderValue(c.quantity, c.price), fee, tax)
    then Some(InsufficientCash) else None
  }

  function SellRule(s: Store, c: Call): Option<Reason> {
    var open := OpenPosition(s.positions, c.accountId, c.symbol);
    if !c.action.Sell? then None
    else if IsForex(s, c.accountId) && (open.None? || open.value.direction.Short?) then None
    else
      var available := if open.Some? then open.value.quantity else 0.0;
      if available < c.quantity then Some(InsufficientPosition) else None
  }

  function LimitRule(s: Store, p: Policy, c: Call): Option<Reason> {
    var open := OpenPosition(s.positions, c.accountId, c.symbol);
    var held := if open.Some? then open.value.quantity else 0.0;
    var realized := RealizedTotal(s.positions, c.accountId);
    if OrderValue(c.quantity, c.price) > p.maxOrderValue then Some(RiskLimitExceeded)
    else if p.killSwitch then Some(KillSwitchEngaged)
    else if c.venue.market in p.haltedMarkets then Some(MarketHalted)
    else if Upper(c.symbol) in p.haltedSymbols then Some(SymbolHalted)
    else if c.action.Buy? && p.maxDailyLoss.Some? && realized < 0.0 && -realized >= p.maxDailyLoss.value
    then Some(DailyLossExceeded)
    else if c.action.Buy? && p.maxPositionValue.Some? &&
        OrderValue(held + c.quantity, c.price) > p.maxPositionValue.value
    then Some(MaxPositionExceeded)
    else None
  }

  function SessionRule(v: Venue): Option<Reason> {
    if v.market.Us? && !v.usSessionOpen then Some(UsSessionClosed)
    else if v.market.Crypto? && !v.cryptoMarketOpen then Some(CryptoMarketClosed)
    else if v.market.Crypto? && !v.cryptoExchangeUp then Some(CryptoExchangeUnavailable)
    else None
  }

  function OrElse(first: Option<Reason>, second: Option<Reason>): Option<Reason> {
    if first.Some? then first else second
  }

  /** The first failing gate, or None when the order may be created. */
  function Refusal(s: Store, p: Policy, c: Call): Option<Reason> {
    if c.accountId !in s.accounts then Some(AccountNotFound)
    else if !c.evidence then Some(EvidenceMissing)
    else if !c.approved then Some(ApprovalMissing)
    else if IsBlank(c.symbol) then Some(BadSymbol)
    else if c.quantity <= 0.0 then Some(BadQuantity)
    else if QuantityRule(p, c.venue, c.quantity).Some? then QuantityRule(p, c.venue, c.quantity)
    else if c.price <= 0.0 then Some(BadPrice)
    else if c.venue.market.Crypto? && !c.venue.cryptoOnTick then Some(BadPriceTick)
    else if c.venue.market.Crypto? && !c.venue.cryptoNotionalMet then Some(BelowMinimumNotional)
    else if IsForex(s, c.accountId) && ForexRule(s, c).Some? then ForexRule(s, c)
    else if CashRule(s, p, c).Some? then CashRule(s, p, c)
    else if SellRule(s, c).Some? then SellRule(s, c)
    else if IsBlank(c.key) || c.key in s.keys then Some(DuplicateRequest)
    else OrElse(LimitRule(s, p, c), SessionRule(c.venue))
  }
}
