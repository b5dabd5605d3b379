/** Rows of the paper-trading store and the pure arithmetic each row change uses.
    Money and quantities are exact reals; row ids are positions in their table. */
module Ledger {
  import opened Options

  datatype Action = Buy | Sell | OtherAction(name: string)
  datatype AssetClass = StockId | StockUs | CryptoAsset | ForexAsset
  datatype Direction = Long | Short
  datatype Status = New | Validated | Pending | PartiallyFilled | Filled | Rejected | Cancelled | Expired
  datatype Note =
    | Blank
    | InvalidSymbol
    | InvalidAction
    | InvalidQuantity
    | InvalidPrice
    | PassedValidation
    | Queued
    | FilledByExecution

  datatype Account = Account(cash: real, equity: real, buyingPower: real, assetClass: AssetClass)

  /** `history` records every status the row has held, oldest first; the table keeps only the last one. */
  datatype Order = Order(
    accountId: string, symbol: string, action: Action, quantity: real, requestedPrice: real,
    filledPrice: real, filledQuantity: real, filledAt: Option<int>,
    status: Status, note: Note, snapshotId: Option<int>, history: seq<Status>)

  datatype Trade = Trade(
    tradeId: nat, orderId: nat, accountId: string, symbol: string, action: Action,
    quantity: real, fillPrice: real, fee: real, tax: real, executedAt: int)

  datatype Position = Position(
    accountId: string, symbol: string, direction: Direction, quantity: real, averagePrice: real,
    realizedPnl: real, open: bool, stopLoss: Option<real>, takeProfit: Option<real>, buyFees: real)

  datatype KeyRow = KeyRow(accountId: string, orderId: nat, tradeId: nat)

  /** The five tables, plus three history variables: each account's opening cash, and the trades
      whose cash effect and position effect have been written, in the order of the writes. */
  datatype Store = Store(
    accounts: map<string, Account>, orders: seq<Order>, trades: seq<Trade>,
    positions: seq<Position>, keys: map<string, KeyRow>,
    opening: map<string, real>, cashLog: seq<Trade>, positionLog: seq<Trade>)

  // ---------- cash ----------

  function Gross(t: Trade): real {
    t.quantity * t.fillPrice
  }

  /** Cash a BUY needs; gate 8 and the balance update both call it. */
  function BuyRequiredCash(gross: real, fee: real, tax: real): real {
    gross + fee + tax
  }

  /** The cash balance after `t`, or None when the update is refused. */
  function CashAfter(cash: real, t: Trade): Option<real> {
    match t.action
    case Buy =>
      var required := BuyRequiredCash(Gross(t), t.fee, t.tax);
      if required > cash then None else Some(cash - required)
    case Sell =>
      var after := cash + Gross(t) - t.fee - t.tax;
      if after < 0.0 then None else Some(after)
    case OtherAction(_) => None
  }

  // ---------- positions ----------

  /** The side a trade of this action opens from flat. */
  function SideOf(action: Action): Direction {
    if action.Buy? then Long else Short
  }

  predicate Holds(p: Position, account: string, symbol: string) {
    p.accountId == account && p.symbol == symbol
  }

  /** The id of the open position of an account and symbol. */
  function OpenIndex(positions: seq<Position>, account: string, symbol: string): (r: Option<nat>)
    ensures r.Some? ==>
              r.value < |positions| && positions[r.value].open && Holds(positions[r.value], account, symbol)
    ensures r.None? ==> forall i | 0 <= i < |positions| :: Holds(positions[i], account, symbol) ==> !positions[i].open
  {
    if |positions| == 0 then None
    else
      var n := |positions| - 1;
      var earlier := OpenIndex(positions[..n], account, symbol);
      if earlier.Some? then earlier
      else if positions[n].open && Holds(positions[n], account, symbol) then Some(n)
      else None
  }

  function OpenPosition(positions: seq<Position>, account: string, symbol: string): Option<Position> {
    var i := OpenIndex(positions, account, symbol);
    if i.Some? then Some(positions[i.value]) else None
  }

  function Opened(t: Trade): Position {
    Position(t.accountId, t.symbol, SideOf(t.action), t.quantity, t.fillPrice, 0.0, true, None, None, t.fee)
  }

  /** The quantity-weighted average of two lots. */
  function WeightedAverage(quantity: real, price: real, added: real, addedPrice: real): real
    requires quantity + added != 0.0
  {
    (quantity * price + added * addedPrice) / (quantity + added)
  }

  /** Profit of closing `quantity` at `fill`, signed by the direction of the holding. */
  function Gain(direction: Direction, fill: real, average: real, quantity: real): real {
    if direction.Long? then (fill - average) * quantity else (average - fill) * quantity
  }

  /** The part of the entry fees that stays with the quantity still held. */
  function FeesKept(fees: real, left: real, quantity: real): real
    requires quantity != 0.0
  {
    fees * (left / quantity)
  }

  /** A same-direction trade; None is the division by a zero total quantity. */
  function Merged(p: Position, t: Trade): Option<Position> {
    if p.quantity + t.quantity == 0.0 then None
    else
      Some(p.(quantity := p.quantity + t.quantity,
              averagePrice := WeightedAverage(p.quantity, p.averagePrice, t.quantity, t.fillPrice),
              open := true,
              buyFees := p.buyFees + t.fee))
  }

  /** An opposite-direction trade; None when it exceeds the holding, or divides by a zero holding. */
  function Reduced(p: Position, t: Trade): Option<Position> {
    if t.quantity > p.quantity || p.quantity == 0.0 then None
    else
      var left := p.quantity - t.quantity;
      Some(p.(quantity := left,
              realizedPnl := p.realizedPnl + Gain(p.direction, t.fillPrice, p.averagePrice, t.quantity) - t.fee - t.tax,
              open := left != 0.0,
              buyFees := FeesKept(p.buyFees, left, p.quantity)))
  }

  function Touched(p: Position, t: Trade): Option<Position> {
    if SideOf(t.action) == p.direction then Merged(p, t) else Reduced(p, t)
  }

  /** The positions table after `t`, or None when the position manager refuses the trade. */
  function PositionsAfter(positions: seq<Position>, t: Trade, mayShort: bool): Option<seq<Position>> {
    if t.action.OtherAction? then None
    else
      match OpenIndex(positions, t.accountId, t.symbol)
      case None => if t.action.Buy? || mayShort then Some(positions + [Opened(t)]) else None
      case Some(i) =>
        match Touched(positions[i], t)
        case None => None
        case Some(p) => Some(positions[i := p])
  }

  /** The id of the row `t` writes: the open one, or the next one to be inserted. */
  function TouchedIndex(positions: seq<Position>, t: Trade): nat {
    match OpenIndex(positions, t.accountId, t.symbol)
    case None => |positions|
    case Some(i) => i
  }

  predicate StopSideValid(direction: Direction, reference: real, stop: real) {
    if direction.Short? then stop > reference else stop < reference
  }

  predicate TakeSideValid(direction: Direction, reference: real, take: real) {
    if direction.Short? then take < reference else take > reference
  }

  predicate LevelsValid(p: Position, stop: Option<real>, take: Option<real>) {
    (stop.Some? ==> StopSideValid(p.direction, p.averagePrice, stop.value)) &&
    (take.Some? ==> TakeSideValid(p.direction, p.averagePrice, take.value))
  }

  /** Realized profit and loss over every position of an account, open and closed. */
  function RealizedTotal(positions: seq<Position>, account: string): real {
    if |positions| == 0 then 0.0
    else
      var n := |positions| - 1;
      RealizedTotal(positions[..n], account) +
      if positions[n].accountId == account then positions[n].realizedPnl else 0.0
  }
}
