/** What one `submit_order` call does to the store, write by write. Each write is committed on its
    own, so a call that stops early leaves exactly its first writes behind. */
module Submission {
  import opened Options
  import opened Ledger
  import opened Gates

  /** The writes of one call, numbered by how many of them have been committed. */
  const INSERTED: nat := 1
  const REJECTED_ROW: nat := 2
  const QUEUED: nat := 3
  const TRADED: nat := 4
  const FILLED_ROW: nat := 5
  const CASHED: nat := 6
  const POSITIONED: nat := 7

  datatype Outcome =
    | Refused(reason: Reason)
    | NotPending
    | CashRefused
    | PositionRefused
    | LevelsRefused
    | WriteFailed
    | Done(trade: Trade)

  /** Structural validation inside order creation. */
  function StructuralNote(symbol: string, action: Action, quantity: real, price: real): Option<Note> {
    if IsBlank(symbol) then Some(InvalidSymbol)
    else if action.OtherAction? then Some(InvalidAction)
    else if quantity <= 0.0 then Some(InvalidQuantity)
    else if price <= 0.0 then Some(InvalidPrice)
    else None
  }

  function CallNote(c: Call): Option<Note> {
    StructuralNote(c.symbol, c.action, c.quantity, c.price)
  }

  function NewOrder(c: Call): Order {
    Order(c.accountId, c.symbol, c.action, c.quantity, c.price, 0.0, 0.0, None, New, Blank, c.snapshotId, [New])
  }

  function WithStatus(o: Order, status: Status, note: Note): Order {
    o.(status := status, note := note, history := o.history + [status])
  }

  function WithFill(o: Order, t: Trade): Order {
    WithStatus(o, Filled, FilledByExecution).(
      filledPrice := t.fillPrice, filledQuantity := t.quantity, filledAt := Some(t.executedAt))
  }

  function TradeOf(s: Store, p: Policy, c: Call): Trade {
    var (fee, tax) := FeeTax(p, c.venue, c.action);
    Trade(|s.trades|, |s.orders|, c.accountId, c.symbol, c.action, c.quantity, c.price, fee, tax, c.executedAt)
  }

  /** The order row after the first `k` writes of the call, `k >= 1`. */
  function OrderAt(s: Store, p: Policy, c: Call, k: nat): Order
    requires k >= INSERTED
  {
    var note := CallNote(c);
    if k == INSERTED then NewOrder(c)
    else if note.Some? then WithStatus(NewOrder(c), Rejected, note.value)
    else
      var validated := WithStatus(NewOrder(c), Validated, PassedValidation);
      if k < QUEUED then validated
      else if k < FILLED_ROW then WithStatus(validated, Pending, Queued)
      else WithFill(WithStatus(validated, Pending, Queued), TradeOf(s, p, c))
  }

  function BalanceAfter(s: Store, p: Policy, c: Call): Option<real>
    requires c.accountId in s.accounts
  {
    CashAfter(s.accounts[c.accountId].cash, TradeOf(s, p, c))
  }

  function RowsAfter(s: Store, p: Policy, c: Call): Option<seq<Position>> {
    PositionsAfter(s.positions, TradeOf(s, p, c), MayShort(s, p, c.accountId))
  }

  function RowIndex(s: Store, p: Policy, c: Call): nat {
    TouchedIndex(s.positions, TradeOf(s, p, c))
  }

  /** The optional stop-loss write keeps the row's take-profit; None when either is on the wrong side. */
  function LevelRows(rows: seq<Position>, i: nat, stop: Option<real>): Option<seq<Position>>
    requires i < |rows|
  {
    if LevelsValid(rows[i], stop, rows[i].takeProfit) then Some(rows[i := rows[i].(stopLoss := stop)]) else None
  }

  /** How many writes a complete call performs. */
  function FullLength(c: Call): nat {
    if c.stopLoss.Some? then POSITIONED + 2 else POSITIONED + 1
  }

  lemma RowIndexInRange(s: Store, p: Policy, c: Call)
    requires RowsAfter(s, p, c).Some?
    ensures RowIndex(s, p, c) < |RowsAfter(s, p, c).value|
  {
  }

  /** How many writes the call performs when none of them fails. */
  function Limit(s: Store, p: Policy, c: Call): nat {
    if Refusal(s, p, c).Some? then 0
    else if CallNote(c).Some? then REJECTED_ROW
    else if BalanceAfter(s, p, c).None? then FILLED_ROW
    else if RowsAfter(s, p, c).None? then CASHED
    else
      RowIndexInRange(s, p, c);
      if c.stopLoss.Some? && LevelRows(RowsAfter(s, p, c).value, RowIndex(s, p, c), c.stopLoss).None? then POSITIONED
      else FullLength(c)
  }

  /** The outcome of a call none of whose writes fails. */
  function Verdict(s: Store, p: Policy, c: Call): Outcome {
    var n := Limit(s, p, c);
    if Refusal(s, p, c).Some? then Refused(Refusal(s, p, c).value)
    else if n == REJECTED_ROW then NotPending
    else if n == FILLED_ROW then CashRefused
    else if n == CASHED then PositionRefused
    else if n == POSITIONED then LevelsRefused
    else Done(TradeOf(s, p, c))
  }

  /** The positions table after the first `k` writes. */
  function RowsAt(s: Store, p: Policy, c: Call, k: nat): seq<Position>
    requires k <= Limit(s, p, c)
  {
    if k < POSITIONED then s.positions
    else
      var rows := RowsAfter(s, p, c).value;
      if k == POSITIONED || c.stopLoss.None? then rows
      else
        RowIndexInRange(s, p, c);
        LevelRows(rows, RowIndex(s, p, c), c.stopLoss).value
  }

  /** The store after the first `k` writes of the call: which rows exist, and nothing else changed. */
  function Partial(s: Store, p: Policy, c: Call, k: nat): Store
    requires k <= Limit(s, p, c)
  {
    if k == 0 then s
    else
      var t := TradeOf(s, p, c);
      s.(orders := s.orders + [OrderAt(s, p, c, k)],
         trades := if k >= TRADED then s.trades + [t] else s.trades,
         accounts := if k >= CASHED
                     then s.accounts[c.accountId := s.accounts[c.accountId].(cash := BalanceAfter(s, p, c).value)]
                     else s.accounts,
         cashLog := if k >= CASHED then s.cashLog + [t] else s.cashLog,
         positions := RowsAt(s, p, c, k),
         positionLog := if k >= POSITIONED then s.positionLog + [t] else s.positionLog,
         keys := if k == FullLength(c) then s.keys[c.key := KeyRow(c.accountId, t.orderId, t.tradeId)] else s.keys)
  }

  /** The store and outcome of a call of which at most `writes` writes succeed. */
  function After(s: Store, p: Policy, c: Call, writes: nat): Store {
    Partial(s, p, c, Min(writes, Limit(s, p, c)))
  }

  function Result(s: Store, p: Policy, c: Call, writes: nat): Outcome {
    if writes < Limit(s, p, c) then WriteFailed else Verdict(s, p, c)
  }

  /** What an order that passed the gates is known to satisfy, so that only an unknown action can
      still be rejected. */
  lemma PassedGates(s: Store, p: Policy, c: Call)
    requires Refusal(s, p, c).None?
    ensures c.accountId in s.accounts && c.quantity > 0.0 && c.price > 0.0 && !IsBlank(c.symbol) && c.key !in s.keys
    ensures CallNote(c) == if c.action.OtherAction? then Some(InvalidAction) else None
  {
  }

  lemma PassedMoneyGates(s: Store, p: Policy, c: Call)
    requires Refusal(s, p, c).None?
    ensures c.accountId in s.accounts && CashRule(s, p, c).None? && SellRule(s, c).None?
  {
  }

  // ---------- runs ----------

  /** A call with the number of its writes that succeed, or an edit of a position's two levels. */
  datatype Event =
    | Submit(call: Call, writes: nat)
    | EditLevels(id: nat, stop: Option<real>, take: Option<real>)

  function EditedLevels(s: Store, id: nat, stop: Option<real>, take: Option<real>): Store {
    if id < |s.positions| && LevelsValid(s.positions[id], stop, take)
    then s.(positions := s.positions[id := s.positions[id].(stopLoss := stop, takeProfit := take)])
    else s
  }

  function Step(s: Store, p: Policy, e: Event): Store {
    match e
    case Submit(c, writes) => After(s, p, c, writes)
    case EditLevels(id, stop, take) => EditedLevels(s, id, stop, take)
  }

  function Run(s: Store, p: Policy, events: seq<Event>): Store {
    if |events| == 0 then s else Step(Run(s, p, events[..|events| - 1]), p, events[|events| - 1])
  }

  /** A store holding accounts only. */
  function Fresh(accounts: map<string, Account>): Store {
    Store(accounts, [], [], [], map[], map a | a in accounts :: accounts[a].cash, [], [])
  }

  /** The states of every run over the given accounts, cut off anywhere. */
  ghost predicate Reachable(s: Store, p: Policy, accounts: map<string, Account>) {
    exists events: seq<Event> :: s == Run(Fresh(accounts), p, events)
  }
}
