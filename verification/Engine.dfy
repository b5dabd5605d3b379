/** The order submission itself, step by step over mutable tables, proved to leave exactly the
    store and outcome that `Submission` describes, whichever write fails. */
module Engine {
  import opened Options
  import opened Ledger
  import opened Gates
  import opened Submission

  class PaperTradingEngine {
    const policy: Policy
    var accounts: map<string, Account>
    var orders: seq<Order>
    var trades: seq<Trade>
    var positions: seq<Position>
    var keys: map<string, KeyRow>
    /** How many further writes the database commits before one raises. */
    var writesLeft: nat
    ghost const opening: map<string, real>
    ghost var cashLog: seq<Trade>
    ghost var positionLog: seq<Trade>

    constructor (policy: Policy, accounts: map<string, Account>, writesLeft: nat)
      ensures View() == Fresh(accounts) && this.policy == policy && this.writesLeft == writesLeft
    {
      this.policy, this.accounts, this.writesLeft := policy, accounts, writesLeft;
      orders, trades, positions, keys := [], [], [], map[];
      opening := map a | a in accounts :: accounts[a].cash;
      cashLog, positionLog := [], [];
    }

    ghost function View(): Store
      reads this
    {
      Store(accounts, orders, trades, positions, keys, opening, cashLog, positionLog)
    }

    /** The five tables, which are all that a running call can read. */
    function Tables(): Store
      reads this
    {
      Store(accounts, orders, trades, positions, keys, map[], [], [])
    }

    /** Spends one write; false is the repository error. */
    method Write() returns (ok: bool)
      modifies this`writesLeft
      ensures ok <==> old(writesLeft) > 0
      ensures writesLeft == if ok then old(writesLeft) - 1 else 0
    {
      ok := writesLeft > 0;
      if ok {
        writesLeft := writesLeft - 1;
      }
    }

    /** Moves an order along a legal transition; anything else is a validation error. */
    method TransitionStatus(id: nat, status: Status, note: Note) returns (ok: bool)
      modifies this`orders, this`writesLeft
      ensures ok <==>
              && id < |old(orders)| && old(writesLeft) > 0
              && (old(orders[id].status), status) in {(New, Validated), (New, Rejected), (Validated, Pending)}
      ensures orders == if ok then old(orders)[id := WithStatus(old(orders[id]), status, note)] else old(orders)
      ensures writesLeft == if ok then old(writesLeft) - 1 else old(writesLeft)
    {
      if id >= |orders| || !Allowed(orders[id].status, status) {
        return false;
      }
      ok := Write();
      if ok {
        orders := orders[id := WithStatus(orders[id], status, note)];
      }
    }

    /** Inserts the order and drives it to PENDING or REJECTED; None when a write raised on the way. */
    method CreateOrder(c: Call) returns (id: Option<nat>)
      modifies this`orders, this`writesLeft
      ensures var steps := if CallNote(c).Some? then REJECTED_ROW else QUEUED;
              var made := Min(old(writesLeft), steps);
              && id == (if old(writesLeft) >= steps then Some(|old(orders)|) else None)
              && writesLeft == old(writesLeft) - made
              && orders == (if made == 0 then old(orders) else old(orders) + [OrderAt(old(View()), policy, c, made)])
    {
      var ok := Write();
      if !ok {
        return None;
      }
      var row := |orders|;
      orders := orders + [NewOrder(c)];
      var note := StructuralNote(c.symbol, c.action, c.quantity, c.price);
      if note.Some? {
        ok := TransitionStatus(row, Rejected, note.value);
        return if ok then Some(row) else None;
      }
      ok := TransitionStatus(row, Validated, PassedValidation);
      if !ok {
        return None;
      }
      ok := TransitionStatus(row, Pending, Queued);
      return if ok then Some(row) else None;
    }

    /** Records the trade of a PENDING order, then copies its fill onto the order. */
    method ExecuteOrder(id: nat, venue: Venue, executedAt: int) returns (trade: Option<Trade>)
      modifies this`orders, this`trades, this`writesLeft
      ensures id >= |old(orders)| || old(orders[id].status) != Pending ==>
                trade == None && unchanged(this)
      ensures id < |old(orders)| && old(orders[id].status) == Pending ==>
                var t := FillOf(old(orders[id]), |old(trades)|, id, venue, executedAt);
                && trade == (if old(writesLeft) >= 2 then Some(t) else None)
                && trades == (if old(writesLeft) >= 1 then old(trades) + [t] else old(trades))
                && orders == (if old(writesLeft) >= 2 then old(orders)[id := WithFill(old(orders[id]), t)]
                    else old(orders))
                && writesLeft == old(writesLeft) - Min(old(writesLeft), 2)
    {
      if id >= |orders| || orders[id].status != Pending {
        return None;
      }
      var t := FillOf(orders[id], |trades|, id, venue, executedAt);
      var ok := Write();
      if !ok {
        return None;
      }
      trades := trades + [t];
      ok := Write();
      if !ok {
        return None;
      }
      orders := orders[id := WithFill(orders[id], t)];
      return Some(t);
    }

    function FillOf(o: Order, tradeId: nat, orderId: nat, venue: Venue, executedAt: int): Trade {
      var (fee, tax) := FeeTax(policy, venue, o.action);
      Trade(tradeId, orderId, o.accountId, o.symbol, o.action, o.quantity, o.requestedPrice, fee, tax, executedAt)
    }

    /** Applies a trade to its account's cash; refuses rather than let cash go negative. */
    method ApplyCash(t: Trade) returns (r: Outcome)
      modifies this`accounts, this`writesLeft, this`cashLog
      ensures t.accountId !in old(accounts) || CashAfter(old(accounts[t.accountId].cash), t).None? ==>
                r == CashRefused && unchanged(this)
      ensures t.accountId in old(accounts) && CashAfter(old(accounts[t.accountId].cash), t).Some? ==>
                var cash := CashAfter(old(accounts[t.accountId].cash), t).value;
                if old(writesLeft) == 0 then r == WriteFailed && unchanged(this)
                else
                  && r == Done(t) && writesLeft == old(writesLeft) - 1
                  && accounts == old(accounts)[t.accountId := old(accounts[t.accountId]).(cash := cash)]
                  && cashLog == old(cashLog) + [t]
    {
      if t.accountId !in accounts {
        return CashRefused;
      }
      var cash := CashAfter(accounts[t.accountId].cash, t);
      if cash.None? {
        return CashRefused;
      }
      var ok := Write();
      if !ok {
        return WriteFailed;
      }
      accounts := accounts[t.accountId := accounts[t.accountId].(cash := cash.value)];
      cashLog := cashLog + [t];
      return Done(t);
    }

    /** Applies a trade to its account's open position of the symbol. */
    method ApplyPosition(t: Trade) returns (r: Outcome)
      modifies this`positions, this`writesLeft, this`positionLog
      ensures PositionsAfter(old(positions), t, MayShort(old(View()), policy, t.accountId)).None? ==>
                r == PositionRefused && unchanged(this)
      ensures PositionsAfter(old(positions), t, MayShort(old(View()), policy, t.accountId)).Some? ==>
                if old(writesLeft) == 0 then r == WriteFailed && unchanged(this)
                else
                  && r == Done(t) && writesLeft == old(writesLeft) - 1
                  && positions == PositionsAfter(old(positions), t, MayShort(old(View()), policy, t.accountId)).value
                  && positionLog == old(positionLog) + [t]
    {
      if t.action.OtherAction? {
        return PositionRefused;
      }
      var open := OpenIndex(positions, t.accountId, t.symbol);
      if open.None? {
        if t.action.Sell? && !MayShort(Tables(), policy, t.accountId) {
          return PositionRefused;
        }
        var inserted := Write();
        if !inserted {
          return WriteFailed;
        }
        positions := positions + [Opened(t)];
      } else {
        var p := positions[open.value];
        var next := if p.direction == SideOf(t.action) then Merged(p, t) else Reduced(p, t);
        if next.None? {
          return PositionRefused;
        }
        var updated := Write();
        if !updated {
          return WriteFailed;
        }
        positions := positions[open.value := next.value];
      }
      positionLog := positionLog + [t];
      return Done(t);
    }

    /** Sets both levels of a position once a long one has its stop below and its take-profit above its
        average price, and a short one the reverse. */
    method SetLevels(id: nat, stop: Option<real>, take: Option<real>) returns (ok: bool)
      modifies this`positions, this`writesLeft
      ensures ok <==>
              && id < |old(positions)| && old(writesLeft) > 0
              && var row := old(positions[id]);
                 && (stop.Some? ==> if row.direction == Long then stop.value < row.averagePrice
                                    else stop.value > row.averagePrice)
                 && (take.Some? ==> if row.direction == Long then take.value > row.averagePrice
                                    else take.value < row.averagePrice)
      ensures ok ==> View() == EditedLevels(old(View()), id, stop, take)
      ensures ok ==> positions == old(positions)[id := old(positions[id]).(stopLoss := stop, takeProfit := take)]
      ensures writesLeft == if ok then old(writesLeft) - 1 else old(writesLeft)
      ensures !ok ==> unchanged(this)
    {
      if id >= |positions| || !LevelsValid(positions[id], stop, take) {
        return false;
      }
      ok := Write();
      if ok {
        positions := positions[id := positions[id].(stopLoss := stop, takeProfit := take)];
      }
    }

    /** Everything after the fill: cash, position, the optional levels, the idempotency key. `s` is
        the store the call started from. */
    method Settle(ghost s: Store, c: Call, t: Trade) returns (r: Outcome)
      requires Limit(s, policy, c) >= FILLED_ROW
      requires View() == Partial(s, policy, c, FILLED_ROW) && t == TradeOf(s, policy, c)
      modifies this
      ensures View() == After(s, policy, c, FILLED_ROW + old(writesLeft))
      ensures r == Result(s, policy, c, FILLED_ROW + old(writesLeft))
    {
      hide Refusal, FeeTax, CallNote, LevelRows, PositionsAfter, CashAfter;
      PassedGates(s, policy, c);
      r := ApplyCash(t);
      if !r.Done? {
        return;
      }
      assert View() == Partial(s, policy, c, CASHED);
      r := Book(s, c, t);
    }

    /** Everything after the cash update. */
    method Book(ghost s: Store, c: Call, t: Trade) returns (r: Outcome)
      requires Limit(s, policy, c) >= CASHED
      requires View() == Partial(s, policy, c, CASHED) && t == TradeOf(s, policy, c)
      modifies this
      ensures View() == After(s, policy, c, CASHED + old(writesLeft))
      ensures r == Result(s, policy, c, CASHED + old(writesLeft))
    {
      hide Refusal, FeeTax, CallNote, LevelRows, PositionsAfter, CashAfter;
      PassedGates(s, policy, c);
      var row := TouchedIndex(positions, t);
      r := ApplyPosition(t);
      if !r.Done? {
        return;
      }
      RowIndexInRange(s, policy, c);
      assert View() == Partial(s, policy, c, POSITIONED);
      r := Finish(s, c, t, row);
    }

    method Finish(ghost s: Store, c: Call, t: Trade, row: nat) returns (r: Outcome)
      requires Limit(s, policy, c) >= POSITIONED
      requires View() == Partial(s, policy, c, POSITIONED) && t == TradeOf(s, policy, c)
      requires row == RowIndex(s, policy, c)
      modifies this
      ensures View() == After(s, policy, c, POSITIONED + old(writesLeft))
      ensures r == Result(s, policy, c, POSITIONED + old(writesLeft))
    {
      hide Refusal;
      RowIndexInRange(s, policy, c);
      if c.stopLoss.Some? {
        if !LevelsValid(positions[row], c.stopLoss, positions[row].takeProfit) {
          return LevelsRefused;
        }
        var ok := SetLevels(row, c.stopLoss, positions[row].takeProfit);
        if !ok {
          return WriteFailed;
        }
        assert View() == Partial(s, policy, c, POSITIONED + 1);
      }
      var recorded := Write();
      if !recorded {
        return WriteFailed;
      }
      keys := keys[c.key := KeyRow(c.accountId, t.orderId, t.tradeId)];
      assert View() == Partial(s, policy, c, FullLength(c));
      return Done(t);
    }

    /** A pending order is executed and settled. */
    method Execute(ghost s: Store, c: Call, id: nat) returns (r: Outcome)
      requires Limit(s, policy, c) >= FILLED_ROW
      requires View() == Partial(s, policy, c, QUEUED) && id == |s.orders|
      modifies this
      ensures View() == After(s, policy, c, QUEUED + old(writesLeft))
      ensures r == Result(s, policy, c, QUEUED + old(writesLeft))
    {
      hide Refusal;
      var trade := ExecuteOrder(id, c.venue, c.executedAt);
      if trade.None? {
        return WriteFailed;
      }
      assert trade.value == TradeOf(s, policy, c);
      assert View() == Partial(s, policy, c, FILLED_ROW);
      r := Settle(s, c, trade.value);
    }

    /** An order that passed the gates is created and, if it is left PENDING, executed. */
    method Place(c: Call) returns (r: Outcome)
      requires Refusal(View(), policy, c).None?
      modifies this
      ensures View() == After(old(View()), policy, c, old(writesLeft))
      ensures r == Result(old(View()), policy, c, old(writesLeft))
    {
      hide Refusal;
      ghost var s := View();
      var id := CreateOrder(c);
      if id.None? {
        return WriteFailed;
      }
      if orders[id.value].status != Pending {
        return NotPending;
      }
      r := Execute(s, c, id.value);
    }

    /** The whole submission. */
    method SubmitOrder(c: Call) returns (r: Outcome)
      modifies this
      ensures View() == After(old(View()), policy, c, old(writesLeft))
      ensures r == Result(old(View()), policy, c, old(writesLeft))
    {
      var refusal := Refusal(Tables(), policy, c);
      GatesIgnoreHistory(View(), policy, c);
      if refusal.Some? {
        return Refused(refusal.value);
      }
      r := Place(c);
    }
  }

  /** `_ALLOWED_TRANSITIONS`. */
  predicate Allowed(from: Status, to: Status) {
    match from
    case New => to == Validated || to == Rejected
    case Validated => to == Pending
    case _ => false
  }

  /** The gates read the five tables and nothing else. */
  lemma GatesIgnoreHistory(s: Store, p: Policy, c: Call)
    ensures Refusal(Store(s.accounts, s.orders, s.trades, s.positions, s.keys, map[], [], []), p, c) == Refusal(s, p, c)
  {
    hide OpenIndex, RealizedTotal, IsBlank, Upper, IsMultiple;
  }
}
