/** The stop-loss and take-profit of a row against its average price, over every run. */
module LevelSafety {
  import opened Options
  import opened Ledger
  import opened Gates
  import opened Submission

  /** The row's own levels lie around its average price: stop, average, take-profit for a long row, and the
      other way round for a short one. */
  predicate Guarded(row: Position) {
    match row.direction
    case Long =>
      && (row.stopLoss.Some? ==> row.stopLoss.value < row.averagePrice)
      && (row.takeProfit.Some? ==> row.averagePrice < row.takeProfit.value)
    case Short =>
      && (row.takeProfit.Some? ==> row.takeProfit.value < row.averagePrice)
      && (row.stopLoss.Some? ==> row.averagePrice < row.stopLoss.value)
  }

  /** What an accepted pair of levels satisfies is what guards a row that has them. */
  lemma ValidLevelsGuard(row: Position, stop: Option<real>, take: Option<real>)
    ensures LevelsValid(row, stop, take) <==> Guarded(row.(stopLoss := stop, takeProfit := take))
  {
  }

  predicate AllGuarded(rows: seq<Position>) {
    forall i | 0 <= i < |rows| :: Guarded(rows[i])
  }

  /** A call averages into the open row without setting a stop on it, and the new average passes a level
      the row already has. */
  predicate AveragesPastLevel(s: Store, p: Policy, c: Call, k: nat) {
    var open := OpenPosition(s.positions, c.accountId, c.symbol);
    && k >= POSITIONED && (k == POSITIONED || c.stopLoss.None?)
    && open.Some? && open.value.direction == SideOf(c.action) && open.value.quantity + c.quantity != 0.0
    && var row := open.value;
       var average := WeightedAverage(row.quantity, row.averagePrice, c.quantity, c.price);
       !Guarded(row.(averagePrice := average))
  }

  lemma TouchedLevels(row: Position, t: Trade)
    requires Touched(row, t).Some?
    ensures var next := Touched(row, t).value;
            && next.stopLoss == row.stopLoss && next.takeProfit == row.takeProfit && next.direction == row.direction
            && next.averagePrice == if SideOf(t.action) == row.direction
                                    then WeightedAverage(row.quantity, row.averagePrice, t.quantity, t.fillPrice)
                                    else row.averagePrice
  {
  }

  lemma GuardedUpdate(rows: seq<Position>, i: nat, row: Position)
    requires AllGuarded(rows) && i < |rows|
    ensures AllGuarded(rows[i := row]) <==> Guarded(row)
  {
    assert rows[i := row][i] == row;
  }

  lemma GuardedAppend(rows: seq<Position>, row: Position)
    requires AllGuarded(rows) && Guarded(row)
    ensures AllGuarded(rows + [row])
  {
  }

  /** After the position update, before any level is set. */
  lemma PositionedGuard(s: Store, p: Policy, c: Call)
    requires AllGuarded(s.positions) && Limit(s, p, c) >= POSITIONED
    ensures AllGuarded(RowsAfter(s, p, c).value) <==> !AveragesPastLevel(s, p, c, POSITIONED)
    ensures RowIndex(s, p, c) < |RowsAfter(s, p, c).value|
    ensures forall i | 0 <= i < |RowsAfter(s, p, c).value| && i != RowIndex(s, p, c) ::
              Guarded(RowsAfter(s, p, c).value[i])
  {
    hide Refusal, Guarded, LevelsValid, WeightedAverage, FeeTax;
    RowIndexInRange(s, p, c);
    var t := TradeOf(s, p, c);
    match OpenIndex(s.positions, c.accountId, c.symbol)
    case None =>
      NoLevels(Opened(t));
      GuardedAppend(s.positions, Opened(t));
    case Some(i) =>
      TouchedLevels(s.positions[i], t);
      var next := Touched(s.positions[i], t).value;
      GuardedUpdate(s.positions, i, next);
      SameGuard(next, s.positions[i].(averagePrice := next.averagePrice));
      SameGuard(s.positions[i], s.positions[i].(averagePrice := s.positions[i].averagePrice));
  }

  lemma NoLevels(row: Position)
    ensures row.stopLoss.None? && row.takeProfit.None? ==> Guarded(row)
  {
  }

  lemma SameGuard(a: Position, b: Position)
    requires a.direction == b.direction && a.averagePrice == b.averagePrice
    requires a.stopLoss == b.stopLoss && a.takeProfit == b.takeProfit
    ensures Guarded(a) == Guarded(b)
  {
  }

  /** Wherever a call is cut off, every row keeps its levels around its average price exactly when the call
      does not average one of them away. */
  lemma CallKeepsLevelsExactly(s: Store, p: Policy, c: Call, k: nat)
    requires AllGuarded(s.positions) && k <= Limit(s, p, c)
    ensures AllGuarded(Partial(s, p, c, k).positions) <==> !AveragesPastLevel(s, p, c, k)
  {
    hide Refusal, AllGuarded, OpenPosition, RowsAfter, RowIndex, WeightedAverage, OrderAt;
    if k >= POSITIONED {
      PositionedGuard(s, p, c);
      RowIndexInRange(s, p, c);
      if k > POSITIONED && c.stopLoss.Some? {
        LevelsSet(RowsAfter(s, p, c).value, RowIndex(s, p, c), c.stopLoss);
      }
    }
  }

  lemma LevelsSet(rows: seq<Position>, i: nat, stop: Option<real>)
    requires i < |rows| && LevelRows(rows, i, stop).Some?
    requires forall j | 0 <= j < |rows| && j != i :: Guarded(rows[j])
    ensures AllGuarded(LevelRows(rows, i, stop).value)
  {
  }

  /** A given stop is set on the row the call traded, and only by the write after the position update; every
      other level, and every other row, stays as it was. */
  lemma CallSetsLevels(s: Store, p: Policy, c: Call, k: nat, i: nat)
    requires k <= Limit(s, p, c) && i < |Partial(s, p, c, k).positions|
    ensures i <= |s.positions| <= |Partial(s, p, c, k).positions|
    ensures var row := Partial(s, p, c, k).positions[i];
            var (stop, take) := if i < |s.positions| then (s.positions[i].stopLoss, s.positions[i].takeProfit)
                                else (None, None);
            if k >= POSITIONED && (i == |s.positions| || OpenIndex(s.positions, c.accountId, c.symbol) == Some(i))
            then
              && row.takeProfit == take
              && row.stopLoss == if k > POSITIONED && c.stopLoss.Some? then c.stopLoss else stop
            else i < |s.positions| && row == s.positions[i]
  {
    hide Refusal, OpenIndex, WeightedAverage, LevelsValid, FeeTax, OrderAt;
    if k >= POSITIONED {
      RowIndexInRange(s, p, c);
      if OpenIndex(s.positions, c.accountId, c.symbol) == Some(i) {
        TouchedLevels(s.positions[i], TradeOf(s, p, c));
      }
    }
  }

  /** An accepted edit leaves the row guarded, whatever it was before. */
  lemma EditKeepsLevels(s: Store, id: nat, stop: Option<real>, take: Option<real>)
    requires AllGuarded(s.positions)
    ensures AllGuarded(EditedLevels(s, id, stop, take).positions)
  {
  }

  /** The event, in this state, averages a row past one of its levels. */
  predicate LosesGuard(s: Store, p: Policy, e: Event) {
    e.Submit? && AveragesPastLevel(s, p, e.call, Min(e.writes, Limit(s, p, e.call)))
  }

  lemma StepKeepsLevelsExactly(s: Store, p: Policy, e: Event)
    requires AllGuarded(s.positions)
    ensures AllGuarded(Step(s, p, e).positions) <==> !LosesGuard(s, p, e)
  {
    hide AllGuarded, AveragesPastLevel, Limit, Partial, EditedLevels;
    match e
    case Submit(c, writes) => CallKeepsLevelsExactly(s, p, c, Min(writes, Limit(s, p, c)));
    case EditLevels(id, stop, take) => EditKeepsLevels(s, id, stop, take);
  }

  /** In every state of every run in which no event has averaged a row past a level, each row of the table
      has its stop below and its take-profit above its average price when long, and the reverse when short. */
  lemma LevelsHoldOverRuns(p: Policy, accounts: map<string, Account>, events: seq<Event>)
    requires forall i | 0 <= i < |events| :: !LosesGuard(Run(Fresh(accounts), p, events[..i]), p, events[i])
    ensures forall row | row in Run(Fresh(accounts), p, events).positions ::
              && (row.direction.Long? && row.stopLoss.Some? ==> row.stopLoss.value < row.averagePrice)
              && (row.direction.Long? && row.takeProfit.Some? ==> row.averagePrice < row.takeProfit.value)
              && (row.direction.Short? && row.takeProfit.Some? ==> row.takeProfit.value < row.averagePrice)
              && (row.direction.Short? && row.stopLoss.Some? ==> row.averagePrice < row.stopLoss.value)
  {
    GuardedOverRuns(p, accounts, events);
  }

  lemma {:induction false} GuardedOverRuns(p: Policy, accounts: map<string, Account>, events: seq<Event>)
    requires forall i | 0 <= i < |events| :: !LosesGuard(Run(Fresh(accounts), p, events[..i]), p, events[i])
    ensures AllGuarded(Run(Fresh(accounts), p, events).positions)
  {
    hide AllGuarded, LosesGuard, Step;
    if |events| == 0 {
      NoRowsYet(accounts);
    } else {
      var n := |events| - 1;
      forall i | 0 <= i < n ensures !LosesGuard(Run(Fresh(accounts), p, events[..n][..i]), p, events[..n][i]) {
        assert events[..n][..i] == events[..i];
      }
      GuardedOverRuns(p, accounts, events[..n]);
      StepKeepsLevelsExactly(Run(Fresh(accounts), p, events[..n]), p, events[n]);
    }
  }

  lemma NoRowsYet(accounts: map<string, Account>)
    ensures AllGuarded(Fresh(accounts).positions)
  {
  }
}
