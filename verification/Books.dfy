/** The position rows of one account and symbol, seen as a book that trades are folded into.
    A book never looks at other rows, so it is the specification of the flat positions table. */
module Books {
  import opened Options
  import opened Ledger

  /** A row without its two levels, which no trade reads or changes. */
  function Plain(p: Position): Position {
    p.(stopLoss := None, takeProfit := None)
  }

  function RowsOf(positions: seq<Position>, account: string, symbol: string): seq<Position> {
    if |positions| == 0 then []
    else
      var n := |positions| - 1;
      RowsOf(positions[..n], account, symbol) +
      if Holds(positions[n], account, symbol) then [Plain(positions[n])] else []
  }

  /** The trades of one account and symbol, in ledger order. */
  function TradesOf(trades: seq<Trade>, account: string, symbol: string): seq<Trade> {
    if |trades| == 0 then []
    else
      var n := |trades| - 1;
      TradesOf(trades[..n], account, symbol) +
      if trades[n].accountId == account && trades[n].symbol == symbol then [trades[n]] else []
  }

  /** The trades and the rows of one account, as the tables list them. */
  function AccountTrades(trades: seq<Trade>, account: string): seq<Trade> {
    if |trades| == 0 then []
    else
      var n := |trades| - 1;
      AccountTrades(trades[..n], account) + if trades[n].accountId == account then [trades[n]] else []
  }

  function AccountRows(rows: seq<Position>, account: string): seq<Position> {
    if |rows| == 0 then []
    else
      var n := |rows| - 1;
      AccountRows(rows[..n], account) + if rows[n].accountId == account then [rows[n]] else []
  }

  /** One trade of the book's own account and symbol: it opens a row unless the last one is open. */
  function BookStep(book: seq<Position>, t: Trade): Option<seq<Position>> {
    var n := |book|;
    if n == 0 || !book[n - 1].open then Some(book + [Opened(t)])
    else
      match Touched(book[n - 1], t)
      case None => None
      case Some(p) => Some(book[..n - 1] + [p])
  }

  function Replay(trades: seq<Trade>): Option<seq<Position>> {
    if |trades| == 0 then Some([])
    else
      var n := |trades| - 1;
      match Replay(trades[..n])
      case None => None
      case Some(book) => BookStep(book, trades[n])
  }

  lemma ReplayAppend(trades: seq<Trade>, t: Trade)
    ensures Replay(trades + [t]) == if Replay(trades).Some? then BookStep(Replay(trades).value, t) else None
  {
    assert (trades + [t])[..|trades|] == trades;
  }

  function Signed(t: Trade): real {
    match t.action
    case Buy => t.quantity
    case Sell => -t.quantity
    case OtherAction(_) => 0.0
  }

  /** Bought minus sold quantity. */
  function NetQuantity(trades: seq<Trade>): real {
    if |trades| == 0 then 0.0 else NetQuantity(trades[..|trades| - 1]) + Signed(trades[|trades| - 1])
  }

  lemma NetAppend(trades: seq<Trade>, t: Trade)
    ensures NetQuantity(trades + [t]) == NetQuantity(trades) + Signed(t)
  {
    assert (trades + [t])[..|trades|] == trades;
  }

  function SignedHolding(p: Position): real {
    if p.direction.Long? then p.quantity else -p.quantity
  }

  /** The signed quantity of a book's open row, zero when flat. */
  function BookHolding(book: seq<Position>): real {
    if |book| > 0 && book[|book| - 1].open then SignedHolding(book[|book| - 1]) else 0.0
  }

  predicate Executable(t: Trade) {
    !t.action.OtherAction? && t.quantity > 0.0 && t.fillPrice > 0.0
  }

  predicate AllExecutable(trades: seq<Trade>) {
    forall i | 0 <= i < |trades| :: Executable(trades[i])
  }

  /** Closed rows hold nothing, an open one holds something, and only the last may be open. */
  predicate BookShape(book: seq<Position>) {
    && (forall i | 0 <= i < |book| :: book[i].open <==> book[i].quantity > 0.0)
    && (forall i | 0 <= i < |book| :: book[i].quantity >= 0.0)
    && (forall i | 0 <= i < |book| - 1 :: !book[i].open)
  }

  predicate AllLong(book: seq<Position>) {
    forall i | 0 <= i < |book| :: book[i].direction.Long?
  }

  predicate ShortClosed(row: Position) {
    !row.open && row.direction.Short?
  }

  /** No short has been bought back. */
  predicate NoShortClosed(book: seq<Position>) {
    forall i | 0 <= i < |book| :: !ShortClosed(book[i])
  }

  // ---------- what a book holds ----------

  lemma TouchedQuantity(p: Position, t: Trade)
    requires !t.action.OtherAction? && t.quantity > 0.0 && p.open && p.quantity > 0.0 && Touched(p, t).Some?
    ensures var next := Touched(p, t).value;
            && next.direction == p.direction
            && next.quantity == (if SideOf(t.action) == p.direction then p.quantity + t.quantity
                else p.quantity - t.quantity)
            && next.quantity >= 0.0
            && (next.open <==> next.quantity > 0.0)
            && SignedHolding(next) == SignedHolding(p) + Signed(t)
  {
  }

  lemma BookStepConserves(book: seq<Position>, t: Trade)
    requires BookShape(book) && Executable(t) && BookStep(book, t).Some?
    ensures BookShape(BookStep(book, t).value)
    ensures BookHolding(BookStep(book, t).value) == BookHolding(book) + Signed(t)
  {
    var n := |book|;
    var after := BookStep(book, t).value;
    if n == 0 || !book[n - 1].open {
      assert after == book + [Opened(t)];
    } else {
      TouchedQuantity(book[n - 1], t);
      assert after == book[..n - 1] + [Touched(book[n - 1], t).value];
    }
  }

  /** Conservation of quantity, for long and short books alike. */
  lemma {:induction false} BookConservesQuantity(trades: seq<Trade>)
    requires AllExecutable(trades) && Replay(trades).Some?
    ensures BookShape(Replay(trades).value)
    ensures BookHolding(Replay(trades).value) == NetQuantity(trades)
  {
    if |trades| > 0 {
      var n := |trades| - 1;
      BookConservesQuantity(trades[..n]);
      BookStepConserves(Replay(trades[..n]).value, trades[n]);
    }
  }

  // ---------- the flat table against its books ----------

  lemma {:induction false} RowInBook(positions: seq<Position>, i: nat, account: string, symbol: string)
    requires i < |positions| && Holds(positions[i], account, symbol)
    ensures Plain(positions[i]) in RowsOf(positions, account, symbol)
  {
    var n := |positions| - 1;
    if i < n {
      RowInBook(positions[..n], i, account, symbol);
    }
  }

  lemma {:induction false} BookRowInTable(positions: seq<Position>, account: string, symbol: string, j: nat)
    returns (i: nat)
    requires j < |RowsOf(positions, account, symbol)|
    ensures i < |positions| && Holds(positions[i], account, symbol)
    ensures Plain(positions[i]) == RowsOf(positions, account, symbol)[j]
  {
    var n := |positions| - 1;
    if j < |RowsOf(positions[..n], account, symbol)| {
      i := BookRowInTable(positions[..n], account, symbol, j);
    } else {
      i := n;
    }
  }

  /** Rewriting a row touches only the book it belongs to, and there only when its contents change. */
  lemma {:induction false} UpdateElsewhere(
    positions: seq<Position>, i: nat, p: Position, account: string, symbol: string)
    requires i < |positions|
    requires Plain(p) == Plain(positions[i]) ||
             (!Holds(positions[i], account, symbol) && !Holds(p, account, symbol))
    ensures RowsOf(positions[i := p], account, symbol) == RowsOf(positions, account, symbol)
  {
    var n := |positions| - 1;
    if i < n {
      assert positions[i := p][..n] == positions[..n][i := p];
      UpdateElsewhere(positions[..n], i, p, account, symbol);
    } else {
      assert positions[i := p][..n] == positions[..n];
    }
  }

  lemma ShapeOfPrefix(book: seq<Position>, more: seq<Position>)
    requires BookShape(book + more)
    ensures BookShape(book) && (|book| > 0 && book[|book| - 1].open ==> |more| == 0)
  {
    assert forall i | 0 <= i < |book| :: (book + more)[i] == book[i];
  }

  /** The open row is the last of its book, so rewriting it rewrites the end of the book. */
  lemma {:induction false} UpdateOpenRow(positions: seq<Position>, i: nat, p: Position, account: string, symbol: string)
    requires i < |positions| && Holds(positions[i], account, symbol) && positions[i].open && Holds(p, account, symbol)
    requires BookShape(RowsOf(positions, account, symbol))
    ensures var book := RowsOf(positions, account, symbol);
            && |book| > 0 && book[|book| - 1] == Plain(positions[i])
            && RowsOf(positions[i := p], account, symbol) == book[..|book| - 1] + [Plain(p)]
  {
    hide BookShape;
    var n := |positions| - 1;
    var book := RowsOf(positions, account, symbol);
    var earlier := RowsOf(positions[..n], account, symbol);
    if i == n {
      assert positions[i := p][..n] == positions[..n];
      assert book[..|book| - 1] == earlier;
    } else {
      ShapeOfPrefix(earlier, if Holds(positions[n], account, symbol) then [Plain(positions[n])] else []);
      UpdateOpenRow(positions[..n], i, p, account, symbol);
      assert book == earlier;
      assert positions[i := p][..n] == positions[..n][i := p];
    }
  }

  /** Trades carry the two levels along untouched. */
  lemma TouchedPlain(p: Position, t: Trade)
    ensures Touched(Plain(p), t).Some? == Touched(p, t).Some?
    ensures Touched(p, t).Some? ==> Touched(Plain(p), t).value == Plain(Touched(p, t).value)
  {
    if SideOf(t.action) == p.direction {
      assert Merged(p, t).Some? ==> Merged(Plain(p), t) == Some(Plain(Merged(p, t).value));
    } else {
      assert Reduced(p, t).Some? ==> Reduced(Plain(p), t) == Some(Plain(Reduced(p, t).value));
    }
  }

  /** Applying a trade to the table is one step of its own book and no step of any other. */
  lemma TableStepIsBookStep(positions: seq<Position>, t: Trade, mayShort: bool, account: string, symbol: string)
    requires PositionsAfter(positions, t, mayShort).Some?
    requires BookShape(RowsOf(positions, t.accountId, t.symbol))
    ensures var rows := PositionsAfter(positions, t, mayShort).value;
            if account == t.accountId && symbol == t.symbol
            then BookStep(RowsOf(positions, account, symbol), t) == Some(RowsOf(rows, account, symbol))
            else RowsOf(rows, account, symbol) == RowsOf(positions, account, symbol)
  {
    var rows := PositionsAfter(positions, t, mayShort).value;
    var open := OpenIndex(positions, t.accountId, t.symbol);
    var mine := account == t.accountId && symbol == t.symbol;
    match open
    case None =>
      assert rows[..|positions|] == positions;
      assert Plain(Opened(t)) == Opened(t);
      var book := RowsOf(positions, account, symbol);
      if mine && |book| > 0 {
        var i := BookRowInTable(positions, account, symbol, |book| - 1);
      }
    case Some(i) =>
      if mine {
        UpdateOpenRow(positions, i, rows[i], account, symbol);
        TouchedPlain(positions[i], t);
      } else {
        UpdateElsewhere(positions, i, rows[i], account, symbol);
      }
  }

  /** The open row of an account and symbol is the end of its book. */
  lemma OpenIsBookEnd(positions: seq<Position>, account: string, symbol: string)
    requires BookShape(RowsOf(positions, account, symbol))
    ensures var open := OpenPosition(positions, account, symbol);
            var held := BookHolding(RowsOf(positions, account, symbol));
            if open.Some? then open.value.quantity > 0.0 && SignedHolding(open.value) == held else held == 0.0
  {
    var book := RowsOf(positions, account, symbol);
    match OpenIndex(positions, account, symbol)
    case Some(i) => UpdateOpenRow(positions, i, positions[i], account, symbol);
    case None =>
      if |book| > 0 {
        var i := BookRowInTable(positions, account, symbol, |book| - 1);
      }
  }
}
