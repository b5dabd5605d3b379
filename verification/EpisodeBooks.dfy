/** Episodes rebuilt from trades against the position rows the ledger wrote from the same trades. */
module EpisodeBooks {
  import opened Options
  import opened Ledger
  import opened Books
  import opened Invariants
  import opened Episodes

  /** Net flow of a list of trades on one side: what they brought in, less what they cost, with only
      the costs of exits. */
  function Flow(trades: seq<Trade>, side: Direction): real {
    if |trades| == 0 then 0.0 else Flow(trades[..|trades| - 1], side) + NetFlow(trades[|trades| - 1], side)
  }

  predicate LastOpen(book: seq<Position>) {
    |book| > 0 && book[|book| - 1].open
  }

  /** The trades that made each row of a book, row by row. */
  function Makers(trades: seq<Trade>): seq<seq<Trade>> {
    if |trades| == 0 then []
    else
      var n := |trades| - 1;
      var earlier := Makers(trades[..n]);
      var m := |earlier| - 1;
      if m >= 0 && Replay(trades[..n]).Some? && LastOpen(Replay(trades[..n]).value)
      then earlier[..m] + [earlier[m] + [trades[n]]] else earlier + [[trades[n]]]
  }

  /** Row by row, the episodes hold the trades that made the rows, and are closed where they are. */
  predicate SameTrades(episodes: seq<Episode>, book: seq<Position>, makers: seq<seq<Trade>>) {
    && |episodes| == |book| == |makers|
    && forall i | 0 <= i < |book| :: episodes[i].trades == makers[i] && (episodes[i].closed <==> !book[i].open)
  }

  /** The finished episodes are closed and the current one is not. */
  predicate Finished(s: Scan) {
    (forall i | 0 <= i < |s.episodes| :: s.episodes[i].closed) && (s.current.Some? ==> !s.current.value.closed)
  }

  /** The scan holds `holding` and knows when a long one began. */
  predicate Tracks(s: Scan, holding: real) {
    Finished(s) && s.quantity == holding && (s.quantity > 0.0 ==> s.timed)
  }

  lemma ReplayOne(t: Trade)
    ensures Replay([t]) == Some([Opened(t)])
  {
    assert [t] == [] + [t];
    ReplayAppend([], t);
    assert [] + [Opened(t)] == [Opened(t)];
  }

  lemma ReplayTouch(trades: seq<Trade>, row: Position, t: Trade)
    requires Replay(trades) == Some([row]) && row.open && Touched(row, t).Some?
    ensures Replay(trades + [t]) == Some([Touched(row, t).value])
  {
    ReplayAppend(trades, t);
    assert [row][..0] + [Touched(row, t).value] == [Touched(row, t).value];
  }

  /** Row by row, a book is the replay of its rows' own trades. */
  predicate MadeRows(book: seq<Position>, makers: seq<seq<Trade>>) {
    |makers| == |book| && forall i | 0 <= i < |book| :: Replay(makers[i]) == Some([book[i]])
  }

  lemma MadeRowsStep(book: seq<Position>, makers: seq<seq<Trade>>, t: Trade)
    requires MadeRows(book, makers) && BookStep(book, t).Some?
    ensures var n := |book| - 1;
            MadeRows(BookStep(book, t).value,
                     if LastOpen(book) then makers[..n] + [makers[n] + [t]] else makers + [[t]])
  {
    hide Touched, Replay;
    var n := |book| - 1;
    if LastOpen(book) {
      ReplayTouch(makers[n], book[n], t);
    } else {
      ReplayOne(t);
    }
  }

  lemma {:induction false} MakersMakeRows(trades: seq<Trade>)
    requires Replay(trades).Some?
    ensures MadeRows(Replay(trades).value, Makers(trades))
  {
    hide BookStep, MadeRows, LastOpen;
    if |trades| > 0 {
      var n := |trades| - 1;
      MakersMakeRows(trades[..n]);
      SameLength(Replay(trades[..n]).value, Makers(trades[..n]));
      MadeRowsStep(Replay(trades[..n]).value, Makers(trades[..n]), trades[n]);
    } else {
      NothingMade();
    }
  }

  lemma SameLength(book: seq<Position>, makers: seq<seq<Trade>>)
    requires MadeRows(book, makers)
    ensures |book| == |makers| && (LastOpen(book) ==> |book| > 0)
  {
  }

  lemma NothingMade()
    ensures MadeRows([], [])
  {
  }

  function Joined(lists: seq<seq<Trade>>): seq<Trade> {
    if |lists| == 0 then [] else Joined(lists[..|lists| - 1]) + lists[|lists| - 1]
  }

  lemma JoinedAppend(lists: seq<seq<Trade>>, list: seq<Trade>)
    ensures Joined(lists + [list]) == Joined(lists) + list
  {
    assert (lists + [list])[..|lists|] == lists;
  }

  /** Together the rows' trades are all trades, in order. */
  lemma {:induction false} MakersAreAll(trades: seq<Trade>)
    ensures Joined(Makers(trades)) == trades
  {
    hide Replay;
    if |trades| > 0 {
      var n := |trades| - 1;
      MakersAreAll(trades[..n]);
      var makers := Makers(trades[..n]);
      var m := |makers| - 1;
      assert trades[..n] + [trades[n]] == trades;
      JoinedAppend(makers, [trades[n]]);
      if m >= 0 {
        assert makers[..m] + [makers[m]] == makers;
        JoinedAppend(makers[..m], makers[m]);
        JoinedAppend(makers[..m], makers[m] + [trades[n]]);
        assert Joined(makers[..m]) + (makers[m] + [trades[n]]) == Joined(makers) + [trades[n]];
      }
    }
  }

  lemma {:induction false} JoinedExecutable(lists: seq<seq<Trade>>, i: nat)
    requires i < |lists| && AllExecutable(Joined(lists))
    ensures AllExecutable(lists[i])
  {
    var n := |lists| - 1;
    var all := Joined(lists);
    var front := Joined(lists[..n]);
    if i < n {
      assert forall j | 0 <= j < |front| :: all[j] == front[j];
      JoinedExecutable(lists[..n], i);
    } else {
      assert forall j | 0 <= j < |lists[n]| :: all[|front| + j] == lists[n][j];
    }
  }

  /** The scan step of a trade that touches the open row, named without its arithmetic: only the close of
      a long row closes the episode. */
  lemma ScanOfTouch(s: Scan, row: Position, t: Trade)
    requires Tracks(s, SignedHolding(row)) && Executable(t) && row.open && row.quantity > 0.0 && Touched(row, t).Some?
    ensures var next, e := Touched(row, t).value, Extended(s.current, t);
            ScanStep(s, t) == Some(if next.open || next.direction.Short?
                                   then Scan(s.episodes, Some(e), SignedHolding(next), s.timed)
                                   else Scan(s.episodes + [e.(closed := true)], None, 0.0, false))
  {
    TouchedQuantity(row, t);
  }

  lemma SameTradesOpens(s: Scan, book: seq<Position>, makers: seq<seq<Trade>>, t: Trade)
    requires SameTrades(AllEpisodes(s), book, makers) && s.current.None? && Executable(t)
    requires Tracks(s, 0.0)
    ensures var after := ScanStep(s, t);
            after.Some? && SameTrades(AllEpisodes(after.value), book + [Opened(t)], makers + [[t]])
  {
    assert AllEpisodes(s) == s.episodes;
    assert AllEpisodes(ScanStep(s, t).value) == s.episodes + [Extended(None, t)];
  }

  lemma SameTradesTouches(s: Scan, book: seq<Position>, makers: seq<seq<Trade>>, t: Trade)
    requires SameTrades(AllEpisodes(s), book, makers) && s.current.Some? && Executable(t)
    requires LastOpen(book) && book[|book| - 1].quantity > 0.0 && Tracks(s, SignedHolding(book[|book| - 1]))
    requires var next := Touched(book[|book| - 1], t); next.Some? && !ShortClosed(next.value)
    ensures var n := |book| - 1;
            var after := ScanStep(s, t);
            after.Some? && SameTrades(AllEpisodes(after.value), book[..n] + [Touched(book[n], t).value],
                                      makers[..n] + [makers[n] + [t]])
  {
    hide Touched, ScanStep, Tracks, SignedHolding;
    var n := |book| - 1;
    var next := Touched(book[n], t).value;
    ScanOfTouch(s, book[n], t);
    assert AllEpisodes(s)[n] == s.current.value && AllEpisodes(s)[..n] == s.episodes;
    var e := Extended(s.current, t).(closed := !next.open);
    NotClosedYet(s, SignedHolding(book[n]));
    assert AllEpisodes(ScanStep(s, t).value) == s.episodes + [e];
  }

  lemma NotClosedYet(s: Scan, holding: real)
    requires Tracks(s, holding)
    ensures s.current.Some? ==> !s.current.value.closed
  {
  }

  lemma ShortsStayClosed(before: seq<Position>, t: Trade)
    requires BookShape(before) && BookStep(before, t).Some?
    ensures NoShortClosed(BookStep(before, t).value) ==> NoShortClosed(before)
  {
    var after := BookStep(before, t).value;
    forall i | 0 <= i < |before| && !before[i].open ensures after[i] == before[i] {
    }
  }

  lemma LastNotShortClosed(before: seq<Position>, t: Trade)
    requires LastOpen(before) && BookStep(before, t).Some? && NoShortClosed(BookStep(before, t).value)
    ensures Touched(before[|before| - 1], t).Some? && !ShortClosed(Touched(before[|before| - 1], t).value)
  {
    var n := |before| - 1;
    assert BookStep(before, t).value[n] == Touched(before[n], t).value;
  }

  lemma CurrentIsOpenRow(s: Scan, book: seq<Position>, makers: seq<seq<Trade>>, holding: real)
    requires SameTrades(AllEpisodes(s), book, makers) && Tracks(s, holding)
    ensures s.current.Some? <==> LastOpen(book)
  {
    if |book| > 0 {
      assert AllEpisodes(s)[|book| - 1].closed <==> !book[|book| - 1].open;
    }
  }

  /** Over the trades of a book in which no short has closed, the episodes are exactly its rows. */
  lemma {:induction false} EpisodesAreRows(trades: seq<Trade>)
    requires AllExecutable(trades) && Replay(trades).Some? && NoShortClosed(Replay(trades).value)
    ensures ScanAll(trades).Some?
    ensures SameTrades(AllEpisodes(ScanAll(trades).value), Replay(trades).value, Makers(trades))
  {
    hide ScanStep, Touched, NoShortClosed, AllEpisodes, SameTrades, Tracks, SignedHolding;
    PassCountsLongs(trades);
    if |trades| == 0 {
      NothingScanned();
    } else {
      var n := |trades| - 1;
      var before, makers := Replay(trades[..n]).value, Makers(trades[..n]);
      BookConservesQuantity(trades[..n]);
      ShortsStayClosed(before, trades[n]);
      EpisodesAreRows(trades[..n]);
      PassCountsLongs(trades[..n]);
      MakersMakeRows(trades[..n]);
      var s := ScanAll(trades[..n]).value;
      CurrentIsOpenRow(s, before, makers, BookHolding(before));
      if LastOpen(before) {
        OpenRowHolds(before);
        LastNotShortClosed(before, trades[n]);
        SameTradesTouches(s, before, makers, trades[n]);
      } else {
        SameTradesOpens(s, before, makers, trades[n]);
      }
    }
  }

  lemma NothingScanned()
    ensures SameTrades(AllEpisodes(NOTHING_SCANNED), [], [])
  {
  }

  // ---------- how many episodes close, shorts or not ----------

  function ClosedLongs(book: seq<Position>): nat {
    if |book| == 0 then 0
    else
      var n := |book| - 1;
      ClosedLongs(book[..n]) + if !book[n].open && book[n].direction.Long? then 1 else 0
  }

  function ClosedShorts(book: seq<Position>): nat {
    if |book| == 0 then 0
    else
      var n := |book| - 1;
      ClosedShorts(book[..n]) + if ShortClosed(book[n]) then 1 else 0
  }

  lemma CountsAppend(book: seq<Position>, row: Position)
    ensures ClosedLongs(book + [row]) == ClosedLongs(book) + if !row.open && row.direction.Long? then 1 else 0
    ensures ClosedShorts(book + [row]) == ClosedShorts(book) + if ShortClosed(row) then 1 else 0
  {
    assert (book + [row])[..|book|] == book;
  }

  lemma {:induction false} ClosedShortsCount(book: seq<Position>)
    ensures ClosedShorts(book) == 0 <==> NoShortClosed(book)
    ensures |ClosedRows(book)| == ClosedLongs(book) + ClosedShorts(book)
  {
    if |book| > 0 {
      var n := |book| - 1;
      ClosedShortsCount(book[..n]);
      assert forall i | 0 <= i < n :: book[..n][i] == book[i];
    }
  }

  lemma OpeningCounts(s: Scan, book: seq<Position>, t: Trade)
    requires Tracks(s, 0.0) && Executable(t)
    ensures var after := ScanStep(s, t);
            && after.Some? && after.value.episodes == s.episodes
            && Tracks(after.value, SignedHolding(Opened(t)))
    ensures ClosedLongs(book + [Opened(t)]) == ClosedLongs(book)
  {
    CountsAppend(book, Opened(t));
  }

  lemma TouchingCounts(s: Scan, front: seq<Position>, row: Position, t: Trade)
    requires Tracks(s, SignedHolding(row)) && Executable(t) && row.open && row.quantity > 0.0 && Touched(row, t).Some?
    ensures var next, after := Touched(row, t).value, ScanStep(s, t);
            && after.Some? && Tracks(after.value, if next.open then SignedHolding(next) else 0.0)
            && |after.value.episodes| - |s.episodes| == ClosedLongs(front + [next]) - ClosedLongs(front + [row])
  {
    hide Touched, ScanStep, ClosedLongs;
    ScanOfTouch(s, row, t);
    TouchedQuantity(row, t);
    CountsAppend(front, row);
    CountsAppend(front, Touched(row, t).value);
  }

  lemma StepCounts(s: Scan, book: seq<Position>, t: Trade)
    requires Tracks(s, BookHolding(book)) && BookShape(book) && Executable(t) && BookStep(book, t).Some?
    ensures ScanStep(s, t).Some?
    ensures Tracks(ScanStep(s, t).value, BookHolding(BookStep(book, t).value))
    ensures |ScanStep(s, t).value.episodes| - |s.episodes| == ClosedLongs(BookStep(book, t).value) - ClosedLongs(book)
  {
    hide Touched, ScanStep, ClosedLongs, BookShape, Tracks, SignedHolding;
    var n := |book| - 1;
    if n < 0 || !book[n].open {
      OpeningCounts(s, book, t);
      assert BookStep(book, t).value[n + 1] == Opened(t);
    } else {
      OpenRowHolds(book);
      assert book[..n] + [book[n]] == book;
      TouchingCounts(s, book[..n], book[n], t);
      assert BookStep(book, t).value[n] == Touched(book[n], t).value;
    }
  }

  lemma OpenRowHolds(book: seq<Position>)
    requires BookShape(book) && |book| > 0 && book[|book| - 1].open
    ensures book[|book| - 1].quantity > 0.0
  {
  }

  /** For any book the pass succeeds and closes one episode for each long row that closed; a short that
      is bought back closes none. */
  lemma {:induction false} PassCountsLongs(trades: seq<Trade>)
    requires AllExecutable(trades) && Replay(trades).Some?
    ensures ScanAll(trades).Some?
    ensures Tracks(ScanAll(trades).value, BookHolding(Replay(trades).value))
    ensures |ScanAll(trades).value.episodes| == ClosedLongs(Replay(trades).value)
  {
    hide ScanStep, BookStep, ClosedLongs;
    if |trades| > 0 {
      var n := |trades| - 1;
      PassCountsLongs(trades[..n]);
      BookConservesQuantity(trades[..n]);
      StepCounts(ScanAll(trades[..n]).value, Replay(trades[..n]).value, trades[n]);
    } else {
      NothingCounted([]);
    }
  }

  lemma NothingCounted(book: seq<Position>)
    requires |book| == 0
    ensures ClosedLongs(book) == 0
  {
  }

  /** How a one-row book came about: opened by its only trade, or by touching the row before. */
  lemma LastStepOfRow(trades: seq<Trade>, row: Position) returns (before: Option<Position>)
    requires Replay(trades) == Some([row])
    ensures |trades| > 0
    ensures before.None? ==> |trades| == 1 && row == Opened(trades[0])
    ensures before.Some? ==>
              Replay(trades[..|trades| - 1]) == Some([before.value]) &&
                  Touched(before.value, trades[|trades| - 1]) == Some(row)
  {
    var n := |trades| - 1;
    var book := Replay(trades[..n]).value;
    if |book| == 0 {
      EmptyBook(trades[..n]);
      assert [row][0] == Opened(trades[n]);
      before := None;
    } else {
      assert book == [book[0]];
      assert [row][0] == Touched(book[0], trades[n]).value;
      before := Some(book[0]);
    }
  }

  lemma EmptyBook(trades: seq<Trade>)
    requires Replay(trades) == Some([])
    ensures trades == []
  {
  }

  /** A row is worth the net flow of the trades that made it; once closed, that is its profit. */
  lemma {:induction false} RowValueIsFlow(trades: seq<Trade>, row: Position)
    requires AllExecutable(trades) && Replay(trades) == Some([row])
    ensures RowValue(row) == Flow(trades, row.direction)
  {
    var n := |trades| - 1;
    var before := LastStepOfRow(trades, row);
    match before
    case None =>
      OpenedValue(trades[0]);
    case Some(earlier) =>
      assert Executable(trades[n]);
      assert earlier.direction == row.direction;
      RowValueIsFlow(trades[..n], earlier);
      RowStep(earlier, trades[n]);
  }

  lemma ClosedRowHoldsNothing(trades: seq<Trade>, row: Position)
    requires AllExecutable(trades) && Replay(trades) == Some([row]) && !row.open
    ensures row.quantity == 0.0
  {
    BookConservesQuantity(trades);
    assert [row][0] == row;
  }

  lemma NothingAtCost(p: Position)
    requires p.quantity == 0.0
    ensures RowValue(p) == p.realizedPnl
  {
  }

  /** The profit of a closed row, long or short, is the net flow of its trades. */
  lemma ClosedRowProfit(trades: seq<Trade>, row: Position)
    requires AllExecutable(trades) && Replay(trades) == Some([row]) && !row.open
    ensures row.realizedPnl == Flow(trades, row.direction)
  {
    hide *;
    RowValueIsFlow(trades, row);
    ClosedRowHoldsNothing(trades, row);
    NothingAtCost(row);
  }

  // ---------- closed episodes against closed rows ----------

  function ClosedEpisodes(episodes: seq<Episode>): seq<Episode> {
    if |episodes| == 0 then []
    else
      var n := |episodes| - 1;
      ClosedEpisodes(episodes[..n]) + if episodes[n].closed then [episodes[n]] else []
  }

  function ClosedRows(rows: seq<Position>): seq<Position> {
    if |rows| == 0 then []
    else
      var n := |rows| - 1;
      ClosedRows(rows[..n]) + if rows[n].open then [] else [rows[n]]
  }

  lemma ClosedRowsAppend(rows: seq<Position>, p: Position)
    ensures ClosedRows(rows + [p]) == ClosedRows(rows) + if p.open then [] else [p]
  {
    assert (rows + [p])[..|rows|] == rows;
  }

  lemma {:induction false} AllClosed(episodes: seq<Episode>)
    requires forall i | 0 <= i < |episodes| :: episodes[i].closed
    ensures ClosedEpisodes(episodes) == episodes
  {
    if |episodes| > 0 {
      AllClosed(episodes[..|episodes| - 1]);
    }
  }

  lemma ClosedEpisodesAppend(episodes: seq<Episode>, e: Episode)
    ensures ClosedEpisodes(episodes + [e]) == ClosedEpisodes(episodes) + if e.closed then [e] else []
  {
    assert (episodes + [e])[..|episodes|] == episodes;
  }

  lemma ClosedOfScan(s: Scan)
    requires Finished(s)
    ensures ClosedEpisodes(AllEpisodes(s)) == s.episodes
  {
    AllClosed(s.episodes);
    if s.current.Some? {
      ClosedEpisodesAppend(s.episodes, s.current.value);
    }
  }

  lemma ExtendedConcatenated(s: Scan, t: Trade, closed: bool)
    ensures var e := Extended(s.current, t).(closed := closed);
            Concatenated(s.episodes + [e]) == Concatenated(AllEpisodes(s)) + [t]
  {
    var held := if s.current.Some? then s.current.value.trades else [];
    if s.current.Some? {
      ConcatenatedAppend(s.episodes, s.current.value);
    }
    ConcatenatedAppend(s.episodes, Extended(s.current, t).(closed := closed));
    assert Concatenated(s.episodes) + (held + [t]) == (Concatenated(s.episodes) + held) + [t];
  }

  lemma StepKeepsTrades(s: Scan, t: Trade)
    requires ScanStep(s, t).Some? && (s.current.Some? ==> !s.current.value.closed)
    ensures var after := ScanStep(s, t).value;
            && Concatenated(AllEpisodes(after)) == Concatenated(AllEpisodes(s)) +
               (if t.action.OtherAction? then [] else [t])
            && (after.current.Some? ==> !after.current.value.closed)
  {
    hide Concatenated;
    ExtendedConcatenated(s, t, false);
    ExtendedConcatenated(s, t, true);
    assert Extended(s.current, t).(closed := false) == Extended(s.current, t);
  }

  /** Whatever a pass makes of them, its episodes hold all its BUYs and SELLs in order. */
  lemma {:induction false} ScanKeepsTrades(trades: seq<Trade>)
    requires ScanAll(trades).Some?
    ensures var s := ScanAll(trades).value;
            Concatenated(AllEpisodes(s)) == Executed(trades) && (s.current.Some? ==> !s.current.value.closed)
  {
    hide ScanStep, AllEpisodes;
    if |trades| > 0 {
      var n := |trades| - 1;
      ScanKeepsTrades(trades[..n]);
      StepKeepsTrades(ScanAll(trades[..n]).value, trades[n]);
    } else {
      NoEpisodes();
    }
  }

  lemma NoEpisodes()
    ensures AllEpisodes(NOTHING_SCANNED) == []
  {
  }

  lemma {:induction false} ExecutedIsAll(trades: seq<Trade>)
    requires AllExecutable(trades)
    ensures Executed(trades) == trades
  {
    if |trades| > 0 {
      ExecutedIsAll(trades[..|trades| - 1]);
    }
  }

  /** A long book is never oversold. */
  lemma {:induction false} LongBookNeverOversold(trades: seq<Trade>)
    requires AllExecutable(trades) && Replay(trades).Some? && AllLong(Replay(trades).value)
    ensures NeverOversold(trades) && PositiveQuantities(trades)
  {
    BookConservesQuantity(trades);
    if |trades| > 0 {
      var n := |trades| - 1;
      var before, after := Replay(trades[..n]).value, Replay(trades).value;
      forall i | 0 <= i < |before| ensures before[i].direction.Long? {
        assert after[i].direction == before[i].direction;
      }
      LongBookNeverOversold(trades[..n]);
      assert trades[..|trades|] == trades;
      forall i | 0 <= i <= n ensures NetQuantity(trades[..i]) >= 0.0 {
        assert trades[..n][..i] == trades[..i];
      }
    }
  }
}
