/** Closed episodes of one list of trades against the closed rows booked from another: when their
    numbers agree, and when each row meets the episode its own trades make. */
module Pairing {
  import opened Options
  import opened Ledger
  import opened Books
  import opened Invariants
  import opened Episodes
  import opened EpisodeBooks

  /** How many SELLs return the running quantity to zero. */
  function Closings(trades: seq<Trade>): nat {
    if |trades| == 0 then 0
    else
      var n := |trades| - 1;
      Closings(trades[..n]) + if Closes(trades, n) then 1 else 0
  }

  /** How many trades there are up to and including the last such SELL. */
  function LastClose(trades: seq<Trade>): (r: nat)
    ensures r <= |trades|
  {
    if |trades| == 0 then 0
    else
      var n := |trades| - 1;
      if Closes(trades, n) then n + 1 else LastClose(trades[..n])
  }

  /** The trades that made each closed row. */
  function ClosedMakers(book: seq<Position>, makers: seq<seq<Trade>>): seq<seq<Trade>>
    requires |book| == |makers|
  {
    if |book| == 0 then []
    else
      var n := |book| - 1;
      ClosedMakers(book[..n], makers[..n]) + if book[n].open then [] else [makers[n]]
  }

  /** The trades of the closed rows of the book of `booked`. */
  function RowTrades(booked: seq<Trade>): seq<seq<Trade>>
    requires Replay(booked).Some?
  {
    MakersMakeRows(booked);
    ClosedMakers(Replay(booked).value, Makers(booked))
  }

  predicate EpisodesHold(episodes: seq<Episode>, lists: seq<seq<Trade>>) {
    |episodes| == |lists| && forall i | 0 <= i < |lists| :: episodes[i].trades == lists[i]
  }

  /** Each closed row of the book meets, in order, the closed episode of its own trades. */
  predicate Paired(recorded: seq<Trade>, booked: seq<Trade>) {
    Replay(booked).Some? && OnePass(recorded).Some? &&
    EpisodesHold(ClosedEpisodes(OnePass(recorded).value), RowTrades(booked))
  }

  // ---------- what a pass keeps ----------

  lemma {:induction false} ScanFinished(trades: seq<Trade>)
    requires ScanAll(trades).Some?
    ensures Finished(ScanAll(trades).value)
  {
    if |trades| > 0 {
      ScanFinished(trades[..|trades| - 1]);
    }
  }

  lemma PassedEpisodes(trades: seq<Trade>)
    ensures OnePass(trades).Some? <==> ScanAll(trades).Some?
    ensures OnePass(trades).Some? ==> ClosedEpisodes(OnePass(trades).value) == ScanAll(trades).value.episodes
  {
    if ScanAll(trades).Some? {
      ScanFinished(trades);
      ClosedOfScan(ScanAll(trades).value);
    }
  }

  /** One more trade closes an episode exactly when it is a SELL down to zero. */
  lemma LastStep(trades: seq<Trade>)
    requires |trades| > 0 && ScanAll(trades[..|trades| - 1]).Some?
    ensures var n := |trades| - 1;
            var before, after := ScanAll(trades[..n]).value, ScanAll(trades);
            && (!Closes(trades, n) ==> after.Some? && after.value.episodes == before.episodes)
            && (Closes(trades, n) && after.Some? ==>
                  && after.value.episodes == before.episodes + [Extended(before.current, trades[n]).(closed := true)]
                  && after.value.current.None?)
  {
    var n := |trades| - 1;
    ScanTracksTrades(trades[..n]);
    assert trades[..n + 1] == trades;
  }

  /** The pass closes one episode at each closing SELL. */
  lemma {:induction false} PassCountsClosings(trades: seq<Trade>)
    requires ScanAll(trades).Some?
    ensures |ScanAll(trades).value.episodes| == Closings(trades)
  {
    hide ScanStep, Closes;
    if |trades| > 0 {
      PassCountsClosings(trades[..|trades| - 1]);
      LastStep(trades);
    }
  }

  /** After the last closing SELL the pass neither closes an episode nor fails. */
  lemma {:induction false} PassAfterLastClose(trades: seq<Trade>)
    requires ScanAll(trades[..LastClose(trades)]).Some?
    ensures ScanAll(trades).Some?
    ensures ScanAll(trades).value.episodes == ScanAll(trades[..LastClose(trades)]).value.episodes
  {
    hide ScanStep, Closes;
    if |trades| > 0 {
      var n := |trades| - 1;
      if Closes(trades, n) {
        assert trades[..n + 1] == trades;
      } else {
        assert trades[..n][..LastClose(trades)] == trades[..LastClose(trades)];
        PassAfterLastClose(trades[..n]);
        LastStep(trades);
      }
    }
  }

  lemma {:induction false} AtLastClose(trades: seq<Trade>)
    ensures var upTo := trades[..LastClose(trades)];
            upTo == [] || (Closes(upTo, |upTo| - 1) && NetQuantity(upTo) == 0.0)
  {
    if |trades| > 0 {
      var n := |trades| - 1;
      if Closes(trades, n) {
        assert trades[..n + 1] == trades;
      } else {
        AtLastClose(trades[..n]);
        assert trades[..n][..LastClose(trades)] == trades[..LastClose(trades)];
      }
    }
  }

  /** So its closed episodes hold exactly the trades up to there. */
  lemma ClosedEpisodesHoldAll(trades: seq<Trade>)
    requires ScanAll(trades).Some? && AllExecutable(trades)
    ensures Concatenated(ScanAll(trades).value.episodes) == trades[..LastClose(trades)]
  {
    hide Closes, Closings, LastClose, NetQuantity;
    var upTo := trades[..LastClose(trades)];
    if ScanAll(upTo).None? {
      ScanFailureStays(trades, LastClose(trades));
    }
    PassAfterLastClose(trades);
    AtLastClose(trades);
    ScanKeepsTrades(upTo);
    ExecutedIsAll(upTo);
    if upTo != [] {
      ClosedWithNothingOpen(upTo);
    }
  }

  lemma ClosedWithNothingOpen(trades: seq<Trade>)
    requires |trades| > 0 && ScanAll(trades).Some? && Closes(trades, |trades| - 1)
    ensures ScanAll(trades).value.current.None?
  {
    hide ScanStep, Closes;
    LastStep(trades);
  }

  // ---------- what a book keeps ----------

  lemma ClosedMakersAppend(book: seq<Position>, makers: seq<seq<Trade>>, row: Position, list: seq<Trade>)
    requires |book| == |makers|
    ensures ClosedMakers(book + [row], makers + [list]) == ClosedMakers(book, makers) + if row.open then [] else [list]
  {
    assert (book + [row])[..|book|] == book && (makers + [list])[..|book|] == makers;
  }

  lemma ClosedMakersReplace(book: seq<Position>, makers: seq<seq<Trade>>, row: Position, list: seq<Trade>)
    requires |book| == |makers| && LastOpen(book)
    ensures var n := |book| - 1;
            ClosedMakers(book[..n] + [row], makers[..n] + [list]) ==
            ClosedMakers(book, makers) + if row.open then [] else [list]
  {
    hide ClosedMakers;
    var n := |book| - 1;
    assert book[..n] + [book[n]] == book && makers[..n] + [makers[n]] == makers;
    ClosedMakersAppend(book[..n], makers[..n], book[n], makers[n]);
    ClosedMakersAppend(book[..n], makers[..n], row, list);
  }

  /** A trade that leaves the book's last row open adds no closed row. */
  lemma ClosedMakersStep(book: seq<Position>, makers: seq<seq<Trade>>, t: Trade)
    requires BookStep(book, t).Some? && |book| == |makers|
    ensures var n, after := |book| - 1, BookStep(book, t).value;
            && |after| > 0
            && var list := if LastOpen(book) then makers[n] + [t] else [t];
               ClosedMakers(after, if LastOpen(book) then makers[..n] + [list] else makers + [list]) ==
               ClosedMakers(book, makers) + if LastOpen(after) then [] else [list]
  {
    hide Touched, ClosedMakers;
    var n, after := |book| - 1, BookStep(book, t).value;
    if LastOpen(book) {
      ClosedMakersReplace(book, makers, after[n], makers[n] + [t]);
    } else {
      ClosedMakersAppend(book, makers, Opened(t), [t]);
    }
  }

  /** Unless a trade is a SELL down to zero it leaves the last row open, or has bought back a short. */
  lemma ClosingTrade(trades: seq<Trade>)
    requires |trades| > 0 && AllExecutable(trades) && Replay(trades).Some?
    ensures var book := Replay(trades).value;
            && |book| > 0
            && (LastOpen(book) ==> !Closes(trades, |trades| - 1))
            && (!LastOpen(book) ==> Closes(trades, |trades| - 1) || ShortClosed(book[|book| - 1]))
  {
    hide ShortClosed;
    var n := |trades| - 1;
    var before, book := Replay(trades[..n]).value, Replay(trades).value;
    BookConservesQuantity(trades[..n]);
    BookConservesQuantity(trades);
    assert trades[..n + 1] == trades;
    LastRowAfter(before, trades[n]);
  }

  lemma LastRowAfter(before: seq<Position>, t: Trade)
    requires BookShape(before) && Executable(t) && BookStep(before, t).Some?
    ensures var book := BookStep(before, t).value;
            && |book| > 0
            && (!LastOpen(book) ==> BookHolding(book) == 0.0 && (t.action.Sell? || ShortClosed(book[|book| - 1])))
            && (LastOpen(book) ==> BookHolding(book) != 0.0)
  {
    BookStepConserves(before, t);
  }

  lemma {:induction false} RowsAfterLastClose(trades: seq<Trade>)
    requires AllExecutable(trades) && Replay(trades).Some? && NoShortClosed(Replay(trades).value)
    ensures Replay(trades[..LastClose(trades)]).Some?
    ensures NoShortClosed(Replay(trades[..LastClose(trades)]).value)
    ensures RowTrades(trades[..LastClose(trades)]) == RowTrades(trades)
  {
    hide BookStep, Closes, ShortClosed, ClosedMakers;
    if |trades| > 0 {
      var n := |trades| - 1;
      assert trades[..n + 1] == trades;
      ClosingTrade(trades);
      var book := Replay(trades).value;
      assert !ShortClosed(book[|book| - 1]);
      if !Closes(trades, n) {
        assert LastOpen(book);
        MakersMakeRows(trades[..n]);
        BookConservesQuantity(trades[..n]);
        ShortsStayClosed(Replay(trades[..n]).value, trades[n]);
        ClosedMakersStep(Replay(trades[..n]).value, Makers(trades[..n]), trades[n]);
        RowsAfterLastClose(trades[..n]);
        assert trades[..n][..LastClose(trades)] == trades[..LastClose(trades)];
      }
    }
  }

  lemma {:induction false} AllRowsClosed(book: seq<Position>, makers: seq<seq<Trade>>)
    requires |book| == |makers| && forall i | 0 <= i < |book| :: !book[i].open
    ensures ClosedMakers(book, makers) == makers
  {
    if |book| > 0 {
      AllRowsClosed(book[..|book| - 1], makers[..|book| - 1]);
    }
  }

  /** The closed rows were made by exactly the trades up to the last closing SELL. */
  lemma RowsHoldAll(trades: seq<Trade>)
    requires AllExecutable(trades) && Replay(trades).Some? && NoShortClosed(Replay(trades).value)
    ensures Joined(RowTrades(trades)) == trades[..LastClose(trades)]
  {
    hide Closes, LastClose;
    RowsAfterLastClose(trades);
    var upTo := trades[..LastClose(trades)];
    AtLastClose(trades);
    BookConservesQuantity(upTo);
    MakersMakeRows(upTo);
    MakersAreAll(upTo);
    FlatBookIsClosed(Replay(upTo).value);
    AllRowsClosed(Replay(upTo).value, Makers(upTo));
  }

  lemma FlatBookIsClosed(book: seq<Position>)
    requires BookShape(book) && BookHolding(book) == 0.0
    ensures forall i | 0 <= i < |book| :: !book[i].open
  {
  }

  // ---------- when each row meets its own trades ----------

  lemma {:induction false} EpisodesEndInSell(trades: seq<Trade>, i: nat)
    requires ScanAll(trades).Some? && i < |ScanAll(trades).value.episodes|
    ensures var e := ScanAll(trades).value.episodes[i]; |e.trades| > 0 && e.trades[|e.trades| - 1].action.Sell?
  {
    var n := |trades| - 1;
    if i < |ScanAll(trades[..n]).value.episodes| {
      EpisodesEndInSell(trades[..n], i);
    }
  }

  /** A short is bought back by a BUY. */
  lemma ShortEndsInBuy(trades: seq<Trade>, row: Position)
    requires Replay(trades) == Some([row]) && ShortClosed(row)
    ensures |trades| > 0 && !trades[|trades| - 1].action.Sell?
  {
    hide Gain, FeesKept, WeightedAverage, Replay;
    var before := LastStepOfRow(trades, row);
  }

  lemma {:induction false} ShortIsClosedMaker(book: seq<Position>, makers: seq<seq<Trade>>, i: nat) returns (j: nat)
    requires |book| == |makers| && i < |book| && ShortClosed(book[i])
    ensures j < |ClosedMakers(book, makers)| && ClosedMakers(book, makers)[j] == makers[i]
  {
    var n := |book| - 1;
    if i < n {
      j := ShortIsClosedMaker(book[..n], makers[..n], i);
    } else {
      j := |ClosedMakers(book[..n], makers[..n])|;
    }
  }

  lemma PairedHasNoShort(recorded: seq<Trade>, booked: seq<Trade>)
    requires Paired(recorded, booked)
    ensures NoShortClosed(Replay(booked).value)
  {
    hide ClosedMakers, ShortClosed;
    PassedEpisodes(recorded);
    MakersMakeRows(booked);
    var book, makers := Replay(booked).value, Makers(booked);
    forall i | 0 <= i < |book| ensures !ShortClosed(book[i]) {
      if ShortClosed(book[i]) {
        var j := ShortIsClosedMaker(book, makers, i);
        EpisodesEndInSell(recorded, j);
        ShortEndsInBuy(makers[i], book[i]);
        assert false;
      }
    }
  }

  lemma {:induction false} ClosedSameTrades(episodes: seq<Episode>, book: seq<Position>, makers: seq<seq<Trade>>)
    requires SameTrades(episodes, book, makers)
    ensures EpisodesHold(ClosedEpisodes(episodes), ClosedMakers(book, makers))
  {
    if |book| > 0 {
      var n := |book| - 1;
      ClosedSameTrades(episodes[..n], book[..n], makers[..n]);
    }
  }

  /** Of a ledger that is its own book. */
  lemma BookedIsPaired(trades: seq<Trade>)
    requires AllExecutable(trades) && Replay(trades).Some? && NoShortClosed(Replay(trades).value)
    ensures Paired(trades, trades)
  {
    EpisodesAreRows(trades);
    ClosedSameTrades(AllEpisodes(ScanAll(trades).value), Replay(trades).value, Makers(trades));
  }

  lemma {:induction false} HeldTogether(episodes: seq<Episode>, lists: seq<seq<Trade>>)
    requires EpisodesHold(episodes, lists)
    ensures Concatenated(episodes) == Joined(lists)
  {
    if |lists| > 0 {
      HeldTogether(episodes[..|lists| - 1], lists[..|lists| - 1]);
    }
  }

  /** Whatever has been recorded and whatever of it booked: each closed row meets the episode of its own
      trades exactly when no short was bought back and the same trades were recorded and booked up to the
      last SELL that returns each running quantity to zero. */
  lemma PairedExactly(recorded: seq<Trade>, booked: seq<Trade>)
    requires AllExecutable(recorded) && AllExecutable(booked) && Replay(booked).Some?
    ensures Paired(recorded, booked) <==>
            NoShortClosed(Replay(booked).value) &&
            recorded[..LastClose(recorded)] == booked[..LastClose(booked)]
  {
    hide NoShortClosed, LastClose, RowTrades, EpisodesHold, OnePass, ScanAll, Replay, ClosedEpisodes;
    PassedEpisodes(recorded);
    if Paired(recorded, booked) {
      PairedHasNoShort(recorded, booked);
      RowsHoldAll(booked);
      ClosedEpisodesHoldAll(recorded);
      HeldTogether(ScanAll(recorded).value.episodes, RowTrades(booked));
    }
    if NoShortClosed(Replay(booked).value) && recorded[..LastClose(recorded)] == booked[..LastClose(booked)] {
      var upTo := booked[..LastClose(booked)];
      RowsAfterLastClose(booked);
      BookedIsPaired(upTo);
      PassedEpisodes(upTo);
      PassAfterLastClose(recorded);
    }
  }

  /** And the numbers agree exactly when the closing SELLs recorded are as many as those booked and the
      shorts bought back together. */
  lemma CountsAgreeExactly(recorded: seq<Trade>, booked: seq<Trade>)
    requires AllExecutable(booked) && Replay(booked).Some? && OnePass(recorded).Some?
    ensures var book := Replay(booked).value;
            |ClosedEpisodes(OnePass(recorded).value)| == |ClosedRows(book)| <==>
            Closings(recorded) == Closings(booked) + ClosedShorts(book)
  {
    PassedEpisodes(recorded);
    PassCountsClosings(recorded);
    PassCountsLongs(booked);
    PassCountsClosings(booked);
    ClosedShortsCount(Replay(booked).value);
  }

  // ---------- what a pair means ----------

  /** Pairs a row with the trades that made it. */
  predicate MadeOf(row: Position, trades: seq<Trade>) {
    Replay(trades) == Some([row]) && !row.open && row.realizedPnl == Flow(trades, row.direction)
  }

  lemma {:induction false} ClosedRowsMade(book: seq<Position>, makers: seq<seq<Trade>>)
    requires MadeRows(book, makers) && forall i | 0 <= i < |makers| :: AllExecutable(makers[i])
    ensures var rows, lists := ClosedRows(book), ClosedMakers(book, makers);
            |rows| == |lists| && forall i | 0 <= i < |rows| :: MadeOf(rows[i], lists[i])
  {
    hide Replay, Flow, AllExecutable;
    if |book| > 0 {
      var n := |book| - 1;
      ClosedRowsMade(book[..n], makers[..n]);
      if !book[n].open {
        ClosedRowProfit(makers[n], book[n]);
      }
    }
  }

  /** Each closed row is the replay of its own trades, and its profit is their net flow. */
  lemma RowsAreMade(booked: seq<Trade>)
    requires AllExecutable(booked) && Replay(booked).Some?
    ensures var rows, lists := ClosedRows(Replay(booked).value), RowTrades(booked);
            |rows| == |lists| && forall i | 0 <= i < |rows| :: MadeOf(rows[i], lists[i])
  {
    MakersMakeRows(booked);
    MakersAreAll(booked);
    forall i | 0 <= i < |Makers(booked)| ensures AllExecutable(Makers(booked)[i]) {
      JoinedExecutable(Makers(booked), i);
    }
    ClosedRowsMade(Replay(booked).value, Makers(booked));
  }

  // ---------- a trade that was recorded and not booked, and its repetition ----------

  /** The trade sells all that is held. */
  predicate SellsOut(held: real, t: Trade) {
    t.action.Sell? && held == t.quantity
  }

  /** The trade sells half of what is held, so that selling it twice sells out. */
  predicate SellsHalf(held: real, t: Trade) {
    t.action.Sell? && held == 2.0 * t.quantity
  }

  lemma ClosesAppended(trades: seq<Trade>, t: Trade)
    ensures var closes := SellsOut(NetQuantity(trades), t);
            && Closings(trades + [t]) == Closings(trades) + (if closes then 1 else 0)
            && LastClose(trades + [t]) == if closes then |trades| + 1 else LastClose(trades)
  {
    var all := trades + [t];
    assert all[..|trades|] == trades && all[..|trades| + 1] == all;
    NetAppend(trades, t);
  }

  lemma TwoSteps(s: Scan, holding: real, t: Trade, again: Trade)
    requires Tracks(s, holding) && Executable(t) && Executable(again)
    requires t.action == again.action && t.quantity == again.quantity
    ensures ScanStep(s, t).Some? && ScanStep(ScanStep(s, t).value, again).Some?
  {
  }

  lemma PassesTwice(trades: seq<Trade>, t: Trade, again: Trade)
    requires AllExecutable(trades) && Replay(trades).Some? && Executable(t) && Executable(again)
    requires t.action == again.action && t.quantity == again.quantity
    ensures OnePass(trades + [t]).Some? && OnePass(trades + [t] + [again]).Some?
  {
    hide Tracks, ScanStep;
    PassCountsLongs(trades);
    TwoSteps(ScanAll(trades).value, BookHolding(Replay(trades).value), t, again);
    assert (trades + [t])[..|trades|] == trades;
    assert (trades + [t] + [again])[..|trades| + 1] == trades + [t];
  }

  lemma ExecutableAppend(trades: seq<Trade>, t: Trade)
    requires AllExecutable(trades) && Executable(t)
    ensures AllExecutable(trades + [t])
  {
  }

  /** One trade that was recorded and not booked. */
  lemma UnbookedExactly(trades: seq<Trade>, t: Trade)
    requires AllExecutable(trades) && Replay(trades).Some? && Executable(t)
    ensures var sellsOut := SellsOut(BookHolding(Replay(trades).value), t);
            && OnePass(trades + [t]).Some?
            && Closings(trades + [t]) == Closings(trades) + (if sellsOut then 1 else 0)
            && (Paired(trades + [t], trades) <==> NoShortClosed(Replay(trades).value) && !sellsOut)
  {
    hide Paired, NoShortClosed, Executable, Closings, LastClose, SellsOut, Replay, OnePass;
    BookConservesQuantity(trades);
    PassesTwice(trades, t, t);
    ExecutableAppend(trades, t);
    PairedExactly(trades + [t], trades);
    ClosesAppended(trades, t);
    assert (trades + [t])[..LastClose(trades)] == trades[..LastClose(trades)];
  }

  /** The same, repeated by a trade that was booked. */
  lemma RepeatedExactly(trades: seq<Trade>, t: Trade, again: Trade)
    requires AllExecutable(trades) && Replay(trades).Some? && Executable(t) && Executable(again) && t != again
    requires t.action == again.action && t.quantity == again.quantity && Replay(trades + [again]).Some?
    ensures var held := BookHolding(Replay(trades).value);
            var recorded, booked := trades + [t] + [again], trades + [again];
            && OnePass(recorded).Some?
            && Closings(recorded) == Closings(booked) + (if SellsHalf(held, t) then 1 else 0)
            && (Paired(recorded, booked) <==>
                NoShortClosed(Replay(booked).value) && !SellsOut(held, t) && !SellsHalf(held, t))
  {
    hide Paired, NoShortClosed, Executable, Closings, LastClose, Replay, OnePass;
    var recorded, booked := trades + [t] + [again], trades + [again];
    BookConservesQuantity(trades);
    PassesTwice(trades, t, again);
    ExecutableAppend(trades, t);
    ExecutableAppend(trades + [t], again);
    ExecutableAppend(trades, again);
    PairedExactly(recorded, booked);
    ClosesAppended(trades, t);
    ClosesAppended(trades + [t], again);
    ClosesAppended(trades, again);
    NetAppend(trades, t);
    TradeIsPositive(t);
    assert recorded[..LastClose(trades)] == trades[..LastClose(trades)] == booked[..LastClose(trades)];
    if SellsOut(NetQuantity(trades), t) {
      assert recorded[..|trades| + 1] == trades + [t] && booked[..|trades| + 1] == trades + [again];
      assert recorded[..|trades| + 1][|trades|] != booked[..|trades| + 1][|trades|];
    }
  }

  lemma TradeIsPositive(t: Trade)
    requires Executable(t)
    ensures t.quantity > 0.0
  {
  }

  /** Selling out closes the open long row. */
  lemma SellingOut(book: seq<Position>, t: Trade)
    requires BookShape(book) && Executable(t) && SellsOut(BookHolding(book), t)
    ensures LastOpen(book) && BookStep(book, t).Some? && !LastOpen(BookStep(book, t).value)
    ensures |BookStep(book, t).value| == |book|
    ensures NoShortClosed(book) ==> NoShortClosed(BookStep(book, t).value)
  {
  }

  lemma RowTradesAppend(trades: seq<Trade>, t: Trade)
    requires AllExecutable(trades) && Executable(t) && Replay(trades).Some?
    requires SellsOut(BookHolding(Replay(trades).value), t)
    ensures |Makers(trades)| == |Replay(trades).value| > 0 && Replay(trades + [t]).Some?
    ensures NoShortClosed(Replay(trades).value) ==> NoShortClosed(Replay(trades + [t]).value)
    ensures RowTrades(trades + [t]) == RowTrades(trades) + [Makers(trades)[|Makers(trades)| - 1] + [t]]
  {
    hide ClosedMakers, BookStep, NoShortClosed, BookShape, Executable, SellsOut, BookHolding, MadeRows;
    BookConservesQuantity(trades);
    MakersMakeRows(trades);
    SameLength(Replay(trades).value, Makers(trades));
    SellingOut(Replay(trades).value, t);
    ReplayAppend(trades, t);
    assert (trades + [t])[..|trades|] == trades;
    ClosedMakersStep(Replay(trades).value, Makers(trades), t);
  }

  /** Two sales of all that is held, of which only the second is booked: as many episodes as rows close,
      all but the last meet, and the last episode ends in the first sale where the last row was made by
      the second. */
  predicate Mispaired(recorded: seq<Trade>, booked: seq<Trade>, sold: Trade, resold: Trade) {
    && Replay(booked).Some? && OnePass(recorded).Some?
    && var closed, lists := ClosedEpisodes(OnePass(recorded).value), RowTrades(booked);
       var n := |lists| - 1;
       && |closed| == |lists| > 0 && EpisodesHold(closed[..n], lists[..n])
       && |lists[n]| > 0
       && var front := lists[n][..|lists[n]| - 1];
          closed[n].trades == front + [sold] && lists[n] == front + [resold]
  }

  lemma SoldTwice(trades: seq<Trade>, sold: Trade, resold: Trade)
    requires AllExecutable(trades) && Replay(trades).Some? && NoShortClosed(Replay(trades).value)
    requires Executable(sold) && Executable(resold) && Replay(trades + [resold]).Some?
    requires SellsOut(BookHolding(Replay(trades).value), sold) && SellsOut(sold.quantity, resold)
    ensures Mispaired(trades + [sold] + [resold], trades + [resold], sold, resold)
  {
    hide NoShortClosed, Executable, Closings, LastClose, Replay, OnePass, RowTrades, ScanAll, ScanStep, ClosedEpisodes;
    var recorded := trades + [sold] + [resold];
    RowTradesAppend(trades, sold);
    RowTradesAppend(trades, resold);
    ExecutableAppend(trades, sold);
    BookedIsPaired(trades + [sold]);
    PassesTwice(trades, sold, resold);
    PassedEpisodes(trades + [sold]);
    PassedEpisodes(recorded);
    assert recorded[..|recorded| - 1] == trades + [sold];
    LastStep(recorded);
    BookConservesQuantity(trades);
    NetAppend(trades, sold);
    NetAppend(trades + [sold], resold);
    assert recorded[..|recorded|] == recorded;
    TradeIsPositive(sold);
  }

  /** So the row's profit differs from its episode's flow by what the two sales brought in. */
  lemma MispairedProfit(recorded: seq<Trade>, booked: seq<Trade>, sold: Trade, resold: Trade)
    requires AllExecutable(booked) && Mispaired(recorded, booked, sold, resold)
    ensures var closed, rows := ClosedEpisodes(OnePass(recorded).value), ClosedRows(Replay(booked).value);
            && |closed| == |rows| > 0
            && var e, row := closed[|rows| - 1], rows[|rows| - 1];
               row.realizedPnl ==
               Flow(e.trades, row.direction) - NetFlow(sold, row.direction) + NetFlow(resold, row.direction)
  {
    hide OnePass, Replay, RowTrades, NetFlow;
    RowsAreMade(booked);
    var lists, rows := RowTrades(booked), ClosedRows(Replay(booked).value);
    var n := |lists| - 1;
    var front := lists[n][..|lists[n]| - 1];
    SideFlowAppend(front, sold, rows[n].direction);
    SideFlowAppend(front, resold, rows[n].direction);
  }

  lemma SideFlowAppend(trades: seq<Trade>, t: Trade, side: Direction)
    ensures Flow(trades + [t], side) == Flow(trades, side) + NetFlow(t, side)
  {
    assert (trades + [t])[..|trades|] == trades;
  }
}
