/** What a made report files: each closed row's profit, under the regime at the trade that opened the
    episode it is paired with. */
module OutcomeMeaning {
  import opened Options
  import opened Ledger
  import opened Gates
  import opened Submission
  import opened Books
  import opened Invariants
  import opened LedgerTheorems
  import opened Episodes
  import opened EpisodeBooks
  import opened Pairing
  import opened Attribution
  import P = Performance

  // ---------- where episodes open ----------

  /** How many trades there are up to the i-th SELL that returns the running quantity to zero. */
  function CloseEnd(trades: seq<Trade>, i: nat): (r: nat)
    ensures r <= |trades|
  {
    if |trades| == 0 then 0
    else
      var n := |trades| - 1;
      if Closes(trades, n) && Closings(trades) == i then n + 1 else CloseEnd(trades[..n], i)
  }

  lemma CloseOfFront(trades: seq<Trade>, n: nat, i: nat)
    requires i < n <= |trades|
    ensures Closes(trades[..n], i) == Closes(trades, i)
  {
    EventsOfPrefix(trades, n, i);
  }

  /** It is right behind that SELL, with as many such SELLs before it and a running quantity of zero. */
  lemma {:induction false} CloseEndExactly(trades: seq<Trade>, i: nat)
    requires i <= Closings(trades)
    ensures var b := CloseEnd(trades, i);
            && Closings(trades[..b]) == i && NetQuantity(trades[..b]) == 0.0
            && (if i == 0 then b == 0 else b > 0 && Closes(trades, b - 1))
  {
    hide Closes;
    if |trades| > 0 {
      var n := |trades| - 1;
      var b := CloseEnd(trades, i);
      if Closes(trades, n) && Closings(trades) == i {
        assert trades[..b] == trades;
        ClosesAtZero(trades);
      } else {
        CloseEndExactly(trades[..n], i);
        assert trades[..n][..b] == trades[..b];
        if i > 0 {
          CloseOfFront(trades, n, b - 1);
        }
      }
    }
  }

  lemma ClosesAtZero(trades: seq<Trade>)
    requires |trades| > 0 && Closes(trades, |trades| - 1)
    ensures NetQuantity(trades) == 0.0
  {
    assert trades[..|trades|] == trades;
  }

  /** The i-th closed episode opens with the trade right behind the SELL that closed the one before, and so
      does the current one. */
  lemma {:induction false} EpisodesOpenBehindCloses(trades: seq<Trade>)
    requires AllExecutable(trades) && ScanAll(trades).Some?
    ensures var s := ScanAll(trades).value;
            && |s.episodes| == Closings(trades)
            && (forall i | 0 <= i < |s.episodes| :: OpensBehind(trades, i, s.episodes[i]))
            && (if s.current.Some? then OpensBehind(trades, |s.episodes|, s.current.value)
                else CloseEnd(trades, |s.episodes|) == |trades|)
  {
    hide Closes, ScanStep, OpensBehind;
    PassCountsClosings(trades);
    if |trades| > 0 {
      var n := |trades| - 1;
      EpisodesOpenBehindCloses(trades[..n]);
      var before, after := ScanAll(trades[..n]).value, ScanAll(trades).value;
      LastStep(trades);
      ExtendsCurrent(before, trades[n]);
      forall i | 0 <= i < |before.episodes| ensures OpensBehind(trades, i, before.episodes[i]) {
        BehindLonger(trades, i, before.episodes[i]);
      }
      BehindLast(trades, before);
      if Closes(trades, n) {
        CloseEndLast(trades);
      }
    }
  }

  predicate OpensBehind(trades: seq<Trade>, i: nat, e: Episode) {
    && CloseEnd(trades, i) < |trades| && e.opening == trades[CloseEnd(trades, i)]
    && e.accountId == e.opening.accountId && e.symbol == e.opening.symbol
  }

  lemma BehindLonger(trades: seq<Trade>, i: nat, e: Episode)
    requires |trades| > 0 && OpensBehind(trades[..|trades| - 1], i, e) && i < Closings(trades[..|trades| - 1])
    ensures OpensBehind(trades, i, e)
  {
  }

  lemma ExtendsCurrent(s: Scan, t: Trade)
    requires Executable(t) && ScanStep(s, t).Some?
    ensures var after := ScanStep(s, t).value;
            if |after.episodes| > |s.episodes| then after.current.None?
            else after.current == Some(Extended(s.current, t))
  {
  }

  /** The trade joins the current episode or opens one. */
  lemma BehindLast(trades: seq<Trade>, before: Scan)
    requires |trades| > 0 && |before.episodes| == Closings(trades[..|trades| - 1])
    requires if before.current.Some? then OpensBehind(trades[..|trades| - 1], |before.episodes|, before.current.value)
             else CloseEnd(trades[..|trades| - 1], |before.episodes|) == |trades| - 1
    ensures var e := Extended(before.current, trades[|trades| - 1]);
            OpensBehind(trades, |before.episodes|, e) && OpensBehind(trades, |before.episodes|, e.(closed := true))
  {
    hide Closes;
  }

  lemma CloseEndLast(trades: seq<Trade>)
    requires |trades| > 0 && Closes(trades, |trades| - 1)
    ensures CloseEnd(trades, Closings(trades)) == |trades|
  {
  }

  /** The opening of the i-th closed episode is a BUY from a flat quantity, unless the ledger sold from flat
      there. */
  lemma OpeningBuys(trades: seq<Trade>, i: nat)
    requires AllExecutable(trades) && i <= Closings(trades) && CloseEnd(trades, i) < |trades|
    ensures var b := CloseEnd(trades, i); Starts(trades, b) || NetQuantity(trades[..b + 1]) < 0.0
  {
    CloseEndExactly(trades, i);
    var b := CloseEnd(trades, i);
    assert trades[..b + 1] == trades[..b] + [trades[b]];
    NetAppend(trades[..b], trades[b]);
    assert Executable(trades[b]);
  }

  // ---------- where rows close ----------

  predicate ClosedAt(rows: seq<Position>, account: string, symbol: string, j: nat) {
    j < |rows| && rows[j].accountId == account && rows[j].symbol == symbol && !rows[j].open
  }

  /** How many of the first `n` rows are closed ones of the account and symbol. */
  function ClosedAmong(rows: seq<Position>, n: nat, account: string, symbol: string): nat {
    |set i: nat | i < n && ClosedAt(rows, account, symbol, i)|
  }

  lemma ClosedStep(rows: seq<Position>, n: nat, account: string, symbol: string)
    ensures ClosedAmong(rows, n + 1, account, symbol) ==
            ClosedAmong(rows, n, account, symbol) + if ClosedAt(rows, account, symbol, n) then 1 else 0
  {
    hide ClosedAt;
    var before := set i: nat | i < n && ClosedAt(rows, account, symbol, i);
    var after := set i: nat | i < n + 1 && ClosedAt(rows, account, symbol, i);
    assert after == if ClosedAt(rows, account, symbol, n) then before + {n} else before;
  }

  lemma NoneAmong(rows: seq<Position>, account: string, symbol: string)
    ensures ClosedAmong(rows, 0, account, symbol) == 0
  {
    hide ClosedAt;
    assert (set i: nat | i < 0 && ClosedAt(rows, account, symbol, i)) == {};
  }

  lemma {:induction false} FiledInOrder(rows: seq<Position>, n: nat, account: string, symbol: string)
    requires n <= |rows|
    ensures var filed := Attribution.Listed(ClosedBySymbol(AccountRows(rows[..n], account)), symbol);
            && |filed| == ClosedAmong(rows, n, account, symbol)
            && forall j | 0 <= j < n && ClosedAt(rows, account, symbol, j) ::
                 ClosedAmong(rows, j, account, symbol) < |filed| &&
                 filed[ClosedAmong(rows, j, account, symbol)] == rows[j]
  {
    hide ClosedAmong;
    if n == 0 {
      NoneAmong(rows, account, symbol);
    } else {
      var mine := AccountRows(rows[..n - 1], account);
      FiledInOrder(rows, n - 1, account, symbol);
      ClosedStep(rows, n - 1, account, symbol);
      assert rows[..n][..n - 1] == rows[..n - 1];
      if rows[n - 1].accountId == account {
        ClosedBySymbolAppend(mine, rows[n - 1], symbol);
        assert AccountRows(rows[..n], account) == mine + [rows[n - 1]];
      } else {
        assert AccountRows(rows[..n], account) == mine;
      }
    }
  }

  // ---------- the outcomes ----------

  lemma {:induction false} ZippedAt(episodes: seq<Episode>, rows: seq<Position>, regimes: Regimes, i: nat)
    requires |episodes| == |rows| && i < |rows|
    ensures |Zipped(episodes, rows, regimes)| == |rows|
    ensures var opening := episodes[i].opening;
            Zipped(episodes, rows, regimes)[i] ==
            P.Outcome(regimes(opening.symbol, opening.executedAt), rows[i].realizedPnl)
  {
    var n := |rows| - 1;
    ZippedLength(episodes, rows, regimes);
    ZippedLength(episodes[..n], rows[..n], regimes);
    if i < n {
      ZippedAt(episodes[..n], rows[..n], regimes, i);
    }
  }

  /** What a closed row of the account is filed as: its profit, under the regime at the trade that follows as
      many closing SELLs of its symbol as there are closed rows before it. */
  predicate FiledAs(s: Store, account: string, regimes: Regimes, j: nat, o: P.Outcome)
    requires j < |s.positions|
  {
    var row := s.positions[j];
    var trades := TradesOf(s.trades, account, row.symbol);
    var b := CloseEnd(trades, ClosedAmong(s.positions, j, account, row.symbol));
    b < |trades| && o.regime == regimes(trades[b].symbol, trades[b].executedAt) && o.pnl == row.realizedPnl
  }

  /** The report of a symbol files exactly its closed rows, in table order: the i-th outcome is the i-th
      closed row's profit, under the regime at the trade that opened the i-th closed episode. */
  lemma OutcomesAreRows(s: Store, p: Policy, account: string, symbol: string, regimes: Regimes)
    requires Inv(s, p) && SymbolReport(s, account, symbol, regimes).Gathered?
    ensures var outcomes := SymbolReport(s, account, symbol, regimes).outcomes;
            && |outcomes| == ClosedAmong(s.positions, |s.positions|, account, symbol)
            && forall j | 0 <= j < |s.positions| && ClosedAt(s.positions, account, symbol, j) ::
                 ClosedAmong(s.positions, j, account, symbol) < |outcomes| &&
                 FiledAs(s, account, regimes, j, outcomes[ClosedAmong(s.positions, j, account, symbol)])
  {
    hide Inv, ScanAll, ClosedBySymbol, AccountRows, ClosedAmong, TradesOf, CloseEnd, Closings, Zipped, ClosedEpisodes;
    var trades, rows := TradesOf(s.trades, account, symbol), s.positions;
    BookOfSymbol(s, p, account, symbol);
    PassedEpisodes(trades);
    EpisodesOpenBehindCloses(trades);
    FiledInOrder(rows, |rows|, account, symbol);
    assert rows[..|rows|] == rows;
    var closed, filed := ClosedEpisodes(OnePass(trades).value), FiledRows(s, account, symbol);
    ZippedLength(closed, filed, regimes);
    forall j | 0 <= j < |rows| && ClosedAt(rows, account, symbol, j)
      ensures ClosedAmong(rows, j, account, symbol) < |filed|
      ensures FiledAs(s, account, regimes, j, Zipped(closed, filed, regimes)[ClosedAmong(rows, j, account, symbol)])
    {
      var i := ClosedAmong(rows, j, account, symbol);
      ZippedAt(closed, filed, regimes, i);
      assert OpensBehind(trades, i, closed[i]);
    }
  }

  // ---------- the account's statistics ----------

  /** The regime of a closed row. */
  function RegimeOf(s: Store, account: string, regimes: Regimes, j: nat): string
    requires j < |s.positions|
  {
    var trades := TradesOf(s.trades, account, s.positions[j].symbol);
    var b := CloseEnd(trades, ClosedAmong(s.positions, j, account, s.positions[j].symbol));
    if b < |trades| then regimes(trades[b].symbol, trades[b].executedAt) else ""
  }

  /** The profits of the account's closed rows among the first `n` whose symbol is listed and whose regime is
      this one. */
  function ProfitsUnder(
    s: Store, account: string, regimes: Regimes, regime: string, symbols: set<string>, n: nat): seq<real>
    requires n <= |s.positions|
  {
    if n == 0 then []
    else
      ProfitsUnder(s, account, regimes, regime, symbols, n - 1) +
      ProfitOf(s, account, regimes, regime, symbols, n - 1)
  }

  lemma {:induction false} SymbolProfits(
    s: Store, p: Policy, account: string, symbol: string, regimes: Regimes, regime: string, n: nat)
    requires Inv(s, p) && SymbolReport(s, account, symbol, regimes).Gathered? && n <= |s.positions|
    ensures var outcomes := SymbolReport(s, account, symbol, regimes).outcomes;
            var m := ClosedAmong(s.positions, n, account, symbol);
            m <= |outcomes| &&
            ProfitsUnder(s, account, regimes, regime, {symbol}, n) == P.ResultsOf(outcomes[..m], regime)
  {
    hide Inv, SymbolReport, ClosedAmong, TradesOf, CloseEnd;
    if n == 0 {
      NoneAmong(s.positions, account, symbol);
    } else {
      OutcomesAreRows(s, p, account, symbol, regimes);
      SymbolProfits(s, p, account, symbol, regimes, regime, n - 1);
      ClosedStep(s.positions, n - 1, account, symbol);
      var outcomes := SymbolReport(s, account, symbol, regimes).outcomes;
      var m := ClosedAmong(s.positions, n - 1, account, symbol);
      if ClosedAt(s.positions, account, symbol, n - 1) {
        assert outcomes[..m + 1][..m] == outcomes[..m];
        assert FiledAs(s, account, regimes, n - 1, outcomes[m]);
      }
    }
  }

  function ProfitOf(
    s: Store, account: string, regimes: Regimes, regime: string, symbols: set<string>, j: nat): seq<real>
    requires j < |s.positions|
  {
    var row := s.positions[j];
    if row.accountId == account && !row.open && row.symbol in symbols && RegimeOf(s, account, regimes, j) == regime
    then [row.realizedPnl] else []
  }

  lemma ProfitSplits(
    s: Store, account: string, regimes: Regimes, regime: string, symbols: set<string>, symbol: string, j: nat)
    requires symbol !in symbols && j < |s.positions|
    ensures var both, first, second := ProfitOf(s, account, regimes, regime, symbols + {symbol}, j),
                                       ProfitOf(s, account, regimes, regime, symbols, j),
                                       ProfitOf(s, account, regimes, regime, {symbol}, j);
            (both == first && second == []) || (both == second && first == [])
  {
    hide RegimeOf;
  }

  lemma Interleaved(a: seq<real>, b: seq<real>, both: seq<real>, x: seq<real>, y: seq<real>, z: seq<real>)
    requires multiset(both) == multiset(a) + multiset(b)
    requires (z == x && y == []) || (z == y && x == [])
    ensures multiset(both + z) == multiset(a + x) + multiset(b + y)
  {
    assert a + [] == a && b + [] == b;
  }

  lemma {:induction false} ProfitsSplit(
    s: Store, account: string, regimes: Regimes, regime: string, symbols: set<string>, symbol: string, n: nat)
    requires symbol !in symbols && n <= |s.positions|
    ensures multiset(ProfitsUnder(s, account, regimes, regime, symbols + {symbol}, n)) ==
            multiset(ProfitsUnder(s, account, regimes, regime, symbols, n)) +
            multiset(ProfitsUnder(s, account, regimes, regime, {symbol}, n))
  {
    hide ProfitOf;
    if n > 0 {
      ProfitsSplit(s, account, regimes, regime, symbols, symbol, n - 1);
      ProfitSplits(s, account, regimes, regime, symbols, symbol, n - 1);
      Interleaved(ProfitsUnder(s, account, regimes, regime, symbols, n - 1),
                  ProfitsUnder(s, account, regimes, regime, {symbol}, n - 1),
                  ProfitsUnder(s, account, regimes, regime, symbols + {symbol}, n - 1),
                  ProfitOf(s, account, regimes, regime, symbols, n - 1),
                  ProfitOf(s, account, regimes, regime, {symbol}, n - 1),
                  ProfitOf(s, account, regimes, regime, symbols + {symbol}, n - 1));
    }
  }

  lemma {:induction false} ResultsJoin(a: seq<P.Outcome>, b: seq<P.Outcome>, regime: string)
    ensures P.ResultsOf(a + b, regime) == P.ResultsOf(a, regime) + P.ResultsOf(b, regime)
  {
    if |b| == 0 {
      assert a + b == a;
    } else {
      var n := |b| - 1;
      assert (a + b)[..|a| + n] == a + b[..n];
      ResultsJoin(a, b[..n], regime);
    }
  }

  function SetOf(symbols: seq<string>): set<string> {
    set y | y in symbols
  }

  lemma {:induction false} NoSymbolProfits(s: Store, account: string, regimes: Regimes, regime: string, n: nat)
    requires n <= |s.positions|
    ensures ProfitsUnder(s, account, regimes, regime, {}, n) == []
  {
    if n > 0 {
      NoSymbolProfits(s, account, regimes, regime, n - 1);
    }
  }

  lemma {:induction false} GatheredResults(
    s: Store, p: Policy, account: string, symbols: seq<string>, regimes: Regimes, regime: string)
    requires Inv(s, p) && P.Distinct(symbols)
    requires GatherOver(s, account, symbols, regimes).Gathered?
    ensures multiset(P.ResultsOf(GatherOver(s, account, symbols, regimes).outcomes, regime)) ==
            multiset(ProfitsUnder(s, account, regimes, regime, SetOf(symbols), |s.positions|))
  {
    hide Inv, SymbolReport, OfSymbol, ClosedAmong, BySymbol, ClosedBySymbol, AccountTrades, AccountRows, ProfitsUnder;
    if |symbols| == 0 {
      NoSymbolProfits(s, account, regimes, regime, |s.positions|);
      assert SetOf(symbols) == {};
    } else {
      var n := |symbols| - 1;
      GatheredResults(s, p, account, symbols[..n], regimes, regime);
      LastGathered(s, account, symbols, regimes);
      var outcomes := SymbolReport(s, account, symbols[n], regimes).outcomes;
      ResultsJoin(GatherOver(s, account, symbols[..n], regimes).outcomes, outcomes, regime);
      OutcomesAreRows(s, p, account, symbols[n], regimes);
      SymbolProfits(s, p, account, symbols[n], regimes, regime, |s.positions|);
      assert outcomes[..|outcomes|] == outcomes;
      assert SetOf(symbols) == SetOf(symbols[..n]) + {symbols[n]};
      ProfitsSplit(s, account, regimes, regime, SetOf(symbols[..n]), symbols[n], |s.positions|);
    }
  }

  function GatherOver(s: Store, account: string, symbols: seq<string>, regimes: Regimes): Gathered {
    Gather(symbols, BySymbol(AccountTrades(s.trades, account)), ClosedBySymbol(AccountRows(s.positions, account)),
           regimes)
  }

  lemma LastGathered(s: Store, account: string, symbols: seq<string>, regimes: Regimes)
    requires |symbols| > 0 && GatherOver(s, account, symbols, regimes).Gathered?
    ensures var n := |symbols| - 1;
            && GatherOver(s, account, symbols[..n], regimes).Gathered?
            && SymbolReport(s, account, symbols[n], regimes).Gathered?
            && GatherOver(s, account, symbols, regimes).outcomes ==
               GatherOver(s, account, symbols[..n], regimes).outcomes +
               SymbolReport(s, account, symbols[n], regimes).outcomes
  {
    hide OfSymbol, BySymbol, ClosedBySymbol, AccountTrades, AccountRows;
    GroupIsBookTrades(s.trades, account, symbols[|symbols| - 1]);
  }

  /** The profits of the account's closed rows with this regime, in table order. */
  function ClosedUnder(s: Store, account: string, regimes: Regimes, regime: string, n: nat): seq<real>
    requires n <= |s.positions|
  {
    if n == 0 then []
    else
      var row := s.positions[n - 1];
      ClosedUnder(s, account, regimes, regime, n - 1) +
      if row.accountId == account && !row.open && RegimeOf(s, account, regimes, n - 1) == regime
      then [row.realizedPnl] else []
  }

  lemma {:induction false} AllSymbolsListed(
    s: Store, account: string, regimes: Regimes, regime: string, symbols: set<string>, n: nat)
    requires n <= |s.positions|
    requires forall i | 0 <= i < n && s.positions[i].accountId == account :: s.positions[i].symbol in symbols
    ensures ProfitsUnder(s, account, regimes, regime, symbols, n) == ClosedUnder(s, account, regimes, regime, n)
  {
    hide RegimeOf;
    if n > 0 {
      AllSymbolsListed(s, account, regimes, regime, symbols, n - 1);
    }
  }

  lemma TallyStep(pnls: seq<real>, x: real, y: real)
    ensures P.TallyOf(pnls + [x] + [y]) == P.TallyOf(pnls + [y] + [x])
  {
    P.TallyAppend(pnls + [x], y);
    P.TallyAppend(pnls, x);
    P.TallyAppend(pnls + [y], x);
    P.TallyAppend(pnls, y);
  }

  /** A result counts the same wherever it stands. */
  lemma {:induction false} TallyMovesLast(before: seq<real>, x: real, after: seq<real>)
    ensures P.TallyOf(before + [x] + after) == P.TallyOf(before + after + [x])
  {
    hide P.TallyOf;
    if |after| == 0 {
      assert before + [x] + after == before + after + [x];
    } else {
      var n := |after| - 1;
      var y := after[n];
      TallyMovesLast(before, x, after[..n]);
      assert before + [x] + after == before + [x] + after[..n] + [y];
      P.TallyAppend(before + [x] + after[..n], y);
      P.TallyAppend(before + after[..n] + [x], y);
      TallyStep(before + after[..n], x, y);
      assert before + after[..n] + [y] + [x] == before + after + [x];
    }
  }

  lemma {:induction false} TallyPermuted(a: seq<real>, b: seq<real>)
    requires multiset(a) == multiset(b)
    ensures P.TallyOf(a) == P.TallyOf(b)
  {
    hide P.TallyOf;
    assert |a| == |multiset(a)| == |b|;
    if |a| > 0 {
      var n := |a| - 1;
      assert a == a[..n] + [a[n]];
      assert a[n] in multiset(b);
      var i :| 0 <= i < |b| && b[i] == a[n];
      assert b == b[..i] + [b[i]] + b[i + 1..];
      assert multiset(a) == multiset(a[..n]) + multiset{a[n]};
      assert multiset(b) == multiset(b[..i] + b[i + 1..]) + multiset{b[i]};
      assert multiset(a[..n]) == multiset(a) - multiset{a[n]};
      assert multiset(b[..i] + b[i + 1..]) == multiset(b) - multiset{b[i]};
      TallyPermuted(a[..n], b[..i] + b[i + 1..]);
      TallyMovesLast(b[..i], b[i], b[i + 1..]);
      P.TallyAppend(a[..n], a[n]);
      P.TallyAppend(b[..i] + b[i + 1..], b[i]);
    } else {
      assert a == b;
    }
  }

  /** Whenever the report is made, the statistics of each regime are those of exactly the account's closed
      rows that were opened under it. */
  lemma StatisticsTallyRows(
    s: Store, p: Policy, accounts: map<string, Account>, account: string, regimes: Regimes,
    outcomes: seq<P.Outcome>, statistics: map<string, P.Statistics>, regime: string)
    requires Reachable(s, p, accounts)
    requires GatherAccount(s, account, regimes) == Gathered(outcomes) && P.ReportsEachRegime(statistics, outcomes)
    ensures var pnls := ClosedUnder(s, account, regimes, regime, |s.positions|);
            && (regime in statistics <==> pnls != [])
            && (regime in statistics ==> statistics[regime] == P.TallyOf(pnls))
  {
    hide Inv, Reachable, AccountTrades, Symbols, Gather, ProfitsUnder, ClosedUnder, P.TallyOf, P.ResultsOf,
         P.Labels, RegimeOf;
    ReachableInv(s, p, accounts);
    var symbols := Symbols(AccountTrades(s.trades, account));
    SymbolsDistinct(AccountTrades(s.trades, account));
    forall i | 0 <= i < |s.positions| && s.positions[i].accountId == account
      ensures s.positions[i].symbol in SetOf(symbols)
    {
      RowSymbolIsTraded(s, p, account, i);
    }
    AllSymbolsListed(s, account, regimes, regime, SetOf(symbols), |s.positions|);
    GatheredResults(s, p, account, symbols, regimes, regime);
    var results, pnls := P.ResultsOf(outcomes, regime), ClosedUnder(s, account, regimes, regime, |s.positions|);
    TallyPermuted(results, pnls);
    LabelHasResults(outcomes, regime);
    assert |multiset(results)| == |results| && |multiset(pnls)| == |pnls|;
  }

  lemma {:induction false} LabelHasResults(outcomes: seq<P.Outcome>, regime: string)
    ensures regime in P.Labels(outcomes) <==> P.ResultsOf(outcomes, regime) != []
  {
    if |outcomes| > 0 {
      LabelHasResults(outcomes[..|outcomes| - 1], regime);
    }
  }
}
