/** Performance per market regime: closed episodes of the trade ledger zipped with closed position
    rows, guarded on equal counts. */
module Attribution {
  import opened Options
  import opened Ledger
  import opened Gates
  import opened Submission
  import opened Books
  import opened Invariants
  import opened LedgerTheorems
  import opened Episodes
  import opened EpisodeBooks
  import opened Pairing
  import P = Performance

  datatype Gathered =
    | Gathered(outcomes: seq<P.Outcome>)
    | PassFailed(symbol: string)
    | CountMismatch(symbol: string)

  datatype Report =
    | AccountMissing
    | Stopped(why: Gathered)
    | Ready(outcomes: seq<P.Outcome>, statistics: map<string, P.Statistics>)

  /** The regime label of a symbol at a moment. */
  type Regimes = (string, int) -> string

  // ---------- the queries and dictionaries ----------

  function Listed<T>(groups: map<string, seq<T>>, symbol: string): seq<T> {
    if symbol in groups then groups[symbol] else []
  }

  function BySymbol(ledger: seq<Trade>): map<string, seq<Trade>> {
    if |ledger| == 0 then map[]
    else
      var n := |ledger| - 1;
      var earlier := BySymbol(ledger[..n]);
      earlier[ledger[n].symbol := Listed(earlier, ledger[n].symbol) + [ledger[n]]]
  }

  function Symbols(ledger: seq<Trade>): seq<string> {
    if |ledger| == 0 then []
    else
      var n := |ledger| - 1;
      var earlier := Symbols(ledger[..n]);
      if ledger[n].symbol in earlier then earlier else earlier + [ledger[n].symbol]
  }

  function ClosedBySymbol(rows: seq<Position>): map<string, seq<Position>> {
    if |rows| == 0 then map[]
    else
      var n := |rows| - 1;
      var earlier := ClosedBySymbol(rows[..n]);
      if rows[n].open then earlier else earlier[rows[n].symbol := Listed(earlier, rows[n].symbol) + [rows[n]]]
  }

  /** One outcome per pair: the regime at the episode's opening and the row's realized profit. */
  function Zipped(episodes: seq<Episode>, rows: seq<Position>, regimes: Regimes): seq<P.Outcome>
    requires |episodes| == |rows|
  {
    if |rows| == 0 then []
    else
      var n := |rows| - 1;
      Zipped(episodes[..n], rows[..n], regimes) +
      [P.Outcome(regimes(episodes[n].opening.symbol, episodes[n].opening.executedAt), rows[n].realizedPnl)]
  }

  /** What one symbol contributes. */
  function OfSymbol(symbol: string, trades: seq<Trade>, rows: seq<Position>, regimes: Regimes): Gathered {
    match OnePass(trades)
    case None => PassFailed(symbol)
    case Some(episodes) =>
      if |ClosedEpisodes(episodes)| != |rows| then CountMismatch(symbol)
      else Gathered(Zipped(ClosedEpisodes(episodes), rows, regimes))
  }

  /** Symbol after symbol; the first failure stops. */
  function Gather(
    symbols: seq<string>, trades: map<string, seq<Trade>>, rows: map<string, seq<Position>>, regimes: Regimes): Gathered
  {
    if |symbols| == 0 then Gathered([])
    else
      var n := |symbols| - 1;
      var earlier := Gather(symbols[..n], trades, rows, regimes);
      if !earlier.Gathered? then earlier
      else
        var next := OfSymbol(symbols[n], Listed(trades, symbols[n]), Listed(rows, symbols[n]), regimes);
        if next.Gathered? then Gathered(earlier.outcomes + next.outcomes) else next
  }

  function GatherAccount(s: Store, account: string, regimes: Regimes): Gathered {
    var ledger := AccountTrades(s.trades, account);
    Gather(Symbols(ledger), BySymbol(ledger), ClosedBySymbol(AccountRows(s.positions, account)), regimes)
  }

  // ---------- the service ----------

  method GroupTrades(ledger: seq<Trade>) returns (groups: map<string, seq<Trade>>, order: seq<string>)
    ensures groups == BySymbol(ledger) && order == Symbols(ledger)
  {
    groups, order := map[], [];
    for i := 0 to |ledger|
      invariant groups == BySymbol(ledger[..i]) && order == Symbols(ledger[..i])
    {
      assert ledger[..i + 1][..i] == ledger[..i];
      var t := ledger[i];
      KeysAreSymbols(ledger[..i], t.symbol);
      if t.symbol !in groups {
        groups, order := groups[t.symbol := []], order + [t.symbol];
      }
      groups := groups[t.symbol := groups[t.symbol] + [t]];
    }
    assert ledger[..|ledger|] == ledger;
  }

  method GroupClosedRows(rows: seq<Position>) returns (groups: map<string, seq<Position>>)
    ensures groups == ClosedBySymbol(rows)
  {
    groups := map[];
    for i := 0 to |rows|
      invariant groups == ClosedBySymbol(rows[..i])
    {
      assert rows[..i + 1][..i] == rows[..i];
      if !rows[i].open {
        groups := groups[rows[i].symbol := Listed(groups, rows[i].symbol) + [rows[i]]];
      }
    }
    assert rows[..|rows|] == rows;
  }

  method SymbolOutcomes(symbol: string, trades: seq<Trade>, rows: seq<Position>, regimes: Regimes) returns (r: Gathered)
    ensures r == OfSymbol(symbol, trades, rows, regimes)
  {
    var episodes := ReplayEpisodes(trades);
    if episodes.None? {
      return PassFailed(symbol);
    }
    var closed := ClosedEpisodes(episodes.value);
    if |closed| != |rows| {
      return CountMismatch(symbol);
    }
    var outcomes: seq<P.Outcome> := [];
    for i := 0 to |closed|
      invariant outcomes == Zipped(closed[..i], rows[..i], regimes)
    {
      assert closed[..i + 1][..i] == closed[..i] && rows[..i + 1][..i] == rows[..i];
      outcomes := outcomes +
        [P.Outcome(regimes(closed[i].opening.symbol, closed[i].opening.executedAt), rows[i].realizedPnl)];
    }
    assert closed[..|closed|] == closed && rows[..|closed|] == rows;
    return Gathered(outcomes);
  }

  method PerformanceByRegime(s: Store, account: string, regimes: Regimes) returns (r: Report)
    ensures r.AccountMissing? <==> account !in s.accounts
    ensures r.Stopped? ==> r.why == GatherAccount(s, account, regimes) && !r.why.Gathered?
    ensures r.Ready? ==> GatherAccount(s, account, regimes) == Gathered(r.outcomes)
    ensures r.Ready? ==> P.ReportsEachRegime(r.statistics, r.outcomes)
  {
    hide OfSymbol, BySymbol, ClosedBySymbol, Symbols, AccountTrades, AccountRows, P.ReportsEachRegime;
    if account !in s.accounts {
      return AccountMissing;
    }
    var groups, order := GroupTrades(AccountTrades(s.trades, account));
    var closed := GroupClosedRows(AccountRows(s.positions, account));
    var outcomes: seq<P.Outcome> := [];
    for i := 0 to |order|
      invariant Gather(order[..i], groups, closed, regimes) == Gathered(outcomes)
    {
      assert order[..i + 1][..i] == order[..i];
      var next := SymbolOutcomes(order[i], Listed(groups, order[i]), Listed(closed, order[i]), regimes);
      if !next.Gathered? {
        GatherStops(order, i + 1, groups, closed, regimes);
        return Stopped(next);
      }
      outcomes := outcomes + next.outcomes;
    }
    assert order[..|order|] == order;
    var statistics := P.RegimePerformance(outcomes);
    return Ready(outcomes, statistics);
  }

  lemma {:induction false} GatherStops(
    symbols: seq<string>, i: nat, trades: map<string, seq<Trade>>, rows: map<string, seq<Position>>, regimes: Regimes)
    requires i <= |symbols| && !Gather(symbols[..i], trades, rows, regimes).Gathered?
    ensures Gather(symbols, trades, rows, regimes) == Gather(symbols[..i], trades, rows, regimes)
  {
    if i < |symbols| {
      var n := |symbols| - 1;
      assert symbols[..n][..i] == symbols[..i];
      GatherStops(symbols[..n], i, trades, rows, regimes);
    } else {
      assert symbols[..i] == symbols;
    }
  }

  // ---------- the dictionaries hold the books ----------

  lemma {:induction false} KeysAreSymbols(ledger: seq<Trade>, symbol: string)
    ensures symbol in BySymbol(ledger) <==> symbol in Symbols(ledger)
  {
    if |ledger| > 0 {
      KeysAreSymbols(ledger[..|ledger| - 1], symbol);
      KeysAreSymbols(ledger[..|ledger| - 1], ledger[|ledger| - 1].symbol);
    }
  }

  lemma BySymbolAppend(ledger: seq<Trade>, t: Trade)
    ensures BySymbol(ledger + [t]) == BySymbol(ledger)[t.symbol := Listed(BySymbol(ledger), t.symbol) + [t]]
  {
    assert (ledger + [t])[..|ledger|] == ledger;
  }

  /** The trades grouped under a symbol are that book's trades, in order. */
  lemma {:induction false} GroupIsBookTrades(trades: seq<Trade>, account: string, symbol: string)
    ensures Listed(BySymbol(AccountTrades(trades, account)), symbol) == TradesOf(trades, account, symbol)
  {
    if |trades| > 0 {
      var n := |trades| - 1;
      var earlier := AccountTrades(trades[..n], account);
      GroupIsBookTrades(trades[..n], account, symbol);
      if trades[n].accountId == account {
        BySymbolAppend(earlier, trades[n]);
      } else {
        assert AccountTrades(trades, account) == earlier;
      }
    }
  }

  predicate SamePlainRows(rows: seq<Position>, plain: seq<Position>) {
    |rows| == |plain| && forall i | 0 <= i < |rows| :: Plain(rows[i]) == plain[i]
  }

  lemma ClosedBySymbolAppend(rows: seq<Position>, p: Position, symbol: string)
    ensures Listed(ClosedBySymbol(rows + [p]), symbol) ==
            Listed(ClosedBySymbol(rows), symbol) + if !p.open && p.symbol == symbol then [p] else []
  {
    assert (rows + [p])[..|rows|] == rows;
  }

  lemma SamePlainAppend(rows: seq<Position>, plain: seq<Position>, p: Position, take: bool)
    requires SamePlainRows(rows, plain)
    ensures SamePlainRows(rows + if take then [p] else [], plain + if take then [Plain(p)] else [])
  {
  }

  /** The rows grouped under a symbol are that book's closed rows, in order. */
  lemma {:induction false} GroupIsClosedBook(rows: seq<Position>, account: string, symbol: string)
    ensures SamePlainRows(Listed(ClosedBySymbol(AccountRows(rows, account)), symbol),
                          ClosedRows(RowsOf(rows, account, symbol)))
  {
    if |rows| > 0 {
      var n := |rows| - 1;
      var mine, book := AccountRows(rows[..n], account), RowsOf(rows[..n], account, symbol);
      GroupIsClosedBook(rows[..n], account, symbol);
      if rows[n].accountId != account {
        assert AccountRows(rows, account) == mine && RowsOf(rows, account, symbol) == book;
      } else {
        ClosedBySymbolAppend(mine, rows[n], symbol);
        ClosedRowsAppend(book, Plain(rows[n]));
        if rows[n].symbol != symbol {
          assert RowsOf(rows, account, symbol) == book;
        }
        SamePlainAppend(Listed(ClosedBySymbol(mine), symbol), ClosedRows(book), rows[n],
                        !rows[n].open && rows[n].symbol == symbol);
      }
    }
  }

  // ---------- one symbol: what was recorded and what was booked ----------

  /** The closed rows the service files under a symbol. */
  function FiledRows(s: Store, account: string, symbol: string): seq<Position> {
    Listed(ClosedBySymbol(AccountRows(s.positions, account)), symbol)
  }

  /** What the service gets for one symbol of an account. */
  function SymbolReport(s: Store, account: string, symbol: string, regimes: Regimes): Gathered {
    OfSymbol(symbol, TradesOf(s.trades, account, symbol), FiledRows(s, account, symbol), regimes)
  }

  /** Each filed row meets the closed episode of the trades that made it. */
  predicate RowsPaired(s: Store, account: string, symbol: string) {
    Paired(TradesOf(s.trades, account, symbol), TradesOf(s.positionLog, account, symbol))
  }

  lemma BookOfSymbol(s: Store, p: Policy, account: string, symbol: string)
    requires Inv(s, p)
    ensures var recorded, booked := TradesOf(s.trades, account, symbol), TradesOf(s.positionLog, account, symbol);
            AllExecutable(recorded) && AllExecutable(booked) &&
            Replay(booked) == Some(RowsOf(s.positions, account, symbol))
  {
    LogTradesExecutable(s.trades, s.trades, account, symbol);
    LogTradesExecutable(s.positionLog, s.trades, account, symbol);
    assert BookOk(s, account, symbol);
  }

  /** Whether a symbol is reported is decided by the pass and two counts. */
  lemma ReportByCounts(s: Store, p: Policy, account: string, symbol: string, regimes: Regimes)
    requires Inv(s, p)
    ensures var recorded, booked := TradesOf(s.trades, account, symbol), TradesOf(s.positionLog, account, symbol);
            var r := SymbolReport(s, account, symbol, regimes);
            var agree := Closings(recorded) == Closings(booked) + ClosedShorts(RowsOf(s.positions, account, symbol));
            && (r == PassFailed(symbol) <==> OnePass(recorded).None?)
            && (r == CountMismatch(symbol) <==> OnePass(recorded).Some? && !agree)
            && (r.Gathered? <==> OnePass(recorded).Some? && agree)
  {
    hide Inv, Replay, RowsOf, TradesOf, OnePass, ClosedEpisodes, ClosedRows, Closings, ClosedShorts, Zipped,
         ClosedBySymbol;
    BookOfSymbol(s, p, account, symbol);
    GroupIsClosedBook(s.positions, account, symbol);
    if OnePass(TradesOf(s.trades, account, symbol)).Some? {
      CountsAgreeExactly(TradesOf(s.trades, account, symbol), TradesOf(s.positionLog, account, symbol));
    }
  }

  /** What a pair means: the row is what its episode's trades make, and its profit is their net flow. */
  lemma PairsAreMade(s: Store, p: Policy, account: string, symbol: string, regimes: Regimes)
    requires Inv(s, p) && RowsPaired(s, account, symbol)
    ensures var rows := FiledRows(s, account, symbol);
            var closed := ClosedEpisodes(OnePass(TradesOf(s.trades, account, symbol)).value);
            && SymbolReport(s, account, symbol, regimes).Gathered? && |closed| == |rows|
            && forall i | 0 <= i < |rows| :: MadeOf(Plain(rows[i]), closed[i].trades)
  {
    hide Inv, Replay, RowsOf, TradesOf, OnePass, ClosedEpisodes, ClosedRows, RowTrades, Zipped, MadeOf, ClosedBySymbol;
    BookOfSymbol(s, p, account, symbol);
    GroupIsClosedBook(s.positions, account, symbol);
    RowsAreMade(TradesOf(s.positionLog, account, symbol));
  }

  /** In every reachable state, for every account and symbol, whatever calls were cut off: the pass fails
      exactly when a recorded SELL closes with no opening time known; else the guard fires exactly when the
      closing SELLs recorded differ in number from those booked and the shorts bought back together; and
      each filed row meets the episode of its own trades exactly when no short was bought back and the same
      trades were recorded and booked up to the last closing SELL of each. */
  lemma ReportExactly(
    s: Store, p: Policy, accounts: map<string, Account>, account: string, symbol: string, regimes: Regimes)
    requires Reachable(s, p, accounts)
    ensures var recorded, booked := TradesOf(s.trades, account, symbol), TradesOf(s.positionLog, account, symbol);
            var r, book := SymbolReport(s, account, symbol, regimes), RowsOf(s.positions, account, symbol);
            var fails := exists j | 0 <= j < |recorded| :: Closes(recorded, j) && !Timed(recorded, j);
            && (r == PassFailed(symbol) <==> fails)
            && (r == CountMismatch(symbol) <==> !fails && Closings(recorded) != Closings(booked) + ClosedShorts(book))
            && (RowsPaired(s, account, symbol) <==>
                NoShortClosed(book) && recorded[..LastClose(recorded)] == booked[..LastClose(booked)])
            && (RowsPaired(s, account, symbol) ==> r.Gathered?)
  {
    hide Inv, RowsOf, TradesOf, OnePass, SymbolReport, NoShortClosed, RowsPaired, Reachable, Closes, Timed;
    ReachableInv(s, p, accounts);
    PassFailsExactly(TradesOf(s.trades, account, symbol));
    ReportByCounts(s, p, account, symbol, regimes);
    PairedExactlyFor(s, p, account, symbol);
    if RowsPaired(s, account, symbol) {
      PairsAreMade(s, p, account, symbol, regimes);
    }
  }

  lemma PairedExactlyFor(s: Store, p: Policy, account: string, symbol: string)
    requires Inv(s, p)
    ensures var recorded, booked := TradesOf(s.trades, account, symbol), TradesOf(s.positionLog, account, symbol);
            RowsPaired(s, account, symbol) <==>
            NoShortClosed(RowsOf(s.positions, account, symbol)) &&
            recorded[..LastClose(recorded)] == booked[..LastClose(booked)]
  {
    hide Inv, Replay, RowsOf, TradesOf, NoShortClosed, Paired;
    BookOfSymbol(s, p, account, symbol);
    PairedExactly(TradesOf(s.trades, account, symbol), TradesOf(s.positionLog, account, symbol));
  }

  // ---------- where every recorded trade was booked ----------

  /** The symbol's recorded trades have all had their position effect. */
  predicate Booked(s: Store, account: string, symbol: string) {
    TradesOf(s.positionLog, account, symbol) == TradesOf(s.trades, account, symbol)
  }

  lemma SymbolBooked(s: Store, p: Policy, account: string, symbol: string)
    requires Inv(s, p) && AccountBooked(s, account)
    ensures Booked(s, account, symbol)
  {
    hide Inv, IsPart, TradesOf;
    LogIsPart(s, p);
    BookedTrades(s.trades, s.positionLog, account, symbol);
  }

  /** Then the guard fires for the symbol exactly when a short of it has been bought back, and otherwise
      each row meets its own episode. */
  lemma BookedReport(s: Store, p: Policy, account: string, symbol: string, regimes: Regimes)
    requires Inv(s, p) && Booked(s, account, symbol)
    ensures var r := SymbolReport(s, account, symbol, regimes);
            var fires := ClosedShorts(RowsOf(s.positions, account, symbol)) != 0;
            && (r == CountMismatch(symbol) <==> fires) && (r.Gathered? <==> !fires)
            && (RowsPaired(s, account, symbol) <==> !fires)
            && (fires <==> !NoShortClosed(RowsOf(s.positions, account, symbol)))
  {
    hide Inv, Replay, RowsOf, TradesOf, NoShortClosed, RowsPaired, SymbolReport, ClosedShorts;
    BookOfSymbol(s, p, account, symbol);
    PassCountsLongs(TradesOf(s.trades, account, symbol));
    ClosedShortsCount(RowsOf(s.positions, account, symbol));
    ReportByCounts(s, p, account, symbol, regimes);
    PairedExactlyFor(s, p, account, symbol);
  }

  /** The same for one symbol of any reachable state. */
  lemma GuardExactly(
    s: Store, p: Policy, accounts: map<string, Account>, account: string, symbol: string, regimes: Regimes)
    requires Reachable(s, p, accounts) && Booked(s, account, symbol)
    ensures var r, book := SymbolReport(s, account, symbol, regimes), RowsOf(s.positions, account, symbol);
            && (r == CountMismatch(symbol) <==> exists i | 0 <= i < |book| :: !book[i].open && book[i].direction.Short?)
            && (r.Gathered? <==> r != CountMismatch(symbol))
            && (r.Gathered? <==> RowsPaired(s, account, symbol))
  {
    hide Inv, Booked, RowsOf, SymbolReport, RowsPaired;
    ReachableInv(s, p, accounts);
    BookedReport(s, p, account, symbol, regimes);
  }

  /** No row of the account is a short that was bought back. */
  predicate NoAccountShortClosed(rows: seq<Position>, account: string) {
    forall i | 0 <= i < |rows| :: rows[i].accountId == account ==> !ShortClosed(rows[i])
  }

  lemma NoShortInBook(rows: seq<Position>, account: string, symbol: string)
    requires NoAccountShortClosed(rows, account)
    ensures NoShortClosed(RowsOf(rows, account, symbol))
  {
    var book := RowsOf(rows, account, symbol);
    forall j | 0 <= j < |book| ensures !ShortClosed(book[j]) {
      var i := BookRowInTable(rows, account, symbol, j);
      assert !ShortClosed(rows[i]);
    }
  }

  lemma ShortInBook(rows: seq<Position>, i: nat)
    requires i < |rows| && ShortClosed(rows[i])
    ensures !NoShortClosed(RowsOf(rows, rows[i].accountId, rows[i].symbol))
  {
    RowInBook(rows, i, rows[i].accountId, rows[i].symbol);
    var book := RowsOf(rows, rows[i].accountId, rows[i].symbol);
    var j :| 0 <= j < |book| && book[j] == Plain(rows[i]);
    assert ShortClosed(book[j]);
  }

  lemma AccountGuardOfInv(s: Store, p: Policy, account: string, regimes: Regimes)
    requires Inv(s, p) && AccountBooked(s, account)
    ensures var r := GatherAccount(s, account, regimes);
            && (r.Gathered? || r.CountMismatch?)
            && (r.Gathered? <==> NoAccountShortClosed(s.positions, account))
  {
    hide Inv, AccountBooked, NoShortClosed, NoAccountShortClosed, RowsOf, TradesOf, SymbolReport, GatherAccount,
         RowsPaired;
    AccountReportExactly(s, account, regimes);
    forall symbol
      ensures var r := SymbolReport(s, account, symbol, regimes);
              (r.Gathered? || r.CountMismatch?) &&
              (r.Gathered? <==> NoShortClosed(RowsOf(s.positions, account, symbol)))
    {
      SymbolBooked(s, p, account, symbol);
      BookedReport(s, p, account, symbol, regimes);
    }
    if NoAccountShortClosed(s.positions, account) {
      forall symbol ensures NoShortClosed(RowsOf(s.positions, account, symbol)) {
        NoShortInBook(s.positions, account, symbol);
      }
    } else {
      var symbol := SomeShortClosed(s, p, account);
    }
  }

  lemma SomeShortClosed(s: Store, p: Policy, account: string) returns (symbol: string)
    requires Inv(s, p) && !NoAccountShortClosed(s.positions, account)
    ensures |TradesOf(s.trades, account, symbol)| > 0 && !NoShortClosed(RowsOf(s.positions, account, symbol))
  {
    var j :| 0 <= j < |s.positions| && s.positions[j].accountId == account && ShortClosed(s.positions[j]);
    symbol := s.positions[j].symbol;
    RowSymbolIsTraded(s, p, account, j);
    TradedSymbols(s, account, symbol);
    ShortInBook(s.positions, j);
  }

  /** In every reachable state, for every account whose trades were all booked: the report is made exactly
      when the account has never bought back a short; otherwise the guard stops it, and nothing else does. */
  lemma AccountGuardExactly(
    s: Store, p: Policy, accounts: map<string, Account>, account: string, regimes: Regimes)
    requires Reachable(s, p, accounts) && AccountBooked(s, account)
    ensures var r := GatherAccount(s, account, regimes);
            && (r.Gathered? || r.CountMismatch?)
            && (r.Gathered? <==> forall i | 0 <= i < |s.positions| && s.positions[i].accountId == account ::
                                   s.positions[i].open || s.positions[i].direction.Long?)
  {
    ReachableInv(s, p, accounts);
    AccountGuardOfInv(s, p, account, regimes);
  }

  lemma LongRowsOnly(s: Store, p: Policy, account: string)
    requires Inv(s, p) && !MayShort(s, p, account)
    ensures NoAccountShortClosed(s.positions, account)
  {
  }

  /** So it never fires for an account that cannot short. */
  lemma GuardNeverFires(s: Store, p: Policy, accounts: map<string, Account>, account: string, regimes: Regimes)
    requires Reachable(s, p, accounts) && AccountBooked(s, account) && !MayShort(s, p, account)
    ensures GatherAccount(s, account, regimes).Gathered?
  {
    ReachableInv(s, p, accounts);
    LongRowsOnly(s, p, account);
    AccountGuardOfInv(s, p, account, regimes);
  }

  // ---------- after a call that was cut off ----------

  /** The call was cut off between its trade and its position update. */
  predicate Unbooked(k: nat) {
    TRADED <= k < POSITIONED
  }

  /** So was a SELL of a long holding of `times` its quantity. */
  predicate AbortedSale(s: Store, c: Call, k: nat, times: real) {
    var open := OpenPosition(s.positions, c.accountId, c.symbol);
    Unbooked(k) && c.action.Sell? && open.Some? && open.value.direction.Long?
    && open.value.quantity == times * c.quantity
  }

  /** It sold the whole holding. */
  predicate AbortedClose(s: Store, c: Call, k: nat) {
    AbortedSale(s, c, k, 1.0)
  }

  /** It sold half of it. */
  predicate AbortedHalf(s: Store, c: Call, k: nat) {
    AbortedSale(s, c, k, 2.0)
  }

  lemma CutOffTables(s: Store, p: Policy, c: Call, k: nat)
    requires k <= Limit(s, p, c)
    ensures var after, t := Partial(s, p, c, k), TradeOf(s, p, c);
            && after.trades == (if k >= TRADED then s.trades + [t] else s.trades)
            && after.positionLog == (if k >= POSITIONED then s.positionLog + [t] else s.positionLog)
            && (k < POSITIONED ==> after.positions == s.positions)
  {
    hide Refusal;
  }

  lemma TradeFields(s: Store, p: Policy, c: Call)
    ensures var t := TradeOf(s, p, c);
            && t.tradeId == |s.trades| && t.accountId == c.accountId && t.symbol == c.symbol
            && t.action == c.action && t.quantity == c.quantity
  {
  }

  lemma TradeExecutable(s: Store, p: Policy, c: Call, k: nat)
    requires TRADED <= k <= Limit(s, p, c)
    ensures Refusal(s, p, c).None? && c.quantity > 0.0 && Executable(TradeOf(s, p, c))
  {
    OrderRowOk(s, p, c, k);
    PassedGates(s, p, c);
  }

  lemma HoldingIs(s: Store, p: Policy, account: string, symbol: string, quantity: real)
    requires Inv(s, p) && quantity > 0.0
    ensures var open := OpenPosition(s.positions, account, symbol);
            BookHolding(RowsOf(s.positions, account, symbol)) == quantity <==>
            open.Some? && open.value.direction.Long? && open.value.quantity == quantity
  {
    hide OrdersOk, KeysOk, CashOk, LongOk, ValueOk, RowsOf, OpenPosition, Replay, TradesOf, BookHolding;
    assert BookOk(s, account, symbol);
    BookOfState(s, account, symbol);
    OpenIsBookEnd(s.positions, account, symbol);
  }

  lemma AbortedSaleSells(s: Store, p: Policy, c: Call, k: nat)
    requires Inv(s, p) && Unbooked(k) && c.quantity > 0.0
    ensures var held, t := BookHolding(RowsOf(s.positions, c.accountId, c.symbol)), TradeOf(s, p, c);
            (SellsOut(held, t) <==> AbortedClose(s, c, k)) && (SellsHalf(held, t) <==> AbortedHalf(s, c, k))
  {
    hide Inv, RowsOf, OpenPosition, BookHolding;
    TradeFields(s, p, c);
    HoldingIs(s, p, c.accountId, c.symbol, c.quantity);
    HoldingIs(s, p, c.accountId, c.symbol, 2.0 * c.quantity);
  }

  /** Where the cut-off call booked what it recorded, its symbol stays booked. */
  lemma StaysBooked(s: Store, p: Policy, c: Call, k: nat)
    requires Booked(s, c.accountId, c.symbol) && k <= Limit(s, p, c) && !Unbooked(k)
    ensures Booked(Partial(s, p, c, k), c.accountId, c.symbol)
  {
    hide TradesOf, Limit, Partial, TradeOf;
    CutOffTables(s, p, c, k);
    TradesOfAppend(s.trades, TradeOf(s, p, c), c.accountId, c.symbol);
    TradesOfAppend(s.positionLog, TradeOf(s, p, c), c.accountId, c.symbol);
  }

  /** For every account and wherever the call is cut off: the guard fires for its symbol exactly when the
      shorts bought back and the closing sale left unbooked differ in number, and each row meets its own
      episode exactly when there is neither. */
  lemma CutOffGuardExactly(s: Store, p: Policy, c: Call, k: nat, regimes: Regimes)
    requires Inv(s, p) && Booked(s, c.accountId, c.symbol) && k <= Limit(s, p, c)
    ensures var after := Partial(s, p, c, k);
            var r := SymbolReport(after, c.accountId, c.symbol, regimes);
            var shorts := ClosedShorts(RowsOf(after.positions, c.accountId, c.symbol));
            var fires := shorts != if AbortedClose(s, c, k) then 1 else 0;
            && (r == CountMismatch(c.symbol) <==> fires) && (r.Gathered? <==> !fires)
            && (RowsPaired(after, c.accountId, c.symbol) <==> shorts == 0 && !AbortedClose(s, c, k))
  {
    hide Inv, Refusal, Limit, Partial, RowsOf, TradesOf, ClosedShorts, NoShortClosed, BookHolding, SymbolReport,
         OpenPosition, OnePass, Replay, Paired, Closings, SellsOut, SellsHalf, TradeOf, Executable;
    var after := Partial(s, p, c, k);
    SubmissionKeepsInv(s, p, c, k);
    if Unbooked(k) {
      var t, trades := TradeOf(s, p, c), TradesOf(s.trades, c.accountId, c.symbol);
      CutOffTables(s, p, c, k);
      TradeExecutable(s, p, c, k);
      TradeFields(s, p, c);
      BookOfSymbol(s, p, c.accountId, c.symbol);
      TradesOfAppend(s.trades, t, c.accountId, c.symbol);
      AbortedSaleSells(s, p, c, k);
      UnbookedExactly(trades, t);
      ReportByCounts(after, p, c.accountId, c.symbol, regimes);
      ClosedShortsCount(RowsOf(s.positions, c.accountId, c.symbol));
    } else {
      StaysBooked(s, p, c, k);
      BookedReport(after, p, c.accountId, c.symbol, regimes);
    }
  }

  lemma NoShortsAfter(s: Store, p: Policy, account: string, symbol: string)
    requires Inv(s, p) && !MayShort(s, p, account)
    ensures ClosedShorts(RowsOf(s.positions, account, symbol)) == 0
  {
    hide Inv, ClosedShorts, NoShortClosed, NoAccountShortClosed;
    LongRowsOnly(s, p, account);
    NoShortInBook(s.positions, account, symbol);
    ClosedShortsCount(RowsOf(s.positions, account, symbol));
  }

  /** For an account that cannot short: exactly when the call sells out its position and was cut off
      between its trade and its position update. */
  lemma AbortedSaleTripsGuardExactly(s: Store, p: Policy, c: Call, k: nat, regimes: Regimes)
    requires Inv(s, p) && Booked(s, c.accountId, c.symbol) && k <= Limit(s, p, c) && !MayShort(s, p, c.accountId)
    ensures var open := OpenPosition(s.positions, c.accountId, c.symbol);
            SymbolReport(Partial(s, p, c, k), c.accountId, c.symbol, regimes) == CountMismatch(c.symbol) <==>
            TRADED <= k < POSITIONED && c.action.Sell? && open.Some? && open.value.quantity == c.quantity
  {
    hide Inv, Refusal, Limit, Partial, SymbolReport, RowsOf, ClosedShorts, OpenPosition, Booked, MayShort, RowsPaired;
    SubmissionKeepsInv(s, p, c, k);
    MayShortKept(s, p, c, k, c.accountId);
    NoShortsAfter(Partial(s, p, c, k), p, c.accountId, c.symbol);
    OpenRowIsLong(s, p, c.accountId, c.symbol);
    CutOffGuardExactly(s, p, c, k, regimes);
  }

  // ---------- and was then retried ----------

  /** The second call asks for what the first one asked for. */
  predicate Repeats(c: Call, retry: Call) {
    retry.accountId == c.accountId && retry.symbol == c.symbol &&
    retry.action == c.action && retry.quantity == c.quantity
  }

  lemma DoneTables(s: Store, p: Policy, c: Call, writes: nat)
    requires Result(s, p, c, writes).Done?
    ensures FullLength(c) == Limit(s, p, c) && After(s, p, c, writes) == Partial(s, p, c, FullLength(c))
    ensures Executable(TradeOf(s, p, c))
  {
    hide Refusal;
    if Refusal(s, p, c).None? {
      OrderRowOk(s, p, c, Limit(s, p, c));
    }
  }

  /** What the two calls recorded and booked. */
  lemma RetriedTrades(s: Store, p: Policy, c: Call, k: nat, retry: Call, writes: nat)
    requires Inv(s, p) && Booked(s, c.accountId, c.symbol) && k <= Limit(s, p, c) && Repeats(c, retry)
    requires Result(Partial(s, p, c, k), p, retry, writes).Done?
    ensures var between := Partial(s, p, c, k);
            var after := After(between, p, retry, writes);
            var t, again := TradeOf(s, p, c), TradeOf(between, p, retry);
            var trades := TradesOf(s.trades, c.accountId, c.symbol);
            && Inv(between, p) && Inv(after, p)
            && (!Unbooked(k) ==> Booked(after, c.accountId, c.symbol))
            && (Unbooked(k) ==>
                  && Executable(t) && Executable(again) && c.quantity > 0.0 && t != again
                  && TradesOf(after.trades, c.accountId, c.symbol) == trades + [t] + [again]
                  && TradesOf(after.positionLog, c.accountId, c.symbol) == trades + [again])
  {
    hide Inv, Refusal, Limit, Partial, Result, After, TradesOf, TradeOf, Executable;
    var between := Partial(s, p, c, k);
    SubmissionKeepsInv(s, p, c, k);
    DoneTables(between, p, retry, writes);
    SubmissionKeepsInv(between, p, retry, FullLength(retry));
    CutOffTables(s, p, c, k);
    CutOffTables(between, p, retry, FullLength(retry));
    TradeFields(s, p, c);
    TradeFields(between, p, retry);
    if Unbooked(k) {
      var t, again := TradeOf(s, p, c), TradeOf(between, p, retry);
      TradeExecutable(s, p, c, k);
      TradesOfAppend(s.trades, t, c.accountId, c.symbol);
      TradesOfAppend(s.trades + [t], again, c.accountId, c.symbol);
      TradesOfAppend(s.positionLog, again, c.accountId, c.symbol);
    } else {
      StaysBooked(s, p, c, k);
      StaysBooked(between, p, retry, FullLength(retry));
    }
  }

  /** For every account, after any call cut off anywhere and then repeated to completion: the guard fires
      exactly when the shorts bought back and the sale of half the holding left unbooked differ in number,
      and each row meets its own episode exactly when there is none of these and no unbooked sale of the
      whole holding either. */
  lemma RetriedCallExactly(s: Store, p: Policy, c: Call, k: nat, retry: Call, writes: nat, regimes: Regimes)
    requires Inv(s, p) && Booked(s, c.accountId, c.symbol) && k <= Limit(s, p, c) && Repeats(c, retry)
    requires Result(Partial(s, p, c, k), p, retry, writes).Done?
    ensures var after := After(Partial(s, p, c, k), p, retry, writes);
            var r := SymbolReport(after, c.accountId, c.symbol, regimes);
            var shorts := ClosedShorts(RowsOf(after.positions, c.accountId, c.symbol));
            var fires := shorts != if AbortedHalf(s, c, k) then 1 else 0;
            && (r == CountMismatch(c.symbol) <==> fires) && (r.Gathered? <==> !fires)
            && (RowsPaired(after, c.accountId, c.symbol) <==>
                shorts == 0 && !AbortedHalf(s, c, k) && !AbortedClose(s, c, k))
  {
    hide Inv, Refusal, Limit, Partial, Result, After, RowsOf, TradesOf, TradeOf, ClosedShorts,
         NoShortClosed, BookHolding,
         SymbolReport, OpenPosition, OnePass, Replay, Paired, Closings, SellsOut, SellsHalf, Executable, AllExecutable;
    var between := Partial(s, p, c, k);
    var after := After(between, p, retry, writes);
    RetriedTrades(s, p, c, k, retry, writes);
    if Unbooked(k) {
      var t, again := TradeOf(s, p, c), TradeOf(between, p, retry);
      TradeFields(s, p, c);
      TradeFields(between, p, retry);
      BookOfSymbol(s, p, c.accountId, c.symbol);
      BookOfSymbol(after, p, c.accountId, c.symbol);
      AbortedSaleSells(s, p, c, k);
      RepeatedExactly(TradesOf(s.trades, c.accountId, c.symbol), t, again);
      ReportByCounts(after, p, c.accountId, c.symbol, regimes);
      ClosedShortsCount(RowsOf(after.positions, c.accountId, c.symbol));
    } else {
      BookedReport(after, p, c.accountId, c.symbol, regimes);
    }
  }

  /** For an account that cannot short only the two unbooked sales are left: half the holding stops the
      report, the whole mispairs it. */
  lemma RetriedSpotCallExactly(s: Store, p: Policy, c: Call, k: nat, retry: Call, writes: nat, regimes: Regimes)
    requires Inv(s, p) && Booked(s, c.accountId, c.symbol) && k <= Limit(s, p, c) && Repeats(c, retry)
    requires Result(Partial(s, p, c, k), p, retry, writes).Done? && !MayShort(s, p, c.accountId)
    ensures var after := After(Partial(s, p, c, k), p, retry, writes);
            var r := SymbolReport(after, c.accountId, c.symbol, regimes);
            && (r == CountMismatch(c.symbol) <==> AbortedHalf(s, c, k)) && (r.Gathered? <==> !AbortedHalf(s, c, k))
            && (RowsPaired(after, c.accountId, c.symbol) <==> !AbortedHalf(s, c, k) && !AbortedClose(s, c, k))
  {
    hide Inv, Refusal, Limit, Partial, Result, SymbolReport, RowsOf, ClosedShorts, Booked, MayShort, RowsPaired,
         AbortedHalf, AbortedClose;
    var between := Partial(s, p, c, k);
    RetriedTrades(s, p, c, k, retry, writes);
    DoneTables(between, p, retry, writes);
    MayShortKept(s, p, c, k, c.accountId);
    MayShortKept(between, p, retry, FullLength(retry), c.accountId);
    NoShortsAfter(After(between, p, retry, writes), p, c.accountId, c.symbol);
    RetriedCallExactly(s, p, c, k, retry, writes, regimes);
  }

  /** A sale of the whole holding, cut off before its position update and then retried to completion: the
      last filed row was made by the retry and meets the episode that the unbooked sale ended, so that its
      profit and that episode's flow differ by what the two sales brought in. */
  lemma RetriedSaleMispairs(s: Store, p: Policy, c: Call, k: nat, retry: Call, writes: nat)
    requires Inv(s, p) && Booked(s, c.accountId, c.symbol) && k <= Limit(s, p, c) && Repeats(c, retry)
    requires AbortedClose(s, c, k) && NoShortClosed(RowsOf(s.positions, c.accountId, c.symbol))
    requires Result(Partial(s, p, c, k), p, retry, writes).Done?
    ensures var between := Partial(s, p, c, k);
            var after := After(between, p, retry, writes);
            var sold, resold := TradeOf(s, p, c), TradeOf(between, p, retry);
            var recorded, rows := TradesOf(after.trades, c.accountId, c.symbol),
                FiledRows(after, c.accountId, c.symbol);
            && Mispaired(recorded, TradesOf(after.positionLog, c.accountId, c.symbol), sold, resold)
            && var closed := ClosedEpisodes(OnePass(recorded).value);
               && |closed| == |rows| > 0
               && var e, row := closed[|rows| - 1], rows[|rows| - 1];
                  row.realizedPnl ==
                  Flow(e.trades, row.direction) - NetFlow(sold, row.direction) + NetFlow(resold, row.direction)
  {
    hide Inv, Refusal, Limit, Partial, After, Result, RowsOf, TradesOf, NoShortClosed, BookHolding, OpenPosition,
         OnePass, Replay, Closings, ClosedBySymbol, AccountRows, Flow, NetFlow, ClosedRows, TradeOf,
         SellsOut, SellsHalf,
         ClosedEpisodes, Mispaired, Executable, AllExecutable;
    var between := Partial(s, p, c, k);
    var after := After(between, p, retry, writes);
    var sold, resold := TradeOf(s, p, c), TradeOf(between, p, retry);
    RetriedTrades(s, p, c, k, retry, writes);
    TradeFields(s, p, c);
    TradeFields(between, p, retry);
    AbortedSaleSells(s, p, c, k);
    BookOfSymbol(s, p, c.accountId, c.symbol);
    BookOfSymbol(after, p, c.accountId, c.symbol);
    SoldAgain(sold, resold);
    SoldTwice(TradesOf(s.trades, c.accountId, c.symbol), sold, resold);
    var booked := TradesOf(after.positionLog, c.accountId, c.symbol);
    MispairedProfit(TradesOf(after.trades, c.accountId, c.symbol), booked, sold, resold);
    GroupIsClosedBook(after.positions, c.accountId, c.symbol);
  }

  lemma SoldAgain(sold: Trade, resold: Trade)
    requires sold.action == resold.action && sold.quantity == resold.quantity
    ensures sold.action.Sell? ==> SellsOut(sold.quantity, resold)
    ensures forall held :: SellsOut(held, sold) ==> sold.action.Sell?
  {
  }

  // ---------- the whole account's report ----------

  /** The report of all the listed symbols is made exactly when each one's is; otherwise it is that of the
      first that is not made. */
  lemma {:induction false} GatherIsFirstFailure(s: Store, account: string, symbols: seq<string>, regimes: Regimes)
    ensures var r := Gather(symbols, BySymbol(AccountTrades(s.trades, account)),
                            ClosedBySymbol(AccountRows(s.positions, account)), regimes);
            if r.Gathered? then forall i | 0 <= i < |symbols| :: SymbolReport(s, account, symbols[i], regimes).Gathered?
            else FirstFailure(s, account, symbols, regimes, r)
  {
    hide OfSymbol, BySymbol, ClosedBySymbol, AccountTrades, AccountRows, FirstFailure;
    if |symbols| > 0 {
      var n := |symbols| - 1;
      GatherIsFirstFailure(s, account, symbols[..n], regimes);
      GroupIsBookTrades(s.trades, account, symbols[n]);
      assert forall i | 0 <= i < n :: symbols[..n][i] == symbols[i];
      var earlier := Gather(symbols[..n], BySymbol(AccountTrades(s.trades, account)),
                            ClosedBySymbol(AccountRows(s.positions, account)), regimes);
      if earlier.Gathered? {
        LastFails(s, account, symbols, regimes);
      } else {
        FailsLonger(s, account, symbols, regimes, earlier);
      }
    }
  }

  /** `r` is what the first of the symbols that cannot be reported gives. */
  predicate FirstFailure(s: Store, account: string, symbols: seq<string>, regimes: Regimes, r: Gathered) {
    exists i | 0 <= i < |symbols| :: FailsFirst(s, account, symbols, regimes, i) &&
                                    r == SymbolReport(s, account, symbols[i], regimes)
  }

  predicate FailsFirst(s: Store, account: string, symbols: seq<string>, regimes: Regimes, i: nat)
    requires i < |symbols|
  {
    && !SymbolReport(s, account, symbols[i], regimes).Gathered?
    && forall j | 0 <= j < i :: SymbolReport(s, account, symbols[j], regimes).Gathered?
  }

  lemma LastFails(s: Store, account: string, symbols: seq<string>, regimes: Regimes)
    requires |symbols| > 0
    requires forall j | 0 <= j < |symbols| - 1 :: SymbolReport(s, account, symbols[j], regimes).Gathered?
    ensures var last := SymbolReport(s, account, symbols[|symbols| - 1], regimes);
            !last.Gathered? ==> FirstFailure(s, account, symbols, regimes, last)
  {
    hide SymbolReport;
    assert !SymbolReport(s, account, symbols[|symbols| - 1], regimes).Gathered? ==>
           FailsFirst(s, account, symbols, regimes, |symbols| - 1);
  }

  lemma FailsLonger(s: Store, account: string, symbols: seq<string>, regimes: Regimes, r: Gathered)
    requires |symbols| > 0 && FirstFailure(s, account, symbols[..|symbols| - 1], regimes, r)
    ensures FirstFailure(s, account, symbols, regimes, r)
  {
    hide SymbolReport;
    var front := symbols[..|symbols| - 1];
    var i :| 0 <= i < |front| && FailsFirst(s, account, front, regimes, i) &&
             r == SymbolReport(s, account, front[i], regimes);
    assert forall j | 0 <= j <= i :: front[j] == symbols[j];
    assert FailsFirst(s, account, symbols, regimes, i);
  }

  /** In any state at all: the account's report is made exactly when that of every symbol it has traded is,
      and is otherwise the error of the first of them, in order of first trade, that is not. */
  lemma AccountReportExactly(s: Store, account: string, regimes: Regimes)
    ensures var r := GatherAccount(s, account, regimes);
            && (r.Gathered? <==> forall symbol | |TradesOf(s.trades, account, symbol)| > 0 ::
                                   SymbolReport(s, account, symbol, regimes).Gathered?)
            && (!r.Gathered? ==> FirstFailure(s, account, Symbols(AccountTrades(s.trades, account)), regimes, r))
  {
    hide SymbolReport, Gather, BySymbol, ClosedBySymbol, AccountTrades, AccountRows, TradesOf, Symbols;
    var symbols := Symbols(AccountTrades(s.trades, account));
    GatherIsFirstFailure(s, account, symbols, regimes);
    forall symbol ensures symbol in symbols <==> |TradesOf(s.trades, account, symbol)| > 0 {
      TradedSymbols(s, account, symbol);
    }
    if !GatherAccount(s, account, regimes).Gathered? {
      var i :| 0 <= i < |symbols| && FailsFirst(s, account, symbols, regimes, i) &&
               GatherAccount(s, account, regimes) == SymbolReport(s, account, symbols[i], regimes);
      assert symbols[i] in symbols;
    }
  }

  lemma {:induction false} GroupsNotEmpty(ledger: seq<Trade>, symbol: string)
    ensures symbol in BySymbol(ledger) ==> |BySymbol(ledger)[symbol]| > 0
  {
    if |ledger| > 0 {
      GroupsNotEmpty(ledger[..|ledger| - 1], symbol);
    }
  }

  lemma TradedSymbols(s: Store, account: string, symbol: string)
    ensures symbol in Symbols(AccountTrades(s.trades, account)) <==> |TradesOf(s.trades, account, symbol)| > 0
  {
    hide Symbols, AccountTrades, TradesOf, BySymbol;
    var ledger := AccountTrades(s.trades, account);
    GroupIsBookTrades(s.trades, account, symbol);
    KeysAreSymbols(ledger, symbol);
    GroupsNotEmpty(ledger, symbol);
  }

  // ---------- the report adds up to the account's realized profit ----------

  function ClosedProfit(rows: seq<Position>, account: string): real {
    if |rows| == 0 then 0.0
    else
      var n := |rows| - 1;
      ClosedProfit(rows[..n], account) + if rows[n].accountId == account && !rows[n].open then rows[n].realizedPnl
          else 0.0
  }

  function ProfitOf(rows: seq<Position>): real {
    if |rows| == 0 then 0.0 else ProfitOf(rows[..|rows| - 1]) + rows[|rows| - 1].realizedPnl
  }

  /** Profit of the closed rows filed under the listed symbols. */
  function ProfitUnder(symbols: seq<string>, groups: map<string, seq<Position>>): real {
    if |symbols| == 0 then 0.0
    else ProfitUnder(symbols[..|symbols| - 1], groups) + ProfitOf(Listed(groups, symbols[|symbols| - 1]))
  }

  lemma {:induction false} ResultsConcat(a: seq<P.Outcome>, b: seq<P.Outcome>)
    ensures Sum(P.AllResults(a + b)) == Sum(P.AllResults(a)) + Sum(P.AllResults(b))
  {
    if |b| == 0 {
      assert a + b == a;
    } else {
      var n := |b| - 1;
      assert (a + b)[..|a| + n] == a + b[..n];
      ResultsConcat(a, b[..n]);
      SumAppend(P.AllResults(a + b[..n]), b[n].pnl);
      SumAppend(P.AllResults(b[..n]), b[n].pnl);
    }
  }

  lemma {:induction false} ZippedProfit(episodes: seq<Episode>, rows: seq<Position>, regimes: Regimes)
    requires |episodes| == |rows|
    ensures Sum(P.AllResults(Zipped(episodes, rows, regimes))) == ProfitOf(rows)
  {
    if |rows| > 0 {
      var n := |rows| - 1;
      ZippedProfit(episodes[..n], rows[..n], regimes);
      var earlier := Zipped(episodes[..n], rows[..n], regimes);
      var last := P.Outcome(regimes(episodes[n].opening.symbol, episodes[n].opening.executedAt), rows[n].realizedPnl);
      assert (earlier + [last])[..n] == earlier by { ZippedLength(episodes[..n], rows[..n], regimes); }
      ZippedLength(episodes[..n], rows[..n], regimes);
      SumAppend(P.AllResults(earlier), last.pnl);
    }
  }

  lemma {:induction false} ZippedLength(episodes: seq<Episode>, rows: seq<Position>, regimes: Regimes)
    requires |episodes| == |rows|
    ensures |Zipped(episodes, rows, regimes)| == |rows|
  {
    if |rows| > 0 {
      ZippedLength(episodes[..|rows| - 1], rows[..|rows| - 1], regimes);
    }
  }

  lemma {:induction false} GatheredProfit(
    symbols: seq<string>, trades: map<string, seq<Trade>>, rows: map<string, seq<Position>>, regimes: Regimes)
    requires Gather(symbols, trades, rows, regimes).Gathered?
    ensures Sum(P.AllResults(Gather(symbols, trades, rows, regimes).outcomes)) == ProfitUnder(symbols, rows)
  {
    if |symbols| > 0 {
      var n := |symbols| - 1;
      GatheredProfit(symbols[..n], trades, rows, regimes);
      var mine := Listed(trades, symbols[n]);
      var closed := ClosedEpisodes(OnePass(mine).value);
      ZippedProfit(closed, Listed(rows, symbols[n]), regimes);
      ResultsConcat(Gather(symbols[..n], trades, rows, regimes).outcomes,
          Zipped(closed, Listed(rows, symbols[n]), regimes));
    }
  }

  lemma {:induction false} ProfitUnderAppend(symbols: seq<string>, rows: seq<Position>, p: Position)
    requires P.Distinct(symbols)
    ensures ProfitUnder(symbols, ClosedBySymbol(rows + [p])) ==
            ProfitUnder(symbols, ClosedBySymbol(rows)) + if !p.open && p.symbol in symbols then p.realizedPnl else 0.0
  {
    hide ClosedBySymbol;
    if |symbols| > 0 {
      var n := |symbols| - 1;
      ProfitUnderAppend(symbols[..n], rows, p);
      ClosedBySymbolAppend(rows, p, symbols[n]);
      var mine := Listed(ClosedBySymbol(rows), symbols[n]);
      assert (mine + [p])[..|mine|] == mine && mine + [] == mine;
      assert symbols == symbols[..n] + [symbols[n]];
    }
  }

  lemma {:induction false} ProfitUnderNothing(symbols: seq<string>)
    ensures ProfitUnder(symbols, map[]) == 0.0
  {
    if |symbols| > 0 {
      ProfitUnderNothing(symbols[..|symbols| - 1]);
    }
  }

  /** Every closed row of the account is filed under exactly one of its symbols. */
  lemma {:induction false} ProfitIsFiled(symbols: seq<string>, rows: seq<Position>, account: string)
    requires P.Distinct(symbols)
    requires forall i | 0 <= i < |rows| :: rows[i].accountId == account ==> rows[i].symbol in symbols
    ensures ProfitUnder(symbols, ClosedBySymbol(AccountRows(rows, account))) == ClosedProfit(rows, account)
  {
    if |rows| == 0 {
      ProfitUnderNothing(symbols);
    } else {
      var n := |rows| - 1;
      var mine := AccountRows(rows[..n], account);
      ProfitIsFiled(symbols, rows[..n], account);
      if rows[n].accountId == account {
        ProfitUnderAppend(symbols, mine, rows[n]);
      } else {
        assert AccountRows(rows, account) == mine;
      }
    }
  }

  /** The first trade of its symbol. */
  predicate FirstOfSymbol(ledger: seq<Trade>, k: nat) {
    k < |ledger| && forall j | 0 <= j < k :: ledger[j].symbol != ledger[k].symbol
  }

  function SymbolsBefore(ledger: seq<Trade>, n: nat): nat {
    |set k: nat | k < n && FirstOfSymbol(ledger, k)|
  }

  lemma SymbolsBeforeStep(ledger: seq<Trade>, n: nat)
    ensures SymbolsBefore(ledger, 0) == 0
    ensures SymbolsBefore(ledger, n + 1) == SymbolsBefore(ledger, n) + if FirstOfSymbol(ledger, n) then 1 else 0
  {
    hide FirstOfSymbol;
    assert (set k: nat | k < 0 && FirstOfSymbol(ledger, k)) == {};
    var before := set k: nat | k < n && FirstOfSymbol(ledger, k);
    var after := set k: nat | k < n + 1 && FirstOfSymbol(ledger, k);
    assert after == if FirstOfSymbol(ledger, n) then before + {n} else before;
  }

  /** The symbols are listed once each, in the order of their first trades. */
  lemma {:induction false} SymbolsInOrder(ledger: seq<Trade>, n: nat)
    requires n <= |ledger|
    ensures |Symbols(ledger[..n])| == SymbolsBefore(ledger, n)
    ensures forall k: nat | k < n && FirstOfSymbol(ledger, k) ::
              SymbolsBefore(ledger, k) < |Symbols(ledger[..n])| &&
              Symbols(ledger[..n])[SymbolsBefore(ledger, k)] == ledger[k].symbol
  {
    hide SymbolsBefore, FirstOfSymbol;
    SymbolsBeforeStep(ledger, if n == 0 then 0 else n - 1);
    if n > 0 {
      SymbolsInOrder(ledger, n - 1);
      assert ledger[..n][..n - 1] == ledger[..n - 1];
      ListedOnceTraded(ledger, n - 1);
    }
  }

  lemma ListedOnceTraded(ledger: seq<Trade>, n: nat)
    requires n < |ledger|
    ensures ledger[n].symbol !in Symbols(ledger[..n]) <==> FirstOfSymbol(ledger, n)
  {
    SymbolsTraded(ledger[..n], ledger[n].symbol);
  }

  lemma {:induction false} SymbolsTraded(ledger: seq<Trade>, symbol: string)
    ensures symbol in Symbols(ledger) <==> exists j | 0 <= j < |ledger| :: ledger[j].symbol == symbol
  {
    if |ledger| > 0 {
      var n := |ledger| - 1;
      SymbolsTraded(ledger[..n], symbol);
      assert forall j | 0 <= j < n :: ledger[..n][j] == ledger[j];
    }
  }

  lemma {:induction false} SymbolsDistinct(ledger: seq<Trade>)
    ensures P.Distinct(Symbols(ledger))
  {
    if |ledger| > 0 {
      SymbolsDistinct(ledger[..|ledger| - 1]);
    }
  }

  lemma {:induction false} SomeTradeOf(log: seq<Trade>, account: string, symbol: string)
    requires |TradesOf(log, account, symbol)| > 0
    ensures exists i | 0 <= i < |log| :: log[i].accountId == account && log[i].symbol == symbol
  {
    var n := |log| - 1;
    if |TradesOf(log[..n], account, symbol)| > 0 {
      SomeTradeOf(log[..n], account, symbol);
      var i :| 0 <= i < n && log[..n][i].accountId == account && log[..n][i].symbol == symbol;
      assert log[i].accountId == account && log[i].symbol == symbol;
    }
  }

  lemma {:induction false} TradeIsListed(log: seq<Trade>, i: nat)
    requires i < |log|
    ensures |TradesOf(log, log[i].accountId, log[i].symbol)| > 0
  {
    if i < |log| - 1 {
      TradeIsListed(log[..|log| - 1], i);
    }
  }

  /** A row's symbol has been traded. */
  lemma RowSymbolIsTraded(s: Store, p: Policy, account: string, i: nat)
    requires Inv(s, p) && i < |s.positions| && s.positions[i].accountId == account
    ensures s.positions[i].symbol in Symbols(AccountTrades(s.trades, account))
  {
    var symbol := s.positions[i].symbol;
    assert BookOk(s, account, symbol);
    RowInBook(s.positions, i, account, symbol);
    SomeTradeOf(s.positionLog, account, symbol);
    var j :| 0 <= j < |s.positionLog| && s.positionLog[j].accountId == account && s.positionLog[j].symbol == symbol;
    TradeIsListed(s.trades, s.positionLog[j].tradeId);
    GroupIsBookTrades(s.trades, account, symbol);
    KeysAreSymbols(AccountTrades(s.trades, account), symbol);
  }

  lemma ReportedProfit(s: Store, p: Policy, account: string, regimes: Regimes, outcomes: seq<P.Outcome>)
    requires Inv(s, p) && GatherAccount(s, account, regimes) == Gathered(outcomes)
    ensures Sum(P.AllResults(outcomes)) == ClosedProfit(s.positions, account)
  {
    var ledger := AccountTrades(s.trades, account);
    SymbolsDistinct(ledger);
    forall i | 0 <= i < |s.positions| && s.positions[i].accountId == account
      ensures s.positions[i].symbol in Symbols(ledger)
    {
      RowSymbolIsTraded(s, p, account, i);
    }
    GatheredProfit(Symbols(ledger), BySymbol(ledger), ClosedBySymbol(AccountRows(s.positions, account)), regimes);
    ProfitIsFiled(Symbols(ledger), s.positions, account);
  }

  /** End to end: whenever the report is made, the results it groups by regime add up to the realized
      profit of the account's closed positions. */
  lemma ReportedProfitIsRealized(
    s: Store, p: Policy, accounts: map<string, Account>, account: string, regimes: Regimes, outcomes: seq<P.Outcome>)
    requires Reachable(s, p, accounts)
    requires GatherAccount(s, account, regimes) == Gathered(outcomes)
    ensures P.GroupTotal(P.Labels(outcomes), outcomes).Net() == ClosedProfit(s.positions, account)
  {
    ReachableInv(s, p, accounts);
    ReportedProfit(s, p, account, regimes, outcomes);
    P.ReportedGroupsAddUp(outcomes);
  }
}
