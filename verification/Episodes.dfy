/** Position episodes rebuilt from the trade ledger alone, by replaying ever longer prefixes, and the
    single running-quantity pass that gives the same answer. */
module Episodes {
  import opened Options
  import opened Ledger
  import opened Books

  // ---------- holding periods ----------

  /** State of the holding-period pass; `periods` maps a trade id to its episode's length once closed. */
  datatype HoldState = HoldState(quantity: real, openedAt: Option<int>, ids: seq<nat>, periods: map<nat, Option<int>>)

  const NOTHING_HELD := HoldState(0.0, None, [], map[])

  function AssignAll(periods: map<nat, Option<int>>, ids: seq<nat>, value: int): map<nat, Option<int>> {
    if |ids| == 0 then periods else AssignAll(periods, ids[..|ids| - 1], value)[ids[|ids| - 1] := Some(value)]
  }

  /** None is the failure to parse a missing opening time. */
  function HoldStep(h: HoldState, t: Trade): Option<HoldState> {
    match t.action
    case Buy =>
      var fromFlat := h.quantity == 0.0;
      Some(HoldState(h.quantity + t.quantity,
                   if fromFlat then Some(t.executedAt) else h.openedAt,
                   (if fromFlat then [] else h.ids) + [t.tradeId],
                   h.periods[t.tradeId := None]))
    case Sell =>
      var left := h.quantity - t.quantity;
      if left != 0.0 then Some(HoldState(left, h.openedAt, h.ids + [t.tradeId], h.periods[t.tradeId := None]))
      else if h.openedAt.None? then None
      else Some(HoldState(0.0, None, [], AssignAll(h.periods, h.ids + [t.tradeId], t.executedAt - h.openedAt.value)))
    case OtherAction(_) => Some(h.(periods := h.periods[t.tradeId := None]))
  }

  function Hold(trades: seq<Trade>): Option<HoldState> {
    if |trades| == 0 then Some(NOTHING_HELD)
    else
      match Hold(trades[..|trades| - 1])
      case None => None
      case Some(h) => HoldStep(h, trades[|trades| - 1])
  }

  method HoldingPeriods(trades: seq<Trade>) returns (periods: Option<map<nat, Option<int>>>)
    ensures periods == if Hold(trades).Some? then Some(Hold(trades).value.periods) else None
  {
    var result: map<nat, Option<int>> := map[];
    var quantity := 0.0;
    var openedAt: Option<int> := None;
    var ids: seq<nat> := [];
    for i := 0 to |trades|
      invariant Hold(trades[..i]) == Some(HoldState(quantity, openedAt, ids, result))
    {
      var t := trades[i];
      assert trades[..i + 1][..i] == trades[..i];
      match t.action {
        case Buy =>
          if quantity == 0.0 {
            openedAt, ids := Some(t.executedAt), [];
          }
          quantity := quantity + t.quantity;
          ids := ids + [t.tradeId];
          result := result[t.tradeId := None];
        case Sell =>
          ids := ids + [t.tradeId];
          quantity := quantity - t.quantity;
          if quantity == 0.0 {
            if openedAt.None? {
              HoldFailureStays(trades, i + 1);
              return None;
            }
            ghost var before := result;
            for j := 0 to |ids|
              invariant result == AssignAll(before, ids[..j], t.executedAt - openedAt.value)
            {
              assert ids[..j + 1][..j] == ids[..j];
              result := result[ids[j] := Some(t.executedAt - openedAt.value)];
            }
            assert ids[..|ids|] == ids;
            quantity, openedAt, ids := 0.0, None, [];
          } else {
            result := result[t.tradeId := None];
          }
        case OtherAction(_) =>
          result := result[t.tradeId := None];
      }
    }
    assert trades[..|trades|] == trades;
    return Some(result);
  }

  lemma {:induction false} HoldFailureStays(trades: seq<Trade>, i: nat)
    requires i <= |trades| && Hold(trades[..i]).None?
    ensures Hold(trades).None?
  {
    if i < |trades| {
      assert trades[..|trades| - 1][..i] == trades[..i];
      HoldFailureStays(trades[..|trades| - 1], i);
    } else {
      assert trades[..i] == trades;
    }
  }

  // ---------- the one-pass specification ----------

  datatype Episode = Episode(accountId: string, symbol: string, opening: Trade, trades: seq<Trade>, closed: bool)

  /** Running state: finished episodes, the current one, the running quantity, and whether a BUY from
      zero has set an opening time since the last close. */
  datatype Scan = Scan(episodes: seq<Episode>, current: Option<Episode>, quantity: real, timed: bool)

  const NOTHING_SCANNED := Scan([], None, 0.0, false)

  function Extended(current: Option<Episode>, t: Trade): Episode {
    var e := if current.Some? then current.value else Episode(t.accountId, t.symbol, t, [], false);
    e.(trades := e.trades + [t])
  }

  function ScanStep(s: Scan, t: Trade): Option<Scan> {
    var e := Extended(s.current, t);
    match t.action
    case Buy => Some(Scan(s.episodes, Some(e), s.quantity + t.quantity, s.timed || s.quantity == 0.0))
    case Sell =>
      var left := s.quantity - t.quantity;
      if left != 0.0 then Some(Scan(s.episodes, Some(e), left, s.timed))
      else if !s.timed then None
      else Some(Scan(s.episodes + [e.(closed := true)], None, 0.0, false))
    case OtherAction(_) => Some(s)
  }

  function ScanAll(trades: seq<Trade>): Option<Scan> {
    if |trades| == 0 then Some(NOTHING_SCANNED)
    else
      match ScanAll(trades[..|trades| - 1])
      case None => None
      case Some(s) => ScanStep(s, trades[|trades| - 1])
  }

  function AllEpisodes(s: Scan): seq<Episode> {
    if s.current.Some? then s.episodes + [s.current.value] else s.episodes
  }

  /** The episodes of a single pass over the running quantity; None when the pass fails. */
  function OnePass(trades: seq<Trade>): Option<seq<Episode>> {
    match ScanAll(trades)
    case None => None
    case Some(s) => Some(AllEpisodes(s))
  }

  // ---------- prefix replay refines the one pass ----------

  lemma {:induction false} SamePass(trades: seq<Trade>)
    ensures Hold(trades).Some? <==> ScanAll(trades).Some?
    ensures Hold(trades).Some? ==>
              Hold(trades).value.quantity == ScanAll(trades).value.quantity &&
              Hold(trades).value.openedAt.Some? == ScanAll(trades).value.timed
  {
    if |trades| > 0 {
      SamePass(trades[..|trades| - 1]);
    }
  }

  /** The last trade of a prefix carries a period exactly when it closes its episode. */
  lemma ClosingSellHasPeriod(trades: seq<Trade>)
    requires |trades| > 0 && trades[|trades| - 1].action.Sell? && Hold(trades).Some?
    ensures var id := trades[|trades| - 1].tradeId;
            var periods := Hold(trades).value.periods;
            id in periods && (periods[id].Some? <==>
                Hold(trades[..|trades| - 1]).value.quantity == trades[|trades| - 1].quantity)
  {
  }

  lemma ScanFailureStays(trades: seq<Trade>, i: nat)
    requires i <= |trades| && ScanAll(trades[..i]).None?
    ensures ScanAll(trades).None?
  {
    SamePass(trades[..i]);
    HoldFailureStays(trades, i);
    SamePass(trades);
  }

  /** The engine's replay: at each SELL it asks the holding-period pass over the prefix ending there
      whether that SELL closed its episode. It equals the one pass on every list of trades. */
  method ReplayEpisodes(trades: seq<Trade>) returns (r: Option<seq<Episode>>)
    ensures r == OnePass(trades)
  {
    var episodes: seq<Episode> := [];
    var current: Option<Episode> := None;
    for i := 0 to |trades|
      invariant ScanAll(trades[..i]).Some?
      invariant ScanAll(trades[..i]).value.episodes == episodes && ScanAll(trades[..i]).value.current == current
    {
      var t := trades[i];
      var prefix := trades[..i + 1];
      assert prefix[..i] == trades[..i];
      if t.action.Buy? || t.action.Sell? {
        if current.None? {
          current := Some(Episode(t.accountId, t.symbol, t, [], false));
        }
        current := Some(current.value.(trades := current.value.trades + [t]));
        if t.action.Sell? {
          var periods := HoldingPeriods(prefix);
          SamePass(prefix);
          SamePass(trades[..i]);
          if periods.None? {
            ScanFailureStays(trades, i + 1);
            return None;
          }
          ClosingSellHasPeriod(prefix);
          if t.tradeId in periods.value && periods.value[t.tradeId].Some? {
            episodes := episodes + [current.value.(closed := true)];
            current := None;
          }
        }
      }
    }
    assert trades[..|trades|] == trades;
    if current.Some? {
      episodes := episodes + [current.value];
    }
    return Some(episodes);
  }

  // ---------- when the pass fails ----------

  /** A BUY that starts from a running quantity of zero; it sets the opening time. */
  predicate Starts(trades: seq<Trade>, i: nat) {
    i < |trades| && trades[i].action.Buy? && NetQuantity(trades[..i]) == 0.0
  }

  /** A SELL that returns the running quantity to zero; it reads the opening time and clears it. */
  predicate Closes(trades: seq<Trade>, j: nat) {
    j < |trades| && trades[j].action.Sell? && NetQuantity(trades[..j + 1]) == 0.0
  }

  /** Trade `i` starts from zero and no SELL closes between it and `end`. */
  predicate StartsUpTo(trades: seq<Trade>, i: nat, end: nat) {
    i < end && Starts(trades, i) && forall l | i < l < end :: !Closes(trades, l)
  }

  /** An opening time is known before trade `end`. */
  predicate Timed(trades: seq<Trade>, end: nat) {
    exists i | 0 <= i < end :: StartsUpTo(trades, i, end)
  }

  lemma EventsOfPrefix(trades: seq<Trade>, n: nat, i: nat)
    requires i < n <= |trades|
    ensures Starts(trades[..n], i) == Starts(trades, i) && Closes(trades[..n], i) == Closes(trades, i)
  {
    assert trades[..n][..i] == trades[..i] && trades[..n][..i + 1] == trades[..i + 1];
  }

  lemma TimedShrinks(trades: seq<Trade>, n: nat)
    requires Timed(trades, n + 1)
    ensures Starts(trades, n) || (Timed(trades, n) && !Closes(trades, n))
  {
    hide Starts, Closes;
    var i :| 0 <= i < n + 1 && StartsUpTo(trades, i, n + 1);
    if i < n {
      assert StartsUpTo(trades, i, n);
    }
  }

  lemma TimedStep(trades: seq<Trade>, n: nat)
    requires n < |trades|
    ensures Timed(trades, n + 1) <==> Starts(trades, n) || (Timed(trades, n) && !Closes(trades, n))
  {
    hide Starts, Closes;
    if Timed(trades, n + 1) {
      TimedShrinks(trades, n);
    }
    if Starts(trades, n) {
      assert StartsUpTo(trades, n, n + 1);
    }
    if Timed(trades, n) && !Closes(trades, n) {
      var i :| 0 <= i < n && StartsUpTo(trades, i, n);
      assert StartsUpTo(trades, i, n + 1);
    }
  }

  lemma TimedOfPrefix(trades: seq<Trade>, n: nat)
    requires n <= |trades|
    ensures Timed(trades[..n], n) == Timed(trades, n)
  {
    forall i | 0 <= i < n ensures StartsUpTo(trades[..n], i, n) == StartsUpTo(trades, i, n) {
      forall l | 0 <= l < n
        ensures Starts(trades[..n], l) == Starts(trades, l) && Closes(trades[..n], l) == Closes(trades, l) {
        EventsOfPrefix(trades, n, l);
      }
    }
    hide StartsUpTo;
  }

  /** While the pass succeeds, its quantity is the net of the trades and it is timed as the trades say. */
  lemma {:induction false} ScanTracksTrades(trades: seq<Trade>)
    requires ScanAll(trades).Some?
    ensures var s := ScanAll(trades).value; s.quantity == NetQuantity(trades) && s.timed == Timed(trades, |trades|)
  {
    hide Timed;
    if |trades| == 0 {
      NeverTimed(trades);
    } else {
      var n := |trades| - 1;
      ScanTracksTrades(trades[..n]);
      TimedOfPrefix(trades, n);
      TimedStep(trades, n);
      assert trades[..n + 1] == trades;
    }
  }

  lemma NeverTimed(trades: seq<Trade>)
    ensures !Timed(trades, 0)
  {
  }

  lemma FailsNext(trades: seq<Trade>)
    requires |trades| > 0 && ScanAll(trades[..|trades| - 1]).Some?
    ensures var n := |trades| - 1; ScanAll(trades).None? <==> Closes(trades, n) && !Timed(trades, n)
  {
    hide Timed;
    var n := |trades| - 1;
    ScanTracksTrades(trades[..n]);
    TimedOfPrefix(trades, n);
    assert trades[..n + 1] == trades;
  }

  /** The pass fails exactly when some SELL returns the running quantity to zero with no BUY from zero
      since the last SELL that did. */
  lemma {:induction false} PassFailsExactly(trades: seq<Trade>)
    ensures OnePass(trades).None? <==> exists j | 0 <= j < |trades| :: Closes(trades, j) && !Timed(trades, j)
  {
    hide Timed, Closes, ScanStep, AllEpisodes;
    if |trades| > 0 {
      var n := |trades| - 1;
      PassFailsExactly(trades[..n]);
      forall j | 0 <= j < n
        ensures Closes(trades[..n], j) == Closes(trades, j) && Timed(trades[..n], j) == Timed(trades, j)
      {
        EventsOfPrefix(trades, n, j);
        TimedOfPrefix(trades, j);
        TimedOfPrefix(trades[..n], j);
        assert trades[..n][..j] == trades[..j];
      }
      if ScanAll(trades[..n]).Some? {
        FailsNext(trades);
      }
    }
  }

  /** And once it has failed it fails on every longer ledger. */
  lemma PassFailsForGood(trades: seq<Trade>, more: seq<Trade>)
    requires OnePass(trades).None?
    ensures OnePass(trades + more).None?
  {
    assert (trades + more)[..|trades|] == trades;
    ScanFailureStays(trades + more, |trades|);
  }

  // ---------- what the episodes are ----------

  predicate PositiveQuantities(trades: seq<Trade>) {
    forall i | 0 <= i < |trades| :: trades[i].quantity > 0.0
  }

  predicate NeverOversold(trades: seq<Trade>) {
    forall i | 0 <= i <= |trades| :: NetQuantity(trades[..i]) >= 0.0
  }

  /** Opens with its BUY, holds a positive quantity at every interior prefix, and ends at exactly zero
      when closed, above zero when open. */
  predicate EpisodeShape(e: Episode) {
    && |e.trades| > 0 && e.opening == e.trades[0] && e.opening.action.Buy?
    && (forall j | 0 < j < |e.trades| :: NetQuantity(e.trades[..j]) > 0.0)
    && (if e.closed then NetQuantity(e.trades) == 0.0 else NetQuantity(e.trades) > 0.0)
  }

  /** Every episode has its shape and only the last may be open. */
  predicate EpisodesShape(episodes: seq<Episode>) {
    && (forall i | 0 <= i < |episodes| :: EpisodeShape(episodes[i]))
    && (forall i | 0 <= i < |episodes| - 1 :: episodes[i].closed)
  }

  function Concatenated(episodes: seq<Episode>): seq<Trade> {
    if |episodes| == 0 then [] else Concatenated(episodes[..|episodes| - 1]) + episodes[|episodes| - 1].trades
  }

  /** The BUY and SELL trades, in order. */
  function Executed(trades: seq<Trade>): seq<Trade> {
    if |trades| == 0 then []
    else Executed(trades[..|trades| - 1]) + if trades[|trades| - 1].action.OtherAction? then []
        else [trades[|trades| - 1]]
  }

  lemma ConcatenatedAppend(episodes: seq<Episode>, e: Episode)
    ensures Concatenated(episodes + [e]) == Concatenated(episodes) + e.trades
  {
    assert (episodes + [e])[..|episodes|] == episodes;
  }

  predicate ScanShape(s: Scan, trades: seq<Trade>) {
    && s.quantity == NetQuantity(trades)
    && (forall i | 0 <= i < |s.episodes| :: EpisodeShape(s.episodes[i]) && s.episodes[i].closed)
    && (s.current.None? <==> s.quantity == 0.0)
    && (s.current.Some? ==>
          s.timed && !s.current.value.closed && EpisodeShape(s.current.value) &&
          NetQuantity(s.current.value.trades) == s.quantity)
    && Concatenated(AllEpisodes(s)) == Executed(trades)
  }

  /** A trade that keeps the running quantity non-negative extends the current episode in shape. */
  lemma ExtendedShape(s: Scan, trades: seq<Trade>, t: Trade)
    requires ScanShape(s, trades) && t.quantity > 0.0 && !t.action.OtherAction? && s.quantity + Signed(t) >= 0.0
    ensures var e := Extended(s.current, t);
            && EpisodeShape(e.(closed := s.quantity + Signed(t) == 0.0))
            && NetQuantity(e.trades) == s.quantity + Signed(t)
            && Concatenated(s.episodes) + e.trades == Executed(trades) + [t]
  {
    var held := if s.current.Some? then s.current.value.trades else [];
    var e := Extended(s.current, t);
    NetAppend(held, t);
    if s.current.Some? {
      ConcatenatedAppend(s.episodes, s.current.value);
      assert Concatenated(s.episodes) + (held + [t]) == (Concatenated(s.episodes) + held) + [t];
    }
    forall j | 0 < j < |e.trades| ensures NetQuantity(e.trades[..j]) > 0.0 {
      if j < |held| {
        assert e.trades[..j] == held[..j];
      } else {
        assert e.trades[..j] == held;
      }
    }
  }

  lemma ClosedScanShape(episodes: seq<Episode>, e: Episode, trades: seq<Trade>)
    requires forall i | 0 <= i < |episodes| :: EpisodeShape(episodes[i]) && episodes[i].closed
    requires EpisodeShape(e) && e.closed && NetQuantity(trades) == 0.0
    requires Concatenated(episodes) + e.trades == Executed(trades)
    ensures ScanShape(Scan(episodes + [e], None, 0.0, false), trades)
  {
    ConcatenatedAppend(episodes, e);
  }

  lemma OpenScanShape(episodes: seq<Episode>, e: Episode, trades: seq<Trade>)
    requires forall i | 0 <= i < |episodes| :: EpisodeShape(episodes[i]) && episodes[i].closed
    requires EpisodeShape(e) && !e.closed && NetQuantity(e.trades) == NetQuantity(trades)
    requires Concatenated(episodes) + e.trades == Executed(trades)
    ensures ScanShape(Scan(episodes, Some(e), NetQuantity(trades), true), trades)
  {
    ConcatenatedAppend(episodes, e);
  }

  /** Which scan a trade leads to while the running quantity stays non-negative. */
  lemma ScanStepCases(s: Scan, t: Trade)
    requires !t.action.OtherAction? && t.quantity > 0.0 && s.quantity >= 0.0 && s.quantity + Signed(t) >= 0.0
    requires s.quantity > 0.0 ==> s.timed
    ensures var e := Extended(s.current, t);
            ScanStep(s, t) == Some(if s.quantity + Signed(t) == 0.0
                then Scan(s.episodes + [e.(closed := true)], None, 0.0, false)
                                   else Scan(s.episodes, Some(e), s.quantity + Signed(t), true))
  {
  }

  lemma ScanShapeFacts(s: Scan, trades: seq<Trade>)
    requires ScanShape(s, trades)
    ensures s.quantity >= 0.0 && s.quantity == NetQuantity(trades) && (s.quantity > 0.0 ==> s.timed)
    ensures s.current.Some? ==> !s.current.value.closed
    ensures forall i | 0 <= i < |s.episodes| :: EpisodeShape(s.episodes[i]) && s.episodes[i].closed
  {
  }

  lemma TradeStepShape(s: Scan, trades: seq<Trade>, t: Trade)
    requires ScanShape(s, trades) && !t.action.OtherAction? && t.quantity > 0.0 && s.quantity + Signed(t) >= 0.0
    requires Executed(trades + [t]) == Executed(trades) + [t]
    ensures ScanStep(s, t).Some? && ScanShape(ScanStep(s, t).value, trades + [t])
  {
    hide ScanStep, ScanShape, EpisodeShape, NetQuantity, Concatenated, Executed, AllEpisodes;
    var e := Extended(s.current, t);
    NetAppend(trades, t);
    ExtendedShape(s, trades, t);
    ScanShapeFacts(s, trades);
    ScanStepCases(s, t);
    if s.quantity + Signed(t) == 0.0 {
      ClosedScanShape(s.episodes, e.(closed := true), trades + [t]);
    } else {
      assert e.(closed := false) == e;
      OpenScanShape(s.episodes, e, trades + [t]);
    }
  }

  lemma ScanStepShape(s: Scan, trades: seq<Trade>, t: Trade)
    requires ScanShape(s, trades) && t.quantity > 0.0 && s.quantity + Signed(t) >= 0.0
    ensures ScanStep(s, t).Some? && ScanShape(ScanStep(s, t).value, trades + [t])
  {
    assert (trades + [t])[..|trades|] == trades;
    if t.action.OtherAction? {
      NetAppend(trades, t);
    } else {
      TradeStepShape(s, trades, t);
    }
  }

  lemma EmptyScanShape(trades: seq<Trade>)
    requires |trades| == 0
    ensures ScanAll(trades) == Some(NOTHING_SCANNED) && ScanShape(NOTHING_SCANNED, trades)
  {
  }

  lemma NeverOversoldPrefix(trades: seq<Trade>, n: nat)
    requires PositiveQuantities(trades) && NeverOversold(trades) && n <= |trades|
    ensures PositiveQuantities(trades[..n]) && NeverOversold(trades[..n]) && NetQuantity(trades[..n]) >= 0.0
  {
    hide NetQuantity;
    forall i | 0 <= i <= n ensures NetQuantity(trades[..n][..i]) >= 0.0 {
      assert trades[..n][..i] == trades[..i];
    }
  }

  lemma {:induction false} NeverOversoldScan(trades: seq<Trade>)
    requires PositiveQuantities(trades) && NeverOversold(trades)
    ensures ScanAll(trades).Some? && ScanShape(ScanAll(trades).value, trades)
  {
    hide ScanShape, ScanStep, NeverOversold, NetQuantity;
    if |trades| == 0 {
      EmptyScanShape(trades);
    } else {
      var n := |trades| - 1;
      NeverOversoldPrefix(trades, n);
      NeverOversoldScan(trades[..n]);
      NeverOversoldPrefix(trades, |trades|);
      assert trades[..|trades|] == trades && trades[..n] + [trades[n]] == trades;
      NetAppend(trades[..n], trades[n]);
      ScanShapeFacts(ScanAll(trades[..n]).value, trades[..n]);
      ScanStepShape(ScanAll(trades[..n]).value, trades[..n], trades[n]);
    }
  }

  /** Later trades only lengthen what an earlier scan has begun. */
  lemma {:induction false} ScanExtends(trades: seq<Trade>, i: nat)
    requires i <= |trades| && ScanAll(trades).Some?
    ensures ScanAll(trades[..i]).Some?
    ensures var first, last := ScanAll(trades[..i]).value, ScanAll(trades).value;
            && first.episodes <= last.episodes
            && (first.current.Some? ==>
                  var list := AllEpisodes(last);
                  |first.episodes| < |list| && first.current.value.trades <= list[|first.episodes|].trades)
  {
    if i == |trades| {
      assert trades[..i] == trades;
    } else {
      var n := |trades| - 1;
      assert trades[..n][..i] == trades[..i];
      ScanExtends(trades[..n], i);
    }
  }

  /** A ledger with positive quantities is never oversold exactly when its episodes are well formed. */
  lemma WellFormedIffNeverOversold(trades: seq<Trade>)
    requires PositiveQuantities(trades)
    ensures NeverOversold(trades) <==> OnePass(trades).Some? && EpisodesShape(OnePass(trades).value)
    ensures NeverOversold(trades) ==> Concatenated(OnePass(trades).value) == Executed(trades)
  {
    if NeverOversold(trades) {
      NeverOversoldScan(trades);
    } else if OnePass(trades).Some? {
      OversoldBreaksShape(trades);
    }
  }

  /** The first prefix that goes below zero. */
  lemma FirstOversold(trades: seq<Trade>) returns (n: nat)
    requires !NeverOversold(trades)
    ensures n < |trades| && NeverOversold(trades[..n]) && NetQuantity(trades[..n + 1]) < 0.0
    decreases |trades|
  {
    n := 0;
    while NetQuantity(trades[..n + 1]) >= 0.0
      invariant n < |trades|
      invariant forall i | 0 <= i <= n :: NetQuantity(trades[..i]) >= 0.0
      decreases |trades| - n
    {
      n := n + 1;
      if n == |trades| {
        assert false;
      }
    }
    forall i | 0 <= i <= n ensures NetQuantity(trades[..n][..i]) >= 0.0 {
      assert trades[..n][..i] == trades[..i];
    }
  }

  /** An episode that starts with trades netting below zero has no shape. */
  lemma NegativeStartBreaksShape(e: Episode, begun: seq<Trade>)
    requires begun <= e.trades && NetQuantity(begun) < 0.0
    ensures !EpisodeShape(e)
  {
    assert e.trades[..|begun|] == begun;
    if |begun| == |e.trades| {
      assert begun == e.trades;
    }
  }

  lemma OversoldStep(s: Scan, trades: seq<Trade>, t: Trade)
    requires ScanShape(s, trades) && t.quantity > 0.0 && s.quantity >= 0.0 && s.quantity + Signed(t) < 0.0
    ensures var next := ScanStep(s, t);
            && next.Some? && next.value.episodes == s.episodes
            && next.value.current.Some? && NetQuantity(next.value.current.value.trades) < 0.0
  {
    NetAppend(if s.current.Some? then s.current.value.trades else [], t);
  }

  lemma OversoldBreaksShape(trades: seq<Trade>)
    requires PositiveQuantities(trades) && !NeverOversold(trades) && OnePass(trades).Some?
    ensures !EpisodesShape(OnePass(trades).value)
  {
    hide ScanStep, ScanShape, EpisodeShape, NetQuantity, Concatenated, Executed, NeverOversold, Extended;
    var n := FirstOversold(trades);
    NeverOversoldScan(trades[..n]);
    var s, t := ScanAll(trades[..n]).value, trades[n];
    ScanShapeFacts(s, trades[..n]);
    assert trades[..n + 1] == trades[..n] + [t] && trades[..n + 1][..n] == trades[..n];
    assert trades[..n][..n] == trades[..n];
    NetAppend(trades[..n], t);
    OversoldStep(s, trades[..n], t);
    ScanExtends(trades, n + 1);
    NegativeStartBreaksShape(
      OnePass(trades).value[|s.episodes|], ScanAll(trades[..n + 1]).value.current.value.trades);
  }
}
