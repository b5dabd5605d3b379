/** The holding periods of the one engine are the lengths of the episodes of the other. */
module EpisodeDurations {
  import opened Options
  import opened Ledger
  import opened Books
  import opened Episodes

  function IdsOf(trades: seq<Trade>): (r: seq<nat>)
    ensures |r| == |trades| && forall k | 0 <= k < |r| :: r[k] == trades[k].tradeId
  {
    seq(|trades|, k requires 0 <= k < |trades| => trades[k].tradeId)
  }

  predicate UniqueIds(trades: seq<Trade>) {
    forall i, j | 0 <= i < j < |trades| :: trades[i].tradeId != trades[j].tradeId
  }

  /** From the opening trade to the last one. */
  function Duration(e: Episode): int
    requires |e.trades| > 0
  {
    e.trades[|e.trades| - 1].executedAt - e.opening.executedAt
  }

  /** Every trade of the list carries this period. */
  predicate Carry(periods: map<nat, Option<int>>, ids: seq<nat>, value: Option<int>) {
    forall k | 0 <= k < |ids| :: ids[k] in periods && periods[ids[k]] == value
  }

  predicate Apart(ids: seq<nat>, others: seq<nat>) {
    forall k | 0 <= k < |ids| :: ids[k] !in others
  }

  predicate Known(ids: seq<nat>, trades: seq<Trade>) {
    forall k | 0 <= k < |ids| :: ids[k] in IdsOf(trades)
  }

  /** A finished episode whose trades all carry its length, and which shares no trade with `held`. */
  predicate CarriesLength(h: HoldState, e: Episode, trades: seq<Trade>) {
    && |e.trades| > 0
    && Carry(h.periods, IdsOf(e.trades), Some(Duration(e)))
    && Apart(IdsOf(e.trades), h.ids) && Known(IdsOf(e.trades), trades)
  }

  /** The holding-period state and the scan describe the same pass. */
  predicate InStep(h: HoldState, s: Scan, trades: seq<Trade>) {
    && h.quantity == s.quantity
    && (forall i | 0 <= i < |s.episodes| :: CarriesLength(h, s.episodes[i], trades))
    && (s.current.Some? ==>
          && h.openedAt == Some(s.current.value.opening.executedAt)
          && h.ids == IdsOf(s.current.value.trades) && Carry(h.periods, h.ids, None))
    && Known(h.ids, trades)
    && (s.current.None? ==> h.ids == [])
  }

  lemma {:induction false} AssignAllSpec(periods: map<nat, Option<int>>, ids: seq<nat>, value: int, id: nat)
    ensures id in ids ==> id in AssignAll(periods, ids, value) && AssignAll(periods, ids, value)[id] == Some(value)
    ensures id !in ids ==> (id in AssignAll(periods, ids, value) <==> id in periods)
    ensures id !in ids && id in periods ==> AssignAll(periods, ids, value)[id] == periods[id]
  {
    if |ids| > 0 {
      AssignAllSpec(periods, ids[..|ids| - 1], value, id);
      assert ids == ids[..|ids| - 1] + [ids[|ids| - 1]];
    }
  }

  lemma NewIdIsApart(trades: seq<Trade>, t: Trade, ids: seq<nat>)
    requires UniqueIds(trades + [t]) && Known(ids, trades)
    ensures t.tradeId !in ids && Known(ids, trades + [t]) && t.tradeId in IdsOf(trades + [t])
  {
    assert (trades + [t])[|trades|] == t && IdsOf(trades + [t])[|trades|] == t.tradeId;
    var earlier := IdsOf(trades);
    forall k | 0 <= k < |ids| ensures ids[k] != t.tradeId && ids[k] in IdsOf(trades + [t]) {
      assert ids[k] in earlier;
      var j :| 0 <= j < |earlier| && earlier[j] == ids[k];
      assert (trades + [t])[j] == trades[j] && IdsOf(trades + [t])[j] == ids[k];
    }
  }

  /** A finished episode stays settled when a new trade is given no period yet. */
  lemma LengthStays(h: HoldState, e: Episode, trades: seq<Trade>, t: Trade, after: HoldState)
    requires CarriesLength(h, e, trades) && UniqueIds(trades + [t]) && Known(h.ids, trades)
    requires after.ids == h.ids || after.ids == h.ids + [t.tradeId] || after.ids == [t.tradeId]
    requires after.periods == h.periods[t.tradeId := None]
    ensures CarriesLength(after, e, trades + [t])
  {
    NewIdIsApart(trades, t, IdsOf(e.trades));
  }

  lemma LengthOnClose(h: HoldState, e: Episode, trades: seq<Trade>, t: Trade, value: int)
    requires CarriesLength(h, e, trades) && UniqueIds(trades + [t]) && Known(h.ids, trades)
    ensures CarriesLength(HoldState(0.0, None, [], AssignAll(h.periods, h.ids + [t.tradeId], value)), e, trades + [t])
  {
    NewIdIsApart(trades, t, IdsOf(e.trades));
    var ids := IdsOf(e.trades);
    forall k | 0 <= k < |ids|
      ensures var after := AssignAll(h.periods, h.ids + [t.tradeId], value);
              ids[k] in after && after[ids[k]] == h.periods[ids[k]]
    {
      AssignAllSpec(h.periods, h.ids + [t.tradeId], value, ids[k]);
    }
    hide AssignAll;
  }

  lemma ClosedCarries(h: HoldState, current: Episode, trades: seq<Trade>, t: Trade)
    requires h.ids == IdsOf(current.trades) && h.openedAt == Some(current.opening.executedAt) && Known(h.ids, trades)
    requires UniqueIds(trades + [t])
    ensures var e := Extended(Some(current), t).(closed := true);
            CarriesLength(HoldState(0.0, None, [], AssignAll(h.periods, h.ids +
                [t.tradeId], t.executedAt - h.openedAt.value)), e, trades + [t])
  {
    var e := Extended(Some(current), t).(closed := true);
    var ids := IdsOf(e.trades);
    assert ids == h.ids + [t.tradeId];
    NewIdIsApart(trades, t, h.ids);
    var value := t.executedAt - h.openedAt.value;
    assert Duration(e) == value;
    forall k | 0 <= k < |ids|
      ensures var after := AssignAll(h.periods, ids, value); ids[k] in after && after[ids[k]] == Some(value)
    {
      AssignAllSpec(h.periods, ids, value, ids[k]);
    }
    hide AssignAll;
  }

  /** What a scan of a ledger that is not oversold knows about its quantity. */
  predicate Sound(s: Scan) {
    s.quantity >= 0.0 && (s.current.None? <==> s.quantity == 0.0) && (s.quantity > 0.0 ==> s.timed)
  }

  lemma CloseInStep(h: HoldState, s: Scan, trades: seq<Trade>, t: Trade)
    requires InStep(h, s, trades) && UniqueIds(trades + [t]) && t.quantity > 0.0 && Sound(s)
    requires t.action.Sell? && s.quantity == t.quantity
    ensures HoldStep(h, t).Some? && ScanStep(s, t).Some?
    ensures InStep(HoldStep(h, t).value, ScanStep(s, t).value, trades + [t])
  {
    hide CarriesLength, AssignAll, Duration, UniqueIds, IdsOf;
    ClosedCarries(h, s.current.value, trades, t);
    forall i | 0 <= i < |s.episodes|
      ensures CarriesLength(HoldStep(h, t).value, s.episodes[i], trades + [t])
    {
      LengthOnClose(h, s.episodes[i], trades, t, t.executedAt - h.openedAt.value);
    }
  }

  lemma OpenInStep(h: HoldState, s: Scan, trades: seq<Trade>, t: Trade)
    requires InStep(h, s, trades) && UniqueIds(trades + [t]) && t.quantity > 0.0 && Sound(s)
    requires !t.action.OtherAction? && s.quantity + Signed(t) > 0.0
    ensures HoldStep(h, t).Some? && ScanStep(s, t).Some?
    ensures InStep(HoldStep(h, t).value, ScanStep(s, t).value, trades + [t])
  {
    hide CarriesLength, Duration, UniqueIds, AssignAll;
    NewIdIsApart(trades, t, h.ids);
    var after := HoldStep(h, t).value;
    forall i | 0 <= i < |s.episodes| ensures CarriesLength(after, s.episodes[i], trades + [t]) {
      LengthStays(h, s.episodes[i], trades, t, after);
    }
    var held := if s.current.Some? then s.current.value.trades else [];
    assert Extended(s.current, t).trades == held + [t];
    assert IdsOf(held + [t]) == IdsOf(held) + [t.tradeId];
  }

  lemma SkipInStep(h: HoldState, s: Scan, trades: seq<Trade>, t: Trade)
    requires InStep(h, s, trades) && UniqueIds(trades + [t]) && t.action.OtherAction?
    ensures HoldStep(h, t).Some? && ScanStep(s, t).Some?
    ensures InStep(HoldStep(h, t).value, ScanStep(s, t).value, trades + [t])
  {
    hide CarriesLength, Duration, UniqueIds, AssignAll;
    NewIdIsApart(trades, t, h.ids);
    var after := HoldStep(h, t).value;
    forall i | 0 <= i < |s.episodes| ensures CarriesLength(after, s.episodes[i], trades + [t]) {
      LengthStays(h, s.episodes[i], trades, t, after);
    }
  }

  /** One trade keeps the two passes in step while the ledger is not oversold. */
  lemma TradeInStep(h: HoldState, s: Scan, trades: seq<Trade>, t: Trade)
    requires InStep(h, s, trades) && UniqueIds(trades + [t]) && t.quantity > 0.0 && Sound(s) &&
        s.quantity + Signed(t) >= 0.0
    ensures HoldStep(h, t).Some? && ScanStep(s, t).Some?
    ensures InStep(HoldStep(h, t).value, ScanStep(s, t).value, trades + [t])
  {
    hide InStep, HoldStep, ScanStep, UniqueIds;
    if t.action.OtherAction? {
      SkipInStep(h, s, trades, t);
    } else if s.quantity + Signed(t) == 0.0 {
      CloseInStep(h, s, trades, t);
    } else {
      OpenInStep(h, s, trades, t);
    }
  }

  lemma {:induction false} PassesInStep(trades: seq<Trade>)
    requires PositiveQuantities(trades) && NeverOversold(trades) && UniqueIds(trades)
    ensures Hold(trades).Some? && ScanAll(trades).Some?
    ensures InStep(Hold(trades).value, ScanAll(trades).value, trades)
  {
    hide InStep, HoldStep, ScanStep, NeverOversold, ScanShape, NetQuantity;
    if |trades| == 0 {
      NothingInStep();
    } else {
      var n := |trades| - 1;
      NeverOversoldPrefix(trades, n);
      NeverOversoldPrefix(trades, |trades|);
      NeverOversoldScan(trades[..n]);
      PassesInStep(trades[..n]);
      assert trades[..|trades|] == trades && trades[..n] + [trades[n]] == trades;
      NetAppend(trades[..n], trades[n]);
      ScanFacts(ScanAll(trades[..n]).value, trades[..n]);
      TradeInStep(Hold(trades[..n]).value, ScanAll(trades[..n]).value, trades[..n], trades[n]);
    }
  }

  lemma NothingInStep()
    ensures InStep(NOTHING_HELD, NOTHING_SCANNED, [])
  {
  }

  lemma ScanFacts(s: Scan, trades: seq<Trade>)
    requires ScanShape(s, trades)
    ensures s.quantity == NetQuantity(trades) && Sound(s)
    ensures forall i | 0 <= i < |s.episodes| :: s.episodes[i].closed
    ensures s.current.Some? ==> !s.current.value.closed
  {
  }

  /** On a ledger that is never oversold, every trade of a closed episode carries the episode's length
      from its opening trade to its last, and every trade of the open one carries none. */
  lemma PeriodsAreEpisodeLengths(trades: seq<Trade>, i: nat, k: nat)
    requires PositiveQuantities(trades) && NeverOversold(trades) && UniqueIds(trades)
    requires OnePass(trades).Some? ==> i < |OnePass(trades).value| && k < |OnePass(trades).value[i].trades|
    ensures OnePass(trades).Some? && Hold(trades).Some?
    ensures var e, periods := OnePass(trades).value[i], Hold(trades).value.periods;
            var id := e.trades[k].tradeId;
            id in periods && periods[id] == if e.closed then Some(Duration(e)) else None
  {
    PassesInStep(trades);
    NeverOversoldScan(trades);
    ScanFacts(ScanAll(trades).value, trades);
    hide ScanAll, Hold, NeverOversold, ScanShape, Duration;
    var s, h := ScanAll(trades).value, Hold(trades).value;
    var e := OnePass(trades).value[i];
    assert IdsOf(e.trades)[k] == e.trades[k].tradeId;
    if i < |s.episodes| {
      assert CarriesLength(h, s.episodes[i], trades);
    }
  }

  // ---------- every ledger, oversold or not ----------

  /** A BUY from zero and the next SELL down to zero, with neither in between. */
  predicate Spans(trades: seq<Trade>, b: nat, c: nat) {
    && b < c && Starts(trades, b) && Closes(trades, c)
    && forall l | b < l < c :: !Starts(trades, l) && !Closes(trades, l)
  }

  /** Trade `j` lies in such a span that ends before trade `n`. */
  predicate Spanned(trades: seq<Trade>, j: nat, n: nat) {
    exists b: nat, c: nat | b <= j <= c < n :: Spans(trades, b, c)
  }

  /** No SELL has closed since trade `j` and no BUY has started after it, up to trade `n`. */
  predicate Current(trades: seq<Trade>, j: nat, n: nat) {
    forall l | j <= l < n :: !Closes(trades, l) && (l > j ==> !Starts(trades, l))
  }

  lemma {:induction false} HeldIsNet(trades: seq<Trade>)
    requires Hold(trades).Some?
    ensures Hold(trades).value.quantity == NetQuantity(trades)
  {
    hide AssignAll;
    if |trades| > 0 {
      HeldIsNet(trades[..|trades| - 1]);
    }
  }

  /** One step of the pass in terms of starting and closing. */
  lemma StepByEvents(trades: seq<Trade>, n: nat)
    requires n < |trades| && Hold(trades[..n + 1]).Some?
    ensures Hold(trades[..n]).Some?
    ensures var h, after, t := Hold(trades[..n]).value, Hold(trades[..n + 1]).value, trades[n];
            if Closes(trades, n) then
              && h.openedAt.Some? && after.openedAt.None? && after.ids == [] && t.action.Sell?
              && after.periods == AssignAll(h.periods, h.ids + [t.tradeId], t.executedAt - h.openedAt.value)
            else
              && after.openedAt == (if Starts(trades, n) then Some(t.executedAt) else h.openedAt)
              && after.ids == (if Starts(trades, n) then [] else h.ids) +
                              (if t.action.OtherAction? then [] else [t.tradeId])
              && after.periods == h.periods[t.tradeId := None]
    ensures Starts(trades, n) ==> trades[n].action.Buy?
  {
    hide AssignAll;
    assert trades[..n + 1][..n] == trades[..n];
    HeldIsNet(trades[..n]);
    assert trades[..n + 1] == trades[..n] + [trades[n]];
    NetAppend(trades[..n], trades[n]);
  }

  /** The opening time is that of the last BUY from zero since a SELL closed. */
  lemma {:induction false} OpenedAtLastStart(trades: seq<Trade>, n: nat) returns (b: nat)
    requires n <= |trades| && Hold(trades[..n]).Some? && Hold(trades[..n]).value.openedAt.Some?
    ensures b < n && Starts(trades, b) && Current(trades, b, n)
    ensures Hold(trades[..n]).value.openedAt == Some(trades[b].executedAt)
  {
    hide Starts, Closes, Hold, AssignAll;
    if n == 0 {
      assert trades[..n] == [];
      NothingOpened();
    } else {
      StepByEvents(trades, n - 1);
      if Starts(trades, n - 1) {
        b := n - 1;
      } else {
        b := OpenedAtLastStart(trades, n - 1);
      }
    }
  }

  lemma NothingOpened()
    ensures Hold([]) == Some(NOTHING_HELD)
  {
  }

  /** What the pass over the first `n` trades says of trade `j`. */
  predicate PeriodOf(trades: seq<Trade>, j: nat, n: nat, h: HoldState)
    requires j < n <= |trades|
  {
    var id, counts := trades[j].tradeId, !trades[j].action.OtherAction?;
    && (id in h.ids <==> counts && Current(trades, j, n))
    && id in h.periods && (h.periods[id].Some? <==> counts && Spanned(trades, j, n))
    && forall b: nat, c: nat | counts && b <= j <= c < n && Spans(trades, b, c) ::
         h.periods[id] == Some(trades[c].executedAt - trades[b].executedAt)
  }

  lemma {:induction false} LaterIdNotHeld(trades: seq<Trade>, n: nat, m: nat)
    requires n <= m < |trades| && UniqueIds(trades) && Hold(trades[..n]).Some?
    ensures trades[m].tradeId !in Hold(trades[..n]).value.ids
  {
    hide Starts, Closes, Hold, AssignAll;
    if n == 0 {
      assert trades[..n] == [];
      NothingOpened();
    } else {
      StepByEvents(trades, n - 1);
      LaterIdNotHeld(trades, n - 1, m);
    }
  }

  lemma CurrentStep(trades: seq<Trade>, j: nat, n: nat)
    requires j <= n
    ensures Current(trades, j, n + 1) <==>
            Current(trades, j, n) && !Closes(trades, n) && (n > j ==> !Starts(trades, n))
  {
    hide Starts, Closes;
  }

  lemma SpannedStep(trades: seq<Trade>, j: nat, n: nat)
    requires j <= n && !Closes(trades, n)
    ensures forall b: nat :: !Spans(trades, b, n)
    ensures Spanned(trades, j, n + 1) <==> Spanned(trades, j, n)
  {
    hide Starts, Closes;
    assert forall b: nat :: !Spans(trades, b, n);
    hide Spans;
  }

  /** The span a closing SELL ends: the trades since its start are the current ones. */
  lemma SpanOfClose(trades: seq<Trade>, b: nat, n: nat, j: nat)
    requires Spans(trades, b, n) && j <= n < |trades|
    ensures Current(trades, j, n) <==> b <= j
    ensures b <= j ==> !Spanned(trades, j, n)
    ensures Spanned(trades, j, n + 1) <==> Spanned(trades, j, n) || b <= j
    ensures forall a: nat | Spans(trades, a, n) :: a == b
  {
    assert !Closes(trades, b);
    hide Starts, Closes;
    assert forall a: nat | Spans(trades, a, n) :: a == b;
    if b <= j {
      assert Current(trades, j, n);
      assert b <= j <= n < n + 1;
    }
  }

  lemma AfterClose(trades: seq<Trade>, j: nat, n: nat)
    requires j <= n < |trades| && UniqueIds(trades) && Hold(trades[..n + 1]).Some? && Closes(trades, n)
    requires Hold(trades[..n]).Some? && (j < n ==> PeriodOf(trades, j, n, Hold(trades[..n]).value))
    ensures PeriodOf(trades, j, n + 1, Hold(trades[..n + 1]).value)
  {
    hide Starts, Closes, Hold, AssignAll, Current, Spanned, Spans;
    StepByEvents(trades, n);
    var h, t, id := Hold(trades[..n]).value, trades[n], trades[j].tradeId;
    var b := OpenedAtLastStart(trades, n);
    assert Spans(trades, b, n) by { SpanFromStart(trades, b, n); }
    SpanOfClose(trades, b, n, j);
    CurrentStep(trades, j, n);
    LaterIdNotHeld(trades, n, n);
    AssignAllSpec(h.periods, h.ids + [t.tradeId], t.executedAt - h.openedAt.value, id);
  }

  lemma SpanFromStart(trades: seq<Trade>, b: nat, n: nat)
    requires b < n && Starts(trades, b) && Current(trades, b, n) && Closes(trades, n)
    ensures Spans(trades, b, n)
  {
  }

  lemma BeforeClose(trades: seq<Trade>, j: nat, n: nat)
    requires j <= n < |trades| && UniqueIds(trades) && Hold(trades[..n + 1]).Some? && !Closes(trades, n)
    requires Hold(trades[..n]).Some? && (j < n ==> PeriodOf(trades, j, n, Hold(trades[..n]).value))
    ensures PeriodOf(trades, j, n + 1, Hold(trades[..n + 1]).value)
  {
    hide Starts, Closes, Hold, AssignAll, Spanned, Spans, Current, UniqueIds;
    StepByEvents(trades, n);
    CurrentStep(trades, j, n);
    SpannedStep(trades, j, n);
    LaterIdNotHeld(trades, n, n);
    if j == n {
      NotYetSpanned(trades, n);
    } else {
      OtherId(trades, j, n);
    }
  }

  lemma OtherId(trades: seq<Trade>, j: nat, n: nat)
    requires UniqueIds(trades) && j < n < |trades|
    ensures trades[j].tradeId != trades[n].tradeId
  {
  }

  lemma NotYetSpanned(trades: seq<Trade>, n: nat)
    ensures !Spanned(trades, n, n) && Current(trades, n, n)
  {
  }

  /** On every ledger, oversold or not, whose pass succeeds: a trade has a holding period exactly when it lies
      between a BUY from zero and the next SELL down to zero with no other BUY from zero between, and the
      period is the time from that BUY to that SELL. */
  lemma {:induction false} PeriodsExactly(trades: seq<Trade>, j: nat, n: nat)
    requires j < n <= |trades| && UniqueIds(trades) && Hold(trades[..n]).Some?
    ensures PeriodOf(trades, j, n, Hold(trades[..n]).value)
  {
    hide PeriodOf, Starts, Closes, AssignAll;
    StepByEvents(trades, n - 1);
    if j < n - 1 {
      PeriodsExactly(trades, j, n - 1);
    }
    if Closes(trades, n - 1) {
      AfterClose(trades, j, n - 1);
    } else {
      BeforeClose(trades, j, n - 1);
    }
  }
}
