/** Alert deduplication and rate limiting: the policy's decision, and the scheduler's bookkeeping of
    it over any run of ticks. Times are seconds; the clock may jump in either direction. */
module AlertDedup {
  import opened Options

  datatype Decision = Send | SuppressNoChange | SuppressRateLimited

  datatype SentState = SentState(lastSignature: Option<string>, lastSentAt: Option<real>)

  function Evaluate(interval: real, state: Option<SentState>, signature: string, now: real): Decision {
    if state.None? || state.value.lastSignature.None? then Send
    else if signature == state.value.lastSignature.value then SuppressNoChange
    else if state.value.lastSentAt.Some? && interval > 0.0 && now - state.value.lastSentAt.value < interval
    then SuppressRateLimited
    else Send
  }

  // ---------- one evaluation and its bookkeeping ----------

  datatype LastStatus = Sent | Suppressed | Failed

  datatype Row = Row(sent: SentState, status: LastStatus, updatedAt: real)

  /** What the outside world does during one tick: the notifier may raise, and so may the write of
      the dedup row that follows. */
  datatype World = World(notifies: bool, records: bool)

  datatype Tick = Tick(alert: string, signature: string, now: real, world: World)

  datatype Outcome = WasSent | WasSuppressed(why: Decision) | NotifierFailed | RecordFailed

  /** An alert that reached the operator; `recorded` says whether the dedup row was then written. */
  datatype Delivery = Delivery(alert: string, signature: string, at: real, recorded: bool)

  /** `deliveries` is a history variable. */
  datatype Desk = Desk(rows: map<string, Row>, deliveries: seq<Delivery>)

  function SentBefore(rows: map<string, Row>, alert: string): SentState {
    if alert in rows then rows[alert].sent else SentState(None, None)
  }

  function StateOf(rows: map<string, Row>, alert: string): Option<SentState> {
    if alert in rows then Some(rows[alert].sent) else None
  }

  function DecisionAt(interval: real, d: Desk, t: Tick): Decision {
    Evaluate(interval, StateOf(d.rows, t.alert), t.signature, t.now)
  }

  function Step(interval: real, d: Desk, t: Tick): Desk {
    var kept := SentBefore(d.rows, t.alert);
    var sends := DecisionAt(interval, d, t).Send?;
    var delivered := sends && t.world.notifies;
    var row :=
      if !sends then Row(kept, Suppressed, t.now)
      else if !t.world.notifies then Row(kept, Failed, t.now)
      else Row(SentState(Some(t.signature), Some(t.now)), Sent, t.now);
    Desk(if t.world.records then d.rows[t.alert := row] else d.rows,
         if delivered then d.deliveries + [Delivery(t.alert, t.signature, t.now, t.world.records)] else d.deliveries)
  }

  function Run(interval: real, ticks: seq<Tick>): Desk {
    if |ticks| == 0 then Desk(map[], []) else Step(interval, Run(interval, ticks[..|ticks| - 1]), ticks[|ticks| - 1])
  }

  /** The scheduler's dedup table. */
  class Scheduler {
    const interval: real
    var rows: map<string, Row>
    ghost var deliveries: seq<Delivery>

    constructor (interval: real)
      ensures View() == Run(interval, []) && this.interval == interval
    {
      this.interval := interval;
      rows, deliveries := map[], [];
    }

    ghost function View(): Desk
      reads this
    {
      Desk(rows, deliveries)
    }

    method ApplyDecision(t: Tick, decision: Decision) returns (r: Outcome)
      requires decision == DecisionAt(interval, View(), t)
      modifies this
      ensures View() == Step(interval, old(View()), t)
      ensures r == if !t.world.records then RecordFailed
                   else if !decision.Send? then WasSuppressed(decision)
                   else if t.world.notifies then WasSent
                   else NotifierFailed
    {
      var previous := SentBefore(rows, t.alert);
      if !decision.Send? {
        var ok := Record(t, Row(previous, Suppressed, t.now));
        return if ok then WasSuppressed(decision) else RecordFailed;
      }
      if !t.world.notifies {
        var ok := Record(t, Row(previous, Failed, t.now));
        return if ok then NotifierFailed else RecordFailed;
      }
      deliveries := deliveries + [Delivery(t.alert, t.signature, t.now, t.world.records)];
      var ok := Record(t, Row(SentState(Some(t.signature), Some(t.now)), Sent, t.now));
      return if ok then WasSent else RecordFailed;
    }

    method Record(t: Tick, row: Row) returns (ok: bool)
      modifies this`rows
      ensures ok == t.world.records && rows == if ok then old(rows)[t.alert := row] else old(rows)
    {
      if t.world.records {
        rows := rows[t.alert := row];
      }
      return t.world.records;
    }

    /** One job's alert: evaluate against the stored state, then apply the decision. */
    method RunTick(t: Tick) returns (r: Outcome)
      modifies this
      ensures View() == Step(interval, old(View()), t)
      ensures r == WasSent <==> DecisionAt(interval, old(View()), t).Send? && t.world.notifies && t.world.records
      ensures t.world.records ==>
                && rows.Keys == old(rows).Keys + {t.alert} && rows[t.alert].updatedAt == t.now
                && rows[t.alert].status == (if !DecisionAt(interval, old(View()), t).Send? then Suppressed
                                            else if t.world.notifies then Sent else Failed)
      ensures !t.world.records ==> rows == old(rows)
      ensures r.WasSuppressed? <==> !DecisionAt(interval, old(View()), t).Send? && t.world.records
    {
      var decision := Evaluate(interval, StateOf(rows, t.alert), t.signature, t.now);
      r := ApplyDecision(t, decision);
    }
  }

  // ---------- what holds over every run ----------

  /** Deliveries of one alert type whose row was written, oldest first. */
  function RecordedOf(log: seq<Delivery>, alert: string): seq<Delivery> {
    if |log| == 0 then []
    else
      var n := |log| - 1;
      RecordedOf(log[..n], alert) + if log[n].alert == alert && log[n].recorded then [log[n]] else []
  }

  function DeliveriesOf(log: seq<Delivery>, alert: string): seq<Delivery> {
    if |log| == 0 then []
    else
      var n := |log| - 1;
      DeliveriesOf(log[..n], alert) + if log[n].alert == alert then [log[n]] else []
  }

  /** The row of an alert type describes its last recorded delivery. */
  predicate RowOk(d: Desk, alert: string) {
    var log := RecordedOf(d.deliveries, alert);
    SentBefore(d.rows, alert) ==
    if |log| == 0 then SentState(None, None)
    else SentState(Some(log[|log| - 1].signature), Some(log[|log| - 1].at))
  }

  predicate Spaced(interval: real, a: Delivery, b: Delivery) {
    a.signature != b.signature && (interval > 0.0 ==> b.at - a.at >= interval)
  }

  /** Each delivery is spaced from the last recorded delivery before it. */
  ghost predicate DeskOk(interval: real, d: Desk) {
    && (forall a :: RowOk(d, a))
    && (forall i | 0 <= i < |d.deliveries| :: FollowsRecorded(interval, d.deliveries, i))
  }

  predicate FollowsRecorded(interval: real, log: seq<Delivery>, i: nat)
    requires i < |log|
  {
    var before := RecordedOf(log[..i], log[i].alert);
    |before| > 0 ==> Spaced(interval, before[|before| - 1], log[i])
  }

  lemma StepKeepsRow(interval: real, d: Desk, t: Tick, alert: string)
    requires RowOk(d, alert)
    ensures RowOk(Step(interval, d, t), alert)
  {
    var after := Step(interval, d, t);
    assert after.deliveries != d.deliveries ==> after.deliveries[..|d.deliveries|] == d.deliveries;
  }

  lemma StepKeepsSpacing(interval: real, d: Desk, t: Tick)
    requires DeskOk(interval, d)
    ensures DeskOk(interval, Step(interval, d, t))
  {
    var after := Step(interval, d, t);
    forall a ensures RowOk(after, a) {
      StepKeepsRow(interval, d, t, a);
    }
    var n := |d.deliveries|;
    forall i | 0 <= i < |after.deliveries| ensures FollowsRecorded(interval, after.deliveries, i) {
      if i < n {
        assert FollowsRecorded(interval, d.deliveries, i);
        assert after.deliveries[..i] == d.deliveries[..i];
      } else {
        assert after.deliveries[..n] == d.deliveries;
        assert RowOk(d, t.alert);
      }
    }
  }

  lemma {:induction false} RunKeepsDesk(interval: real, ticks: seq<Tick>)
    ensures DeskOk(interval, Run(interval, ticks))
  {
    if |ticks| > 0 {
      RunKeepsDesk(interval, ticks[..|ticks| - 1]);
      StepKeepsSpacing(interval, Run(interval, ticks[..|ticks| - 1]), ticks[|ticks| - 1]);
    }
  }

  /** After any run, a tick is decided by the recorded deliveries of its type alone: it sends when
      there is none, or when the last one said something else at least an interval ago; it is suppressed as
      unchanged when the last one said the same, and as too early when it said something else. */
  lemma DecisionFollowsHistory(interval: real, ticks: seq<Tick>, t: Tick)
    ensures var d := Run(interval, ticks);
            var log := RecordedOf(d.deliveries, t.alert);
            DecisionAt(interval, d, t).Send? <==>
            |log| == 0 || Spaced(interval, log[|log| - 1], Delivery(t.alert, t.signature, t.now, true))
    ensures var d := Run(interval, ticks);
            var log := RecordedOf(d.deliveries, t.alert);
            && (DecisionAt(interval, d, t) == SuppressNoChange <==>
                  |log| > 0 && log[|log| - 1].signature == t.signature)
            && (DecisionAt(interval, d, t) == SuppressRateLimited <==>
                && |log| > 0 && log[|log| - 1].signature != t.signature
                && interval > 0.0 && t.now - log[|log| - 1].at < interval)
  {
    RunKeepsDesk(interval, ticks);
    assert RowOk(Run(interval, ticks), t.alert);
  }

  lemma {:induction false} LastRecorded(log: seq<Delivery>, alert: string)
    requires var sends := DeliveriesOf(log, alert); |sends| > 0 && sends[|sends| - 1].recorded
    ensures var sends, recorded := DeliveriesOf(log, alert), RecordedOf(log, alert);
            |recorded| > 0 && recorded[|recorded| - 1] == sends[|sends| - 1]
  {
    if log[|log| - 1].alert != alert {
      LastRecorded(log[..|log| - 1], alert);
    }
  }

  lemma ShorterFollows(interval: real, log: seq<Delivery>)
    requires |log| > 0 && forall i | 0 <= i < |log| :: FollowsRecorded(interval, log, i)
    ensures var front := log[..|log| - 1]; forall i | 0 <= i < |front| :: FollowsRecorded(interval, front, i)
  {
    var front := log[..|log| - 1];
    forall i | 0 <= i < |front| ensures FollowsRecorded(interval, front, i) {
      assert FollowsRecorded(interval, log, i);
      assert front[..i] == log[..i];
    }
  }

  lemma {:induction false} ConsecutiveSpaced(interval: real, log: seq<Delivery>, alert: string, k: nat)
    requires forall i | 0 <= i < |log| :: FollowsRecorded(interval, log, i)
    requires k + 1 < |DeliveriesOf(log, alert)| && DeliveriesOf(log, alert)[k].recorded
    ensures Spaced(interval, DeliveriesOf(log, alert)[k], DeliveriesOf(log, alert)[k + 1])
  {
    var n := |log| - 1;
    ShorterFollows(interval, log);
    if k + 1 < |DeliveriesOf(log[..n], alert)| {
      ConsecutiveSpaced(interval, log[..n], alert, k);
    } else {
      assert FollowsRecorded(interval, log, n);
      LastRecorded(log[..n], alert);
    }
  }

  lemma {:induction false} RecordedSpaced(interval: real, log: seq<Delivery>, alert: string, k: nat)
    requires forall i | 0 <= i < |log| :: FollowsRecorded(interval, log, i)
    requires k + 1 < |RecordedOf(log, alert)|
    ensures Spaced(interval, RecordedOf(log, alert)[k], RecordedOf(log, alert)[k + 1])
  {
    var n := |log| - 1;
    ShorterFollows(interval, log);
    assert FollowsRecorded(interval, log, n);
    if k + 1 < |RecordedOf(log[..n], alert)| {
      RecordedSpaced(interval, log[..n], alert, k);
    }
  }

  lemma {:induction false} AllRecorded(log: seq<Delivery>, alert: string)
    requires forall i | 0 <= i < |log| && log[i].alert == alert :: log[i].recorded
    ensures RecordedOf(log, alert) == DeliveriesOf(log, alert)
  {
    if |log| > 0 {
      AllRecorded(log[..|log| - 1], alert);
    }
  }

  /** A delivery whose row was written differs in signature from the next of its type and is an interval
      away from it, whatever the clock does and whatever became of the others. */
  lemma DeliveriesAreSpaced(interval: real, ticks: seq<Tick>, alert: string, k: nat)
    requires var sends := DeliveriesOf(Run(interval, ticks).deliveries, alert);
             k + 1 < |sends| && sends[k].recorded
    ensures var sends := DeliveriesOf(Run(interval, ticks).deliveries, alert);
            Spaced(interval, sends[k], sends[k + 1])
  {
    RunKeepsDesk(interval, ticks);
    ConsecutiveSpaced(interval, Run(interval, ticks).deliveries, alert, k);
  }

  lemma {:induction false} GapsAddUp(interval: real, sends: seq<Delivery>, i: nat, j: nat)
    requires interval > 0.0 && i <= j < |sends|
    requires forall k: nat | k + 1 < |sends| :: Spaced(interval, sends[k], sends[k + 1])
    ensures sends[j].at - sends[i].at >= (j - i) as real * interval
    decreases j
  {
    if i < j {
      GapsAddUp(interval, sends, i, j - 1);
      assert Spaced(interval, sends[j - 1], sends[j - 1 + 1]);
    }
  }

  /** Which deliveries fall in the closed span [from, from + length]. */
  function InSpan(sends: seq<Delivery>, from: real, length: real): set<nat> {
    set i: nat | i < |sends| && from <= sends[i].at <= from + length
  }

  lemma {:induction false} BoundedSet(s: set<nat>, low: nat, size: nat)
    requires forall i | i in s :: low <= i < low + size
    ensures |s| <= size
  {
    if size == 0 {
      assert s == {};
    } else {
      var last := low + size - 1;
      BoundedSet(s - {last}, low, size - 1);
      assert |s| <= |s - {last}| + 1;
    }
  }

  lemma FloorCovers(steps: nat, interval: real, length: real)
    requires interval > 0.0 && steps as real * interval <= length
    ensures steps <= (length / interval).Floor
  {
    assert steps as real <= length / interval;
  }

  /** Any span of length T holds at most 1 + floor(T / interval) recorded deliveries of the type, and of all
      its deliveries when every one was recorded. */
  lemma RateIsBounded(interval: real, ticks: seq<Tick>, alert: string, from: real, length: real)
    requires interval > 0.0 && length >= 0.0
    ensures var log := Run(interval, ticks).deliveries;
            var bound := 1 + (length / interval).Floor;
            && |InSpan(RecordedOf(log, alert), from, length)| <= bound
            && ((forall i | 0 <= i < |log| && log[i].alert == alert :: log[i].recorded) ==>
                  |InSpan(DeliveriesOf(log, alert), from, length)| <= bound)
  {
    var log := Run(interval, ticks).deliveries;
    RunKeepsDesk(interval, ticks);
    forall k: nat | k + 1 < |RecordedOf(log, alert)|
      ensures Spaced(interval, RecordedOf(log, alert)[k], RecordedOf(log, alert)[k + 1])
    {
      RecordedSpaced(interval, log, alert, k);
    }
    SpanBound(interval, RecordedOf(log, alert), from, length);
    if forall i | 0 <= i < |log| && log[i].alert == alert :: log[i].recorded {
      AllRecorded(log, alert);
    }
  }

  lemma {:induction false} LeastElement(s: set<nat>, n: nat) returns (low: nat)
    requires n in s
    ensures low in s && forall i | i in s :: low <= i
    decreases n
  {
    if i: nat :| i in s && i < n {
      low := LeastElement(s, i);
    } else {
      low := n;
    }
  }

  lemma StepsInSpan(interval: real, sends: seq<Delivery>, i: nat, j: nat, length: real)
    requires interval > 0.0 && i <= j < |sends| && sends[j].at - sends[i].at <= length
    requires forall k: nat | k + 1 < |sends| :: Spaced(interval, sends[k], sends[k + 1])
    ensures j - i <= (length / interval).Floor
  {
    GapsAddUp(interval, sends, i, j);
    hide Spaced;
    FloorCovers(j - i, interval, length);
  }

  lemma SpanBound(interval: real, sends: seq<Delivery>, from: real, length: real)
    requires interval > 0.0 && length >= 0.0
    requires forall k: nat | k + 1 < |sends| :: Spaced(interval, sends[k], sends[k + 1])
    ensures |InSpan(sends, from, length)| <= 1 + (length / interval).Floor
  {
    var inside := InSpan(sends, from, length);
    var steps := (length / interval).Floor;
    FloorCovers(0, interval, length);
    if inside != {} {
      var some :| some in inside;
      var low := LeastElement(inside, some);
      forall i | i in inside ensures low <= i < low + steps + 1 {
        StepsInSpan(interval, sends, low, i, length);
      }
      BoundedSet(inside, low, steps + 1);
    }
  }

  lemma RunAppend(interval: real, ticks: seq<Tick>, t: Tick)
    ensures Run(interval, ticks + [t]) == Step(interval, Run(interval, ticks), t)
  {
    assert (ticks + [t])[..|ticks|] == ticks;
  }

  lemma SameTickTwice(interval: real, d: Desk, t: Tick)
    requires DecisionAt(interval, d, t).Send? && t.world.notifies
    ensures var once := Step(interval, d, t);
            && |once.deliveries| == |d.deliveries| + 1
            && (|Step(interval, once, t).deliveries| == |once.deliveries| + 1 <==> !t.world.records)
  {
  }

  /** The rule breaks exactly for the delivery after an unrecorded one: a tick whose row write
      failed is sent again, unchanged, by the same tick repeated. */
  lemma UnrecordedSendRepeats(interval: real, ticks: seq<Tick>, t: Tick)
    requires DecisionAt(interval, Run(interval, ticks), t).Send? && t.world.notifies
    ensures var twice := Run(interval, ticks + [t] + [t]).deliveries;
            var once := Run(interval, ticks + [t]).deliveries;
            && |once| == |Run(interval, ticks).deliveries| + 1
            && (|twice| == |once| + 1 <==> !t.world.records)
  {
    hide *;
    RunAppend(interval, ticks, t);
    RunAppend(interval, ticks + [t], t);
    SameTickTwice(interval, Run(interval, ticks), t);
  }
}
