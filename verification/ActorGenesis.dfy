/** The agent's lock-protected, lazily created actor, as atomic steps of any number of threads
    running tool calls and resets in any interleaving. Actor ids are issued by a shared runtime and
    never issued twice. */
module ActorGenesis {
  import opened Options

  type Thread = nat

  /** Where a thread stands. `Entered` to `Decided` and the two reset phases hold the actor lock. */
  datatype Phase =
    | Outside
    | Entered
    | Minted(id: nat)
    | Decided
    | Snapped(id: nat)
    | Resolved(id: nat)
    | Resetting
    | Severed

  /** `Mint(false)` is a creation that raises, which leaves the lock; `OtherAgentMints` is another
      agent drawing an id from the same runtime. */
  datatype Action =
    | AcquireForTool
    | FindActor
    | Mint(succeeds: bool)
    | AssignActor
    | Snapshot
    | ReleaseForTool
    | Execute
    | AcquireForReset
    | Sever
    | ReleaseForReset
    | OtherAgentMints

  datatype Event =
    | Created(id: nat)
    | Read(thread: Thread, id: nat)
    | Executed(thread: Thread, id: nat)
    | Cleared
    | ResetDone

  /** `log` is a history variable, oldest event first. */
  datatype State = State(actor: Option<nat>, lock: Option<Thread>, phases: map<Thread, Phase>, nextId: nat,
      log: seq<Event>)

  function PhaseOf(s: State, t: Thread): Phase {
    if t in s.phases then s.phases[t] else Outside
  }

  function Moved(s: State, t: Thread, phase: Phase): State {
    s.(phases := s.phases[t := phase])
  }

  function Logged(s: State, e: Event): State {
    s.(log := s.log + [e])
  }

  function Acquired(s: State, t: Thread, phase: Phase): State {
    if PhaseOf(s, t).Outside? && s.lock.None? then Moved(s, t, phase).(lock := Some(t)) else s
  }

  function Found(s: State, t: Thread): State {
    if PhaseOf(s, t).Entered? && s.actor.Some? then Moved(s, t, Decided) else s
  }

  function MintTried(s: State, t: Thread, succeeds: bool): State {
    if !PhaseOf(s, t).Entered? || s.actor.Some? then s
    else if succeeds then Logged(Moved(s, t, Minted(s.nextId)), Created(s.nextId)).(nextId := s.nextId + 1)
    else Moved(s, t, Outside).(lock := None)
  }

  function Assigned(s: State, t: Thread): State {
    if PhaseOf(s, t).Minted? then Moved(s, t, Decided).(actor := Some(PhaseOf(s, t).id)) else s
  }

  function SnapshotTaken(s: State, t: Thread): State {
    if PhaseOf(s, t).Decided? && s.actor.Some?
    then Logged(Moved(s, t, Snapped(s.actor.value)), Read(t, s.actor.value)) else s
  }

  function ReleasedForTool(s: State, t: Thread): State {
    if PhaseOf(s, t).Snapped? then Moved(s, t, Resolved(PhaseOf(s, t).id)).(lock := None) else s
  }

  function ToolExecuted(s: State, t: Thread): State {
    if PhaseOf(s, t).Resolved? then Logged(Moved(s, t, Outside), Executed(t, PhaseOf(s, t).id)) else s
  }

  function ActorSevered(s: State, t: Thread): State {
    if PhaseOf(s, t).Resetting? then Logged(Moved(s, t, Severed), Cleared).(actor := None) else s
  }

  function ReleasedForReset(s: State, t: Thread): State {
    if PhaseOf(s, t).Severed? then Logged(Moved(s, t, Outside), ResetDone).(lock := None) else s
  }

  /** One atomic step of one thread; a step its thread cannot take leaves everything as it is. */
  function Step(s: State, t: Thread, a: Action): State {
    match a
    case AcquireForTool => Acquired(s, t, Entered)
    case FindActor => Found(s, t)
    case Mint(succeeds) => MintTried(s, t, succeeds)
    case AssignActor => Assigned(s, t)
    case Snapshot => SnapshotTaken(s, t)
    case ReleaseForTool => ReleasedForTool(s, t)
    case Execute => ToolExecuted(s, t)
    case AcquireForReset => Acquired(s, t, Resetting)
    case Sever => ActorSevered(s, t)
    case ReleaseForReset => ReleasedForReset(s, t)
    case OtherAgentMints => s.(nextId := s.nextId + 1)
  }

  datatype Move = Move(thread: Thread, action: Action)

  function Run(moves: seq<Move>): State {
    if |moves| == 0 then State(None, None, map[], 0, [])
    else
      var n := |moves| - 1;
      Step(Run(moves[..n]), moves[n].thread, moves[n].action)
  }

  // ---------- reading the log ----------

  function Creates(log: seq<Event>): nat {
    if |log| == 0 then 0 else Creates(log[..|log| - 1]) + if log[|log| - 1].Created? then 1 else 0
  }

  function Resets(log: seq<Event>): nat {
    if |log| == 0 then 0 else Resets(log[..|log| - 1]) + if log[|log| - 1].ResetDone? then 1 else 0
  }

  function Clears(log: seq<Event>): nat {
    if |log| == 0 then 0 else Clears(log[..|log| - 1]) + if log[|log| - 1].Cleared? then 1 else 0
  }

  /** The id created last, unless it has been cleared since. */
  function Current(log: seq<Event>): Option<nat> {
    if |log| == 0 then None
    else
      match log[|log| - 1]
      case Created(id) => Some(id)
      case Cleared => None
      case _ => Current(log[..|log| - 1])
  }

  /** Every id this agent ever created. */
  function CreatedIds(log: seq<Event>): set<nat> {
    if |log| == 0 then {}
    else CreatedIds(log[..|log| - 1]) + if log[|log| - 1].Created? then {log[|log| - 1].id} else {}
  }

  /** Creations happen only with nothing current and use new ids; reads see the current actor. */
  predicate LogOk(log: seq<Event>) {
    |log| > 0 ==>
      var n := |log| - 1;
      && LogOk(log[..n])
      && match log[n]
         case Created(id) => Current(log[..n]).None? && forall earlier | earlier in CreatedIds(log[..n]) :: earlier < id
         case Read(_, id) => Current(log[..n]) == Some(id)
         case Executed(t, id) => Read(t, id) in log[..n]
         case _ => true
  }

  // ---------- the invariant ----------

  predicate HoldsLock(p: Phase) {
    !p.Outside? && !p.Resolved?
  }

  ghost predicate LockOk(s: State) {
    forall t: Thread :: HoldsLock(PhaseOf(s, t)) <==> s.lock == Some(t)
  }

  ghost predicate PhasesOk(s: State) {
    forall t: Thread :: PhaseOk(s, t)
  }

  /** Ids are issued in order, and the stored actor is the one the log says, except while a new one
      has been created but not yet stored. */
  predicate ActorOk(s: State) {
    && LogOk(s.log)
    && (s.actor == Current(s.log) || (s.lock.Some? && PhaseOf(s, s.lock.value).Minted?))
    && (forall id | id in CreatedIds(s.log) :: id < s.nextId)
  }

  predicate CountsOk(s: State) {
    && Creates(s.log) <= Clears(s.log) + (if Current(s.log).Some? then 1 else 0)
    && Clears(s.log) == Resets(s.log) + (if s.lock.Some? && PhaseOf(s, s.lock.value).Severed? then 1 else 0)
  }

  ghost predicate Inv(s: State) {
    LockOk(s) && PhasesOk(s) && ActorOk(s) && CountsOk(s)
  }

  predicate PhaseOk(s: State, t: Thread) {
    match PhaseOf(s, t)
    case Minted(id) => s.actor.None? && Current(s.log) == Some(id)
    case Decided => s.actor.Some?
    case Snapped(id) => Read(t, id) in s.log
    case Resolved(id) => Read(t, id) in s.log
    case Severed => Current(s.log).None?
    case _ => true
  }

  lemma LogGrows(log: seq<Event>, e: Event)
    ensures var more := log + [e];
            && more[..|log|] == log
            && Creates(more) == Creates(log) + (if e.Created? then 1 else 0)
            && Clears(more) == Clears(log) + (if e.Cleared? then 1 else 0)
            && Resets(more) == Resets(log) + (if e.ResetDone? then 1 else 0)
            && CreatedIds(more) == CreatedIds(log) + (if e.Created? then {e.id} else {})
            && Current(more) == (if e.Created? then Some(e.id) else if e.Cleared? then None else Current(log))
  {
    assert (log + [e])[..|log|] == log;
  }

  /** What holds of the stepping thread and of the shared state. */
  predicate Core(s: State, t: Thread) {
    && (HoldsLock(PhaseOf(s, t)) <==> s.lock == Some(t))
    && PhaseOk(s, t) && ActorOk(s) && CountsOk(s)
  }

  lemma AcquiredKept(s: State, t: Thread, phase: Phase)
    requires Core(s, t) && (phase.Entered? || phase.Resetting?)
    ensures Core(Acquired(s, t, phase), t)
  {
    hide LogOk, Current, CreatedIds, Creates, Clears, Resets;
  }

  lemma FoundKept(s: State, t: Thread)
    requires Core(s, t)
    ensures Core(Found(s, t), t)
  {
    hide LogOk, Current, CreatedIds, Creates, Clears, Resets;
  }

  lemma AssignedKept(s: State, t: Thread)
    requires Core(s, t)
    ensures Core(Assigned(s, t), t)
  {
    hide LogOk, Current, CreatedIds, Creates, Clears, Resets;
  }

  lemma ReleasedForToolKept(s: State, t: Thread)
    requires Core(s, t)
    ensures Core(ReleasedForTool(s, t), t)
  {
    hide LogOk, Current, CreatedIds, Creates, Clears, Resets;
  }

  lemma OtherMintKept(s: State, t: Thread)
    requires Core(s, t)
    ensures Core(s.(nextId := s.nextId + 1), t)
  {
    hide LogOk, Current, CreatedIds, Creates, Clears, Resets;
  }

  lemma NewIdLogOk(log: seq<Event>, id: nat)
    requires LogOk(log) && Current(log).None? && forall earlier | earlier in CreatedIds(log) :: earlier < id
    ensures LogOk(log + [Created(id)])
  {
    assert (log + [Created(id)])[..|log|] == log;
  }

  lemma MintTriedKept(s: State, t: Thread, succeeds: bool)
    requires Core(s, t)
    ensures Core(MintTried(s, t, succeeds), t)
  {
    hide LogOk, Current, CreatedIds, Creates, Clears, Resets;
    if succeeds && PhaseOf(s, t).Entered? && s.actor.None? {
      LogGrows(s.log, Created(s.nextId));
      NewIdLogOk(s.log, s.nextId);
    }
  }

  lemma SnapshotTakenKept(s: State, t: Thread)
    requires Core(s, t)
    ensures Core(SnapshotTaken(s, t), t)
  {
    if PhaseOf(s, t).Decided? && s.actor.Some? {
      LogGrows(s.log, Read(t, s.actor.value));
    }
    hide Current, CreatedIds, Creates, Clears, Resets;
  }

  lemma ToolExecutedKept(s: State, t: Thread)
    requires Core(s, t)
    ensures Core(ToolExecuted(s, t), t)
  {
    if PhaseOf(s, t).Resolved? {
      LogGrows(s.log, Executed(t, PhaseOf(s, t).id));
    }
    hide Current, CreatedIds, Creates, Clears, Resets;
  }

  lemma ActorSeveredKept(s: State, t: Thread)
    requires Core(s, t)
    ensures Core(ActorSevered(s, t), t)
  {
    if PhaseOf(s, t).Resetting? {
      LogGrows(s.log, Cleared);
    }
    hide Current, CreatedIds, Creates, Clears, Resets;
  }

  lemma ReleasedForResetKept(s: State, t: Thread)
    requires Core(s, t)
    ensures Core(ReleasedForReset(s, t), t)
  {
    if PhaseOf(s, t).Severed? {
      LogGrows(s.log, ResetDone);
    }
    hide Current, CreatedIds, Creates, Clears, Resets;
  }

  lemma OwnStepKept(s: State, t: Thread, a: Action)
    requires Core(s, t)
    ensures Core(Step(s, t, a), t)
  {
    hide Core, Acquired, Found, MintTried, Assigned, SnapshotTaken, ReleasedForTool, ToolExecuted, ActorSevered,
        ReleasedForReset;
    match a
    case AcquireForTool => AcquiredKept(s, t, Entered);
    case FindActor => FoundKept(s, t);
    case Mint(succeeds) => MintTriedKept(s, t, succeeds);
    case AssignActor => AssignedKept(s, t);
    case Snapshot => SnapshotTakenKept(s, t);
    case ReleaseForTool => ReleasedForToolKept(s, t);
    case Execute => ToolExecutedKept(s, t);
    case AcquireForReset => AcquiredKept(s, t, Resetting);
    case Sever => ActorSeveredKept(s, t);
    case ReleaseForReset => ReleasedForResetKept(s, t);
    case OtherAgentMints => OtherMintKept(s, t);
  }

  /** What a step leaves alone: other threads' phases, the lock when another thread holds it, and all
      earlier events; and the shared actor while another thread is in a locked section. */
  lemma StepIsLocal(s: State, t: Thread, a: Action, u: Thread)
    requires u != t && Core(s, t)
    ensures var after := Step(s, t, a);
            && PhaseOf(after, u) == PhaseOf(s, u) && (after.lock == Some(u) <==> s.lock == Some(u))
            && (s.lock == Some(u) ==> after.actor == s.actor)
            && (s.lock == Some(u) ==> after.log == s.log || exists id :: after.log == s.log + [Executed(t, id)])
            && s.log <= after.log
  {
    hide LogOk, Current, CreatedIds, Creates, Clears, Resets;
  }

  lemma OtherStepKept(s: State, t: Thread, a: Action, u: Thread)
    requires u != t && Core(s, t) && PhaseOk(s, u) && (HoldsLock(PhaseOf(s, u)) <==> s.lock == Some(u))
    ensures var after := Step(s, t, a);
            PhaseOk(after, u) && (HoldsLock(PhaseOf(after, u)) <==> after.lock == Some(u))
  {
    StepIsLocal(s, t, a, u);
    var after := Step(s, t, a);
    hide Step;
    assert forall e | e in s.log :: e in after.log;
    if s.lock == Some(u) && after.log != s.log {
      var id :| after.log == s.log + [Executed(t, id)];
      LogGrows(s.log, Executed(t, id));
    }
  }

  lemma StepKeepsInv(s: State, t: Thread, a: Action)
    requires Inv(s)
    ensures Inv(Step(s, t, a))
  {
    assert PhaseOk(s, t) && (HoldsLock(PhaseOf(s, t)) <==> s.lock == Some(t));
    OwnStepKept(s, t, a);
    hide Step, PhaseOk, ActorOk, CountsOk, HoldsLock;
    forall u: Thread | u != t ensures PhaseOk(Step(s, t, a), u) &&
        (HoldsLock(PhaseOf(Step(s, t, a), u)) <==> Step(s, t, a).lock == Some(u)) {
      assert PhaseOk(s, u) && (HoldsLock(PhaseOf(s, u)) <==> s.lock == Some(u));
      OtherStepKept(s, t, a, u);
    }
  }

  lemma {:induction false} RunKeepsInv(moves: seq<Move>)
    ensures Inv(Run(moves))
  {
    if |moves| > 0 {
      var n := |moves| - 1;
      RunKeepsInv(moves[..n]);
      StepKeepsInv(Run(moves[..n]), moves[n].thread, moves[n].action);
    }
  }

  // ---------- what holds in every interleaving ----------

  /** At most one thread is inside either locked section. */
  lemma MutualExclusion(moves: seq<Move>, t: Thread, u: Thread)
    requires HoldsLock(PhaseOf(Run(moves), t)) && HoldsLock(PhaseOf(Run(moves), u))
    ensures t == u
  {
    RunKeepsInv(moves);
    assert Run(moves).lock == Some(t) && Run(moves).lock == Some(u);
  }

  lemma CountsBound(s: State)
    requires Inv(s)
    ensures Creates(s.log) <= 1 + Resets(s.log)
  {
    hide Creates, Clears, Resets, Current;
    if s.lock.Some? && PhaseOf(s, s.lock.value).Severed? {
      assert PhaseOk(s, s.lock.value);
    }
  }

  /** Actors are created at most once, plus once for each completed reset. */
  lemma CreatesAreBounded(moves: seq<Move>)
    ensures Creates(Run(moves).log) <= 1 + Resets(Run(moves).log)
  {
    hide *;
    RunKeepsInv(moves);
    CountsBound(Run(moves));
  }

  lemma {:induction false} LogPrefixOk(log: seq<Event>, i: nat)
    requires LogOk(log) && i <= |log|
    ensures LogOk(log[..i])
    decreases |log|
  {
    if i < |log| {
      var n := |log| - 1;
      assert log[..n][..i] == log[..i];
      LogPrefixOk(log[..n], i);
    } else {
      assert log[..i] == log;
    }
  }

  /** What the log's condition says about the event at one index. */
  lemma EventOk(log: seq<Event>, i: nat)
    requires LogOk(log) && i < |log|
    ensures match log[i]
            case Created(id) => Current(log[..i]).None? &&
                forall earlier | earlier in CreatedIds(log[..i]) :: earlier < id
            case Read(_, id) => Current(log[..i]) == Some(id)
            case Executed(t, id) => Read(t, id) in log[..i]
            case _ => true
  {
    LogPrefixOk(log, i + 1);
    assert log[..i + 1][..i] == log[..i];
  }

  lemma {:induction false} CurrentWasCreated(log: seq<Event>, id: nat)
    requires Current(log) == Some(id)
    ensures id in CreatedIds(log)
  {
    var n := |log| - 1;
    if !log[n].Created? {
      CurrentWasCreated(log[..n], id);
    }
  }

  lemma PrefixStep(log: seq<Event>, i: nat)
    requires i < |log|
    ensures var e := log[i];
            && CreatedIds(log[..i + 1]) == CreatedIds(log[..i]) + (if e.Created? then {e.id} else {})
            && Current(log[..i + 1]) == (if e.Created? then Some(e.id) else if e.Cleared? then None
                else Current(log[..i]))
  {
    assert log[..i + 1] == log[..i] + [log[i]];
    LogGrows(log[..i], log[i]);
  }

  lemma {:induction false} CurrentPersists(log: seq<Event>, i: nat, j: nat, id: nat)
    requires LogOk(log) && i <= j <= |log| && Current(log[..i]) == Some(id)
    requires forall k | i <= k < j :: !log[k].Cleared?
    ensures Current(log[..j]) == Some(id)
  {
    if i < j {
      CurrentPersists(log, i, j - 1, id);
      EventOk(log, j - 1);
      PrefixStep(log, j - 1);
    }
  }

  lemma {:induction false} CurrentIsNewAfterClear(log: seq<Event>, k: nat, j: nat)
    requires LogOk(log) && k < j <= |log| && log[k].Cleared?
    ensures CreatedIds(log[..k]) <= CreatedIds(log[..j])
    ensures Current(log[..j]).Some? ==>
        forall earlier | earlier in CreatedIds(log[..k]) :: earlier < Current(log[..j]).value
  {
    PrefixStep(log, j - 1);
    if k + 1 < j {
      CurrentIsNewAfterClear(log, k, j - 1);
      EventOk(log, j - 1);
    }
  }

  /** Two snapshots return the same actor exactly when no reset severed it between them; after a
      reset the actor is one no earlier snapshot returned. */
  lemma SnapshotsAgreeExactly(moves: seq<Move>, i: nat, j: nat)
    requires var log := Run(moves).log; i < j < |log| && log[i].Read? && log[j].Read?
    ensures var log := Run(moves).log;
            log[i].id == log[j].id <==> forall k | i < k < j :: !log[k].Cleared?
  {
    RunKeepsInv(moves);
    var log := Run(moves).log;
    EventOk(log, i);
    EventOk(log, j);
    if k: nat :| i < k < j && log[k].Cleared? {
      CurrentWasCreated(log[..i], log[i].id);
      CreatedIdsGrow(log, i, k);
      CurrentIsNewAfterClear(log, k, j);
    } else {
      CurrentPersists(log, i, j, log[i].id);
    }
  }

  lemma {:induction false} CreatedIdsGrow(log: seq<Event>, i: nat, k: nat)
    requires i <= k <= |log|
    ensures CreatedIds(log[..i]) <= CreatedIds(log[..k])
  {
    if i < k {
      CreatedIdsGrow(log, i, k - 1);
      PrefixStep(log, k - 1);
    }
  }

  /** Every tool execution uses the actor its own thread snapshotted, which this agent created. */
  lemma ExecutionsUseOwnActor(moves: seq<Move>, j: nat)
    requires j < |Run(moves).log| && Run(moves).log[j].Executed?
    ensures var log := Run(moves).log;
            && log[j].id in CreatedIds(log[..j])
            && exists i | 0 <= i < j :: log[i] == Read(log[j].thread, log[j].id)
  {
    RunKeepsInv(moves);
    var log := Run(moves).log;
    EventOk(log, j);
    var i :| 0 <= i < j && log[i] == Read(log[j].thread, log[j].id);
    EventOk(log, i);
    CurrentWasCreated(log[..i], log[i].id);
    CreatedIdsGrow(log, i, j);
  }

  /** A thread about to snapshot always finds an actor, so no tool ever runs without one. */
  lemma SnapshotNeverNull(moves: seq<Move>, t: Thread)
    requires PhaseOf(Run(moves), t).Decided?
    ensures var s := Run(moves);
            && s.actor.Some? && s.actor.value in CreatedIds(s.log)
            && PhaseOf(Step(s, t, Snapshot), t) == Snapped(s.actor.value)
  {
    RunKeepsInv(moves);
    var s := Run(moves);
    assert PhaseOk(s, t) && s.lock == Some(t);
    CurrentWasCreated(s.log, s.actor.value);
  }
}
