/** The desktop Agent's Worker thread: `start`, `stop` and `_run` as the steps between which
    other threads may run. Everything under the lock is one step; reading the stop event in
    `_run` is a step of its own because it happens outside the lock. */
module AgentRuntime {
  import opened Records

  type Tid = nat
  type EventId = nat

  datatype Label = Unconfigured | Stopped | Starting | Running | Error

  /** Where a thread stands in `_run`. */
  datatype Pc =
    | Created                    // about to take the lock and write "running"
    | Fetching                   // about to read the stop event
    | Inside(event: EventId)     // in `run_forever`
    | Returned                   // about to write "stopped"
    | Raised                     // about to write "error"
    | Leaving                    // nothing left to write, not yet dead
    | Dead

  /** A thread, with the event that `start` made for it. */
  datatype Thread = Thread(event: EventId, pc: Pc)

  /** The controller's fields and what they refer to. Threads and events are numbered in the
      order they were made; event 0 is the one `__init__` makes. `stoppers` are the `stop` calls
      between their two lock sections, each with the thread it is waiting for. */
  datatype Machine = Machine(
    configured: bool,
    state: Label,
    thread: Option<Tid>,
    stopEvent: EventId,
    threads: seq<Thread>,
    events: nat,
    signalled: set<EventId>,
    stoppers: map<nat, Tid>)

  function Initial(configured: bool): Machine {
    Machine(configured, if configured then Stopped else Unconfigured, None, 0, [], 1, {}, map[])
  }

  datatype Action =
    | StartCall
    | StopFirst(sid: nat)
    | StopLast(sid: nat)
    | Enter(t: Tid)
    | Fetch(t: Tid)
    | LoopEnds(t: Tid, raises: bool)
    | WriteOutcome(t: Tid)
    | Die(t: Tid)

  predicate Alive(m: Machine, t: Tid) {
    t < |m.threads| && !m.threads[t].pc.Dead?
  }

  predicate At(m: Machine, t: Tid, pc: Pc) {
    t < |m.threads| && m.threads[t].pc == pc
  }

  predicate CurrentAlive(m: Machine) {
    m.thread.Some? && Alive(m, m.thread.value)
  }

  /** `start` raises: no Worker, or the old thread has been told to stop and is still there. */
  predicate StartRefused(m: Machine) {
    !m.configured || (CurrentAlive(m) && m.stopEvent in m.signalled)
  }

  predicate Enabled(m: Machine, a: Action) {
    match a
    case StartCall => true
    case StopFirst(sid) => sid !in m.stoppers
    case StopLast(sid) => sid in m.stoppers
    case Enter(t) => At(m, t, Created)
    case Fetch(t) => At(m, t, Fetching)
    case LoopEnds(t, _) => t < |m.threads| && m.threads[t].pc.Inside?
    case WriteOutcome(t) => At(m, t, Returned) || At(m, t, Raised)
    case Die(t) => At(m, t, Leaving)
  }

  function Move(m: Machine, t: Tid, pc: Pc): Machine
    requires t < |m.threads|
  {
    m.(threads := m.threads[t := m.threads[t].(pc := pc)])
  }

  function After(m: Machine, a: Action): Machine
    requires Enabled(m, a)
  {
    match a
    case StartCall =>
      if StartRefused(m) || CurrentAlive(m) then m
      else
        m.(stopEvent := m.events, events := m.events + 1, state := Starting,
        thread := Some(|m.threads|), threads := m.threads + [Thread(m.events, Created)])
    case StopFirst(sid) =>
      if m.thread.None? then (if m.configured then m.(state := Stopped) else m)
      else m.(signalled := m.signalled + {m.stopEvent}, stoppers := m.stoppers[sid := m.thread.value])
    case StopLast(sid) =>
      var done := m.(stoppers := m.stoppers - {sid});
      if Alive(m, m.stoppers[sid]) then done else done.(state := Stopped)
    case Enter(t) => Move(m, t, Fetching).(state := Label.Running)
    case Fetch(t) => Move(m, t, Inside(m.stopEvent))
    case LoopEnds(t, raises) => Move(m, t, if raises then Raised else Returned)
    case WriteOutcome(t) => Move(m, t, Leaving).(state := if m.threads[t].pc.Raised? then Error else Stopped)
    case Die(t) => Move(m, t, Dead)
  }

  predicate Moves(before: Machine, a: Action, after: Machine) {
    Enabled(before, a) && after == After(before, a)
  }

  ghost predicate Trace(m: seq<Machine>, acts: seq<Action>) {
    && |m| == |acts| + 1
    && m[0] == Initial(m[0].configured)
    && forall i | 0 <= i < |acts| :: Moves(m[i], acts[i], m[i + 1])
  }

  // ---------- the invariant ----------

  ghost predicate MachineInv(m: Machine) {
    && m.events == |m.threads| + 1 && m.stopEvent == |m.threads|
    && m.thread == (if m.threads == [] then None else Some(|m.threads| - 1))
    && (m.threads != [] ==> m.configured)
    && (forall t | 0 <= t < |m.threads| :: m.threads[t].event == t + 1)
    && (forall t | 0 <= t < |m.threads| - 1 :: m.threads[t].pc.Dead?)
    && (forall t | 0 <= t < |m.threads| && m.threads[t].pc.Inside? :: m.threads[t].pc.event == m.threads[t].event)
    && (forall e <- m.signalled :: 0 < e <= |m.threads|)
    && (forall sid <- m.stoppers :: m.stoppers[sid] < |m.threads| && m.stoppers[sid] + 1 in m.signalled)
  }

  lemma StepKeeps(m: Machine, a: Action)
    requires MachineInv(m) && Enabled(m, a)
    ensures MachineInv(After(m, a))
  {
  }

  lemma {:induction false} TraceInv(m: seq<Machine>, acts: seq<Action>, i: nat)
    requires Trace(m, acts) && i < |m|
    ensures MachineInv(m[i])
  {
    if i > 0 {
      TraceInv(m, acts, i - 1);
      assert Moves(m[i - 1], acts[i - 1], m[i]);
      StepKeeps(m[i - 1], acts[i - 1]);
    }
  }

  // ---------- what it promises ----------

  /** At most one Worker thread is alive, and it is the one the controller knows. */
  lemma OneThread(m: seq<Machine>, acts: seq<Action>, i: nat, t: Tid)
    requires Trace(m, acts) && i < |m| && Alive(m[i], t)
    ensures m[i].thread == Some(t)
    ensures forall u | Alive(m[i], u) :: u == t
  {
    TraceInv(m, acts, i);
  }

  /** A thread always runs with the stop event made for it, although it reads the field outside
      the lock. */
  lemma OwnEvent(m: seq<Machine>, acts: seq<Action>, i: nat, t: Tid)
    requires Trace(m, acts) && i < |m| && t < |m[i].threads| && m[i].threads[t].pc.Inside?
    ensures m[i].threads[t].pc.event == m[i].threads[t].event
  {
    TraceInv(m, acts, i);
  }

  /** `_run` writes the status label only for the thread stored in the controller. */
  lemma OnlyTheCurrentThreadWrites(m: seq<Machine>, acts: seq<Action>, i: nat)
    requires Trace(m, acts) && i < |acts| && (acts[i].Enter? || acts[i].WriteOutcome?)
    ensures m[i].thread == Some(acts[i].t)
  {
    assert Moves(m[i], acts[i], m[i + 1]);
    TraceInv(m, acts, i);
  }

  /** A thread that has been told to stop stays told. While it lives, `start` refuses and
      changes nothing; so it is never taken back into service. */
  lemma {:induction false} NeverRevived(m: seq<Machine>, acts: seq<Action>, i: nat, j: nat, t: Tid)
    requires Trace(m, acts) && i <= j < |m|
    requires t < |m[i].threads| && m[i].threads[t].event in m[i].signalled
    ensures t < |m[j].threads| && m[j].threads[t].event in m[j].signalled
    ensures Alive(m[j], t) ==> StartRefused(m[j]) && After(m[j], StartCall) == m[j]
    decreases j
  {
    TraceInv(m, acts, i);
    TraceInv(m, acts, j);
    if i < j {
      NeverRevived(m, acts, i, j - 1, t);
      TraceInv(m, acts, j - 1);
      assert Moves(m[j - 1], acts[j - 1], m[j]);
    }
  }

  /** A dead thread stays dead. */
  lemma {:induction false} DeadStaysDead(m: seq<Machine>, acts: seq<Action>, i: nat, j: nat, t: Tid)
    requires Trace(m, acts) && i <= j < |m| && At(m[i], t, Dead)
    ensures At(m[j], t, Dead)
    decreases j
  {
    if i < j {
      DeadStaysDead(m, acts, i, j - 1, t);
      assert Moves(m[j - 1], acts[j - 1], m[j]);
    }
  }

  // ---------- the status label ----------

  lemma {:induction false} RaisedComesFromLoop(m: seq<Machine>, acts: seq<Action>, i: nat, t: Tid)
    requires Trace(m, acts) && i < |m| && At(m[i], t, Raised)
    ensures exists k | 0 <= k < i :: acts[k] == LoopEnds(t, true)
  {
    var j := i - 1;
    assert Moves(m[j], acts[j], m[i]);
    if At(m[j], t, Raised) {
      RaisedComesFromLoop(m, acts, j, t);
    } else {
      assert acts[j] == LoopEnds(t, true);
    }
  }

  /** The label tells how the loop ended: "error" comes from an exception in the loop, and from
      nothing else, and a thread that writes its outcome after an exception writes "error". */
  lemma {:induction false} ErrorMeansRaised(m: seq<Machine>, acts: seq<Action>, i: nat)
    requires Trace(m, acts) && i < |m| && m[i].state.Error?
    ensures exists k, t | 0 <= k < i :: acts[k] == LoopEnds(t, true)
  {
    var j := i - 1;
    assert Moves(m[j], acts[j], m[i]);
    if m[j].state.Error? {
      ErrorMeansRaised(m, acts, j);
    } else {
      RaisedComesFromLoop(m, acts, j, acts[j].t);
    }
  }

  /** What a thread writes when its loop has ended, if nothing else has happened to it since. */
  lemma OutcomeIsWritten(m: Machine, t: Tid, raises: bool)
    requires Enabled(m, LoopEnds(t, raises))
    ensures Enabled(After(m, LoopEnds(t, raises)), WriteOutcome(t))
    ensures After(After(m, LoopEnds(t, raises)), WriteOutcome(t)).state == if raises then Error else Stopped
  {
  }

  /** In `run_forever`, or on the way into it. */
  predicate Busy(pc: Pc) {
    pc.Created? || pc.Fetching? || pc.Inside?
  }

  /** "stopped" and "error" mean that no thread is working. */
  predicate Sound(m: Machine) {
    m.state.Stopped? || m.state.Error? ==> forall t | 0 <= t < |m.threads| :: !Busy(m.threads[t].pc)
  }

  /** The last section of a `stop` finds its own thread dead while a newer one is at work. */
  predicate LateWrite(m: Machine, a: Action) {
    && a.StopLast? && a.sid in m.stoppers && !Alive(m, m.stoppers[a.sid])
    && m.thread.Some? && m.thread.value < |m.threads| && Busy(m.threads[m.thread.value].pc)
  }

  /** Exactly one kind of step makes the label lie. */
  lemma LabelBreaksExactlyOnLateWrite(m: Machine, a: Action)
    requires MachineInv(m) && Enabled(m, a) && Sound(m)
    ensures Sound(After(m, a)) <==> !LateWrite(m, a)
  {
  }

  /** No `start` makes a thread while a `stop` is between its two sections. */
  ghost predicate NoOverlap(m: seq<Machine>, acts: seq<Action>)
    requires |m| == |acts| + 1
  {
    forall i | 0 <= i < |acts| && acts[i].StartCall? && m[i].stoppers != map[] :: m[i + 1] == m[i]
  }

  lemma {:induction false} StoppersWaitForCurrent(m: seq<Machine>, acts: seq<Action>, i: nat)
    requires Trace(m, acts) && NoOverlap(m, acts) && i < |m|
    ensures forall sid <- m[i].stoppers :: m[i].thread == Some(m[i].stoppers[sid])
  {
    if i > 0 {
      StoppersWaitForCurrent(m, acts, i - 1);
      assert Moves(m[i - 1], acts[i - 1], m[i]);
    }
  }

  lemma {:induction false} SoundUntilLateWrite(m: seq<Machine>, acts: seq<Action>, i: nat)
    requires Trace(m, acts) && i < |m|
    requires forall j | 0 <= j < i :: !LateWrite(m[j], acts[j])
    ensures Sound(m[i])
  {
    if i > 0 {
      SoundUntilLateWrite(m, acts, i - 1);
      TraceInv(m, acts, i - 1);
      assert Moves(m[i - 1], acts[i - 1], m[i]);
      LabelBreaksExactlyOnLateWrite(m[i - 1], acts[i - 1]);
    }
  }

  /** When stops do not overlap starts, the label can be believed at every moment. */
  lemma LabelIsSound(m: seq<Machine>, acts: seq<Action>, i: nat)
    requires Trace(m, acts) && NoOverlap(m, acts) && i < |m|
    ensures Sound(m[i])
  {
    forall j | 0 <= j < i
      ensures !LateWrite(m[j], acts[j])
    {
      StoppersWaitForCurrent(m, acts, j);
    }
    SoundUntilLateWrite(m, acts, i);
  }

  /** The converse, from any machine there can be: once a `start` has made a thread while a `stop`
      is between its two sections, that `stop` can finish at once and mislabel the new thread. */
  lemma OverlapMislabels(m: Machine, sid: nat)
    requires MachineInv(m) && sid in m.stoppers && After(m, StartCall) != m
    ensures Enabled(After(m, StartCall), StopLast(sid))
    ensures After(After(m, StartCall), StopLast(sid)).state.Stopped?
    ensures !Sound(After(After(m, StartCall), StopLast(sid)))
  {
    var started := After(m, StartCall);
    assert Busy(started.threads[|m.threads|].pc) && At(started, m.stoppers[sid], Dead);
  }

  /** What callers control decides whether the label can be believed: in every state of a run, and
      in every state one further step away from it, if and only if no `start` made a thread while a
      `stop` was between its two sections. */
  lemma LabelSafeIffNoOverlap(m: seq<Machine>, acts: seq<Action>)
    requires Trace(m, acts)
    ensures NoOverlap(m, acts)
            <==> forall i, a | 0 <= i < |m| && Enabled(m[i], a) :: Sound(m[i]) && Sound(After(m[i], a))
  {
    if NoOverlap(m, acts) {
      forall i, a | 0 <= i < |m| && Enabled(m[i], a)
        ensures Sound(m[i]) && Sound(After(m[i], a))
      {
        LabelIsSound(m, acts, i);
        TraceInv(m, acts, i);
        StoppersWaitForCurrent(m, acts, i);
        LabelBreaksExactlyOnLateWrite(m[i], a);
      }
    } else {
      var i :| 0 <= i < |acts| && acts[i].StartCall? && m[i].stoppers != map[] && m[i + 1] != m[i];
      var sid :| sid in m[i].stoppers;
      assert Moves(m[i], acts[i], m[i + 1]);
      TraceInv(m, acts, i);
      OverlapMislabels(m[i], sid);
    }
  }

  lemma Then(m: seq<Machine>, acts: seq<Action>, a: Action) returns (m': seq<Machine>, acts': seq<Action>)
    requires Trace(m, acts) && Enabled(m[|acts|], a)
    ensures Trace(m', acts') && m'[|acts'|] == After(m[|acts|], a)
  {
    m', acts' := m + [After(m[|acts|], a)], acts + [a];
    forall i | 0 <= i < |acts'|
      ensures Moves(m'[i], acts'[i], m'[i + 1])
    {
      if i < |acts| {
        assert Moves(m[i], acts[i], m[i + 1]);
      }
    }
  }

  /** Without that restriction the label does lie: a stop waits for a thread, the thread dies, a
      new one is started and enters its loop, and only then the stop writes "stopped". */
  lemma LateStopMislabels() returns (m: seq<Machine>, acts: seq<Action>)
    ensures Trace(m, acts)
    ensures m[|acts|].state.Stopped? && At(m[|acts|], 1, Inside(2))
  {
    m, acts := ThreadDiesBeforeStopEnds();
    m, acts := Then(m, acts, StartCall);
    m, acts := Then(m, acts, Enter(1));
    m, acts := Then(m, acts, Fetch(1));
    m, acts := Then(m, acts, StopLast(0));
  }

  lemma ThreadDiesBeforeStopEnds() returns (m: seq<Machine>, acts: seq<Action>)
    ensures Trace(m, acts)
    ensures m[|acts|] == Machine(true, Stopped, Some(0), 1, [Thread(1, Dead)], 2, {1}, map[0 := 0])
  {
    m, acts := [Initial(true)], [];
    m, acts := Then(m, acts, StartCall);
    m, acts := Then(m, acts, StopFirst(0));
    m, acts := Then(m, acts, Enter(0));
    m, acts := Then(m, acts, Fetch(0));
    m, acts := Then(m, acts, LoopEnds(0, false));
    m, acts := Then(m, acts, WriteOutcome(0));
    m, acts := Then(m, acts, Die(0));
  }

  // ---------- the controller ----------

  /** The object itself. `threads` and `signalled` stand for the thread and event objects its
      fields refer to; each method is one lock section, or one step outside the lock. */
  class AgentRuntimeController {
    const configured: bool
    var state: Label
    var thread: Option<Tid>
    var stopEvent: EventId
    var threads: seq<Thread>
    var events: nat
    var signalled: set<EventId>
    var stoppers: map<nat, Tid>

    ghost function View(): Machine
      reads this
    {
      Machine(configured, state, thread, stopEvent, threads, events, signalled, stoppers)
    }

    /** All threads but the stored one are dead, and each has its own event. */
    ghost predicate Valid()
      reads this
    {
      MachineInv(View())
    }

    constructor (configured: bool)
      ensures Valid() && View() == Initial(configured)
    {
      this.configured := configured;
      state := if configured then Stopped else Unconfigured;
      thread, stopEvent, threads, events := None, 0, [], 1;
      signalled, stoppers := {}, map[];
    }

    method IsAlive(t: Tid) returns (alive: bool)
      ensures alive == Alive(View(), t)
    {
      alive := t < |threads| && threads[t].pc != Dead;
    }

    /** After a return without exception exactly one thread is alive, the stored one, and nobody
        has told it to stop. */
    method StartWorker() returns (raised: bool)
      requires Valid()
      modifies this
      ensures Valid() && View() == After(old(View()), StartCall)
      ensures raised == old(StartRefused(View()))
      ensures raised ==> View() == old(View())
      ensures !raised ==> thread.Some? && Alive(View(), thread.value)
                          && threads[thread.value].event == stopEvent && stopEvent !in signalled
      ensures !raised ==> forall t: Tid | Alive(View(), t) :: thread == Some(t)
      ensures !raised && old(CurrentAlive(View())) ==> View() == old(View())
      ensures !raised && !old(CurrentAlive(View())) ==>
                state.Starting? && threads == old(threads) + [Thread(stopEvent, Created)]
    {
      StepKeeps(View(), StartCall);
      if !configured {
        return true;
      }
      if thread.Some? {
        var alive := IsAlive(thread.value);
        if alive {
          return stopEvent in signalled;
        }
      }
      stopEvent, events := events, events + 1;
      state := Starting;
      thread := Some(|threads|);
      threads := threads + [Thread(stopEvent, Created)];
      return false;
    }

    /** The first section of `stop`; it waits afterwards only if there was a thread, and then every
        thread still alive has been told to stop. */
    method StopBegins(sid: nat) returns (waits: bool)
      requires Valid() && sid !in stoppers
      modifies this
      ensures Valid() && View() == After(old(View()), StopFirst(sid))
      ensures waits == old(thread).Some?
      ensures forall t: Tid | Alive(View(), t) :: waits && threads[t].event in signalled
      ensures waits ==> state == old(state)
      ensures !waits ==> state == if configured then Stopped else old(state)
    {
      StepKeeps(View(), StopFirst(sid));
      if thread.None? {
        if configured {
          state := Stopped;
        }
        return false;
      }
      signalled := signalled + {stopEvent};
      stoppers := stoppers[sid := thread.value];
      return true;
    }

    /** After the join has ended or timed out. If no thread has been started meanwhile, what it
        leaves in the label is true. */
    method StopEnds(sid: nat)
      requires Valid() && sid in stoppers
      modifies this
      ensures Valid() && View() == After(old(View()), StopLast(sid))
      ensures old(Sound(View()) && thread == Some(stoppers[sid])) ==> Sound(View())
      ensures state == if Alive(View(), old(stoppers)[sid]) then old(state) else Stopped
    {
      StepKeeps(View(), StopLast(sid));
      var alive := IsAlive(stoppers[sid]);
      if !alive {
        state := Stopped;
      }
      stoppers := stoppers - {sid};
    }

    /** Only the stored thread gets to write "running". */
    method RunEnters(t: Tid)
      requires Valid() && At(View(), t, Created)
      modifies this
      ensures Valid() && View() == After(old(View()), Enter(t))
      ensures state == Label.Running && At(View(), t, Fetching)
      ensures thread == Some(t) && forall u: Tid | Alive(View(), u) :: u == t
    {
      StepKeeps(View(), Enter(t));
      state := Label.Running;
      threads := threads[t := threads[t].(pc := Fetching)];
    }

    /** Although the lock is not held, the event read is the one made for this thread. */
    method RunReadsEvent(t: Tid) returns (event: EventId)
      requires Valid() && At(View(), t, Fetching)
      modifies this`threads
      ensures Valid() && View() == After(old(View()), Fetch(t))
      ensures event == threads[t].event && thread == Some(t) && At(View(), t, Inside(event))
    {
      StepKeeps(View(), Fetch(t));
      event := stopEvent;
      threads := threads[t := threads[t].(pc := Inside(event))];
    }

    /** Only the stored thread gets to write the outcome, and what it writes is true. */
    method RunWritesOutcome(t: Tid)
      requires Valid() && (At(View(), t, Returned) || At(View(), t, Raised))
      modifies this
      ensures Valid() && View() == After(old(View()), WriteOutcome(t))
      ensures thread == Some(t) && Sound(View()) && At(View(), t, Leaving)
      ensures state == if old(At(View(), t, Raised)) then Error else Stopped
    {
      StepKeeps(View(), WriteOutcome(t));
      if threads[t].pc == Raised {
        state := Error;
      } else {
        state := Stopped;
      }
      threads := threads[t := threads[t].(pc := Leaving)];
    }
  }
}
