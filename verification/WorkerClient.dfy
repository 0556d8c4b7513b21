/** A Worker's `run_once` against a server that others use at the same time and a network that
    loses requests and replies. */
module WorkerClient {
  import opened Records
  import opened TaskTable
  import opened RowProtocol
  import opened Invariant

  /** What becomes of one HTTP call. A lost reply covers timeouts and server errors after the
      transaction has committed. */
  datatype Wire = NotDelivered | ReplyLost | Answered

  datatype RunOutcome = Idle | SaysSucceeded(lease: Lease, result: string) | SaysFailed(lease: Lease) | Raised

  /** Where `run_once` stands: before the poll, before the start, executing, about to report a
      failure from an exception handler, or done. */
  datatype Phase =
    | Polling
    | Claimed(lease: Lease)
    | Executing(lease: Lease)
    | Reporting(lease: Lease, error: WireError, retryable: bool)
    | Done(outcome: RunOutcome)

  /** `owner` is the owner of the Worker's access token. The server puts it into every lease the
      Worker presents, whoever owns the task. */
  datatype World = World(owner: Id, db: Db, phase: Phase)

  datatype Action =
    | Others(op: Op)
    | Poll(op: Op, wire: Wire)
    | Begin(now: Time, wire: Wire)
    | NoProvider
    | HeartbeatThread(now: Time)
    | ProviderFails(error: WireError, retryable: bool)
    | PublishCall(result: string, message: string, now: Time, wire: Wire)
    | FailCall(now: Time, wire: Wire)

  /** The report for any exception that is not the provider's own. */
  function ExecutionError(lease: Lease, message: string): WireError {
    ErrorEnvelope("worker_execution_error", message, true, "worker-" + lease.taskId)
  }

  ghost predicate Enabled(w: World, a: Action) {
    match a
    case Others(op) => Legal(w.db, op)
    case Poll(op, _) => w.phase.Polling? && op.Claim? && Legal(w.db, op)
    case Begin(_, _) => w.phase.Claimed?
    case NoProvider => w.phase.Executing?
    case HeartbeatThread(_) => w.phase.Executing? || w.phase.Reporting?
    case ProviderFails(_, _) => w.phase.Executing?
    case PublishCall(_, _, _, _) => w.phase.Executing?
    case FailCall(_, _) => w.phase.Reporting?
  }

  /** The transaction a call carries, if it reaches the server. */
  ghost function Sent(db: Db, op: Op, wire: Wire): Db
    requires Legal(db, op)
  {
    if wire.NotDelivered? then db else Exec(db, op).db
  }

  /** The caller sees a success status. */
  ghost predicate Acknowledged(db: Db, op: Op, wire: Wire)
    requires Legal(db, op)
  {
    wire.Answered? && !Exec(db, op).reply.Rejected?
  }

  ghost function After(w: World, a: Action): World
    requires Enabled(w, a)
  {
    match a
    case Others(op) => w.(db := Exec(w.db, op).db)
    case Poll(op, wire) =>
      w.(db := Sent(w.db, op, wire),
      phase := if !wire.Answered? then Done(Raised)
      else if Exec(w.db, op).reply.Granted? then Claimed(Exec(w.db, op).reply.lease.(ownerId := w.owner))
      else Done(Idle))
    case Begin(now, wire) =>
      var op := Start(w.phase.lease, now);
      w.(db := Sent(w.db, op, wire),
      phase := if Acknowledged(w.db, op, wire) then Executing(w.phase.lease) else Done(Raised))
    case NoProvider => w.(phase := Done(Raised))
    case HeartbeatThread(now) => w.(db := Exec(w.db, Heartbeat(w.phase.lease, now)).db)
    case ProviderFails(error, retryable) => w.(phase := Reporting(w.phase.lease, error, retryable))
    case PublishCall(result, message, now, wire) =>
      var op := Publish(w.phase.lease, result, now);
      w.(db := Sent(w.db, op, wire),
      phase := if Acknowledged(w.db, op, wire) then Done(SaysSucceeded(w.phase.lease, result))
      else Reporting(w.phase.lease, ExecutionError(w.phase.lease, message), true))
    case FailCall(now, wire) =>
      var op := Fail(w.phase.lease, w.phase.error, w.phase.retryable, now);
      w.(db := Sent(w.db, op, wire),
      phase := if Acknowledged(w.db, op, wire) then Done(SaysFailed(w.phase.lease)) else Done(Raised))
  }

  ghost predicate Moves(before: World, a: Action, after: World) {
    Enabled(before, a) && after == After(before, a)
  }

  /** A run starts in any state the server can be in. */
  ghost predicate Trace(w: seq<World>, acts: seq<Action>) {
    && |w| == |acts| + 1
    && DbInv(w[0].db) && w[0].phase.Polling?
    && forall i | 0 <= i < |acts| :: Moves(w[i], acts[i], w[i + 1])
  }

  /** This lease is the one that delivered the task's result. */
  predicate WonBy(db: Db, lease: Lease) {
    && lease.taskId in db.tasks
    && db.tasks[lease.taskId].status.Succeeded?
    && db.tasks[lease.taskId].leaseGeneration == lease.generation
  }

  /** This lease is over and did not deliver the result. */
  predicate Spent(db: Db, lease: Lease) {
    && lease.taskId in db.tasks
    && lease.generation <= db.tasks[lease.taskId].leaseGeneration
    && (lease.generation == db.tasks[lease.taskId].leaseGeneration ==>
          !Held(db.tasks[lease.taskId].status) && !db.tasks[lease.taskId].status.Succeeded?)
  }

  /** What the phase says about the server, however much others have done since. */
  ghost predicate WorldInv(w: World) {
    && DbInv(w.db)
    && match w.phase
       case Done(SaysSucceeded(lease, result)) =>
         WonBy(w.db, lease) && w.db.tasks[lease.taskId].result == Some(result)
       case Done(SaysFailed(lease)) => Spent(w.db, lease)
       case _ => true
  }

  lemma WonStays(db: Db, op: Op, lease: Lease)
    requires DbInv(db) && Legal(db, op) && WonBy(db, lease)
    ensures lease.taskId in Exec(db, op).db.tasks && Exec(db, op).db.tasks[lease.taskId] == db.tasks[lease.taskId]
  {
    RowsKept(db, op);
    assert Evolves(db.tasks[lease.taskId], Exec(db, op).db.tasks[lease.taskId]);
  }

  lemma SpentStaysSpent(t: Task, u: Task, now: Time, generation: int)
    requires RowInv(t) && RowNext(t, u, now) && generation <= t.leaseGeneration
    requires generation == t.leaseGeneration ==> !Held(t.status) && !t.status.Succeeded?
    ensures generation <= u.leaseGeneration
    ensures generation == u.leaseGeneration ==> !Held(u.status) && !u.status.Succeeded?
  {
  }

  lemma SpentStays(db: Db, op: Op, lease: Lease)
    requires DbInv(db) && Legal(db, op) && Spent(db, lease)
    ensures Spent(Exec(db, op).db, lease)
  {
    var id := lease.taskId;
    Projection(db, op, id);
    SpentStaysSpent(db.tasks[id], Exec(db, op).db.tasks[id], Clock(op), lease.generation);
  }

  /** An acknowledged publication has won. */
  lemma PublishWins(db: Db, lease: Lease, result: string, now: Time)
    requires Accepts(db, lease, now)
    ensures var after := Exec(db, Publish(lease, result, now)).db;
            WonBy(after, lease) && after.tasks[lease.taskId].result == Some(result)
  {
  }

  /** An acknowledged failure report has ended its lease. */
  lemma FailSpends(db: Db, lease: Lease, error: WireError, retryable: bool, now: Time)
    requires Accepts(db, lease, now)
    ensures Spent(Exec(db, Fail(lease, error, retryable, now)).db, lease)
  {
  }

  /** A lease that has won is refused from then on. */
  lemma WonIsRefused(db: Db, lease: Lease, error: WireError, retryable: bool, now: Time)
    requires WonBy(db, lease)
    ensures Exec(db, Fail(lease, error, retryable, now)) == Outcome(db, Rejected(LeaseConflict))
  {
  }

  lemma OthersKeep(w: World, op: Op)
    requires WorldInv(w) && Legal(w.db, op)
    ensures WorldInv(w.(db := Exec(w.db, op).db))
  {
    InvStep(w.db, op);
    if w.phase.Done? && w.phase.outcome.SaysSucceeded? {
      WonStays(w.db, op, w.phase.outcome.lease);
    } else if w.phase.Done? && w.phase.outcome.SaysFailed? {
      SpentStays(w.db, op, w.phase.outcome.lease);
    }
  }

  lemma PublishKeeps(w: World, a: Action)
    requires WorldInv(w) && a.PublishCall? && Enabled(w, a)
    ensures WorldInv(After(w, a))
  {
    var op := Publish(w.phase.lease, a.result, a.now);
    InvStep(w.db, op);
    if Accepts(w.db, w.phase.lease, a.now) {
      PublishWins(w.db, w.phase.lease, a.result, a.now);
    }
  }

  lemma FailKeeps(w: World, a: Action)
    requires WorldInv(w) && a.FailCall? && Enabled(w, a)
    ensures WorldInv(After(w, a))
  {
    var op := Fail(w.phase.lease, w.phase.error, w.phase.retryable, a.now);
    InvStep(w.db, op);
    if Accepts(w.db, w.phase.lease, a.now) {
      FailSpends(w.db, w.phase.lease, w.phase.error, w.phase.retryable, a.now);
    }
  }

  lemma StepKeeps(w: World, a: Action)
    requires WorldInv(w) && Enabled(w, a)
    ensures WorldInv(After(w, a))
  {
    match a
    case Others(op) => OthersKeep(w, op);
    case Poll(op, _) => InvStep(w.db, op);
    case Begin(now, _) => InvStep(w.db, Start(w.phase.lease, now));
    case NoProvider =>
    case HeartbeatThread(now) => InvStep(w.db, Heartbeat(w.phase.lease, now));
    case ProviderFails(_, _) =>
    case PublishCall(_, _, _, _) => PublishKeeps(w, a);
    case FailCall(_, _) => FailKeeps(w, a);
  }

  lemma {:induction false} TraceInv(w: seq<World>, acts: seq<Action>, i: nat)
    requires Trace(w, acts) && i < |w|
    ensures WorldInv(w[i])
  {
    if i > 0 {
      TraceInv(w, acts, i - 1);
      assert Moves(w[i - 1], acts[i - 1], w[i]);
      StepKeeps(w[i - 1], acts[i - 1]);
    }
  }

  /** What `run_once` returns is true, then and for ever: "succeeded" means the server holds
      exactly this result from this lease; "failed" means this lease did not and never will
      deliver the task's result. No assumption is made about the network, clocks or others. */
  lemma OutcomesAreTruthful(w: seq<World>, acts: seq<Action>, i: nat)
    requires Trace(w, acts) && i < |w| && w[i].phase.Done?
    ensures var o := w[i].phase.outcome;
            && (o.SaysSucceeded? ==>
                  WonBy(w[i].db, o.lease) && w[i].db.tasks[o.lease.taskId].result == Some(o.result))
            && (o.SaysFailed? ==> Spent(w[i].db, o.lease) && !WonBy(w[i].db, o.lease))
  {
    TraceInv(w, acts, i);
  }

  /** A request that does not arrive changes nothing on the server, and the Worker takes it for a
      failure: a lost poll or start ends the run with an exception, a lost publication is reported
      as a failed execution, and a lost report ends the run with an exception. */
  lemma LostRequests(w: World, a: Action)
    requires Enabled(w, a)
    requires (a.Poll? || a.Begin? || a.PublishCall? || a.FailCall?) && a.wire.NotDelivered?
    ensures After(w, a).db == w.db
    ensures a.Poll? || a.Begin? || a.FailCall? ==> After(w, a).phase == Done(Raised)
    ensures a.PublishCall? ==> After(w, a).phase.Reporting? && After(w, a).phase.lease == w.phase.lease
  {
  }

  lemma LostPublication(w: World, result: string, message: string, now: Time)
    requires Enabled(w, PublishCall(result, message, now, ReplyLost)) && Accepts(w.db, w.phase.lease, now)
    ensures var lost := After(w, PublishCall(result, message, now, ReplyLost));
            && lost.phase.Reporting? && lost.phase.lease == w.phase.lease && WonBy(lost.db, w.phase.lease)
            && lost.phase.retryable && lost.phase.error.code == "worker_execution_error"
            && lost.phase.error.message == message && lost.phase.error.retryable
            && lost.phase.error.requestId == "worker-" + w.phase.lease.taskId
  {
    PublishWins(w.db, w.phase.lease, result, now);
  }

  lemma ReportAfterWin(w: World, now: Time, wire: Wire)
    requires w.phase.Reporting? && WonBy(w.db, w.phase.lease)
    ensures After(w, FailCall(now, wire)) == w.(phase := Done(Raised))
  {
    WonIsRefused(w.db, w.phase.lease, w.phase.error, w.phase.retryable, now);
  }

  /** When the publication committed but its reply was lost, the failure report that follows is
      refused and changes nothing, and `run_once` ends with an exception, not with "failed". */
  lemma LostPublishReply(w: World, result: string, message: string, now: Time, afterwards: Time, wire: Wire)
    requires WorldInv(w) && Enabled(w, PublishCall(result, message, now, ReplyLost))
    requires Accepts(w.db, w.phase.lease, now)
    ensures var lost := After(w, PublishCall(result, message, now, ReplyLost));
            && WonBy(lost.db, w.phase.lease)
            && lost.phase.Reporting?
            && After(lost, FailCall(afterwards, wire)) == lost.(phase := Done(Raised))
  {
    LostPublication(w, result, message, now);
    ReportAfterWin(After(w, PublishCall(result, message, now, ReplyLost)), afterwards, wire);
  }

  // ---------- when nothing goes wrong ----------

  /** A heartbeat during execution moves the end of the lease to ten minutes from now, or to the
      deadline. */
  lemma HeartbeatExtends(w: World, now: Time)
    requires WorldInv(w) && w.phase.Executing? && Accepts(w.db, w.phase.lease, now)
    ensures var id := w.phase.lease.taskId; var u := After(w, HeartbeatThread(now));
            && u.phase == w.phase && id in u.db.tasks
            && forall later | now <= later ::
                 Accepts(u.db, w.phase.lease, later)
                 <==> later < now + 600.0 && later < w.db.tasks[id].executionDeadline
  {
    InvStep(w.db, Heartbeat(w.phase.lease, now));
  }

  /** From a claim of a task of its own owner on, a Worker that is answered in time gets its result
      stored and reports success. */
  lemma UndisturbedRunSucceeds(w: World, op: Op, lease: Lease, started: Time, result: string, message: string,
                               published: Time)
    returns (claimed: World, running: World, done: World)
    requires WorldInv(w) && w.phase.Polling? && op.Claim? && Legal(w.db, op)
    requires Exec(w.db, op).reply == Granted(lease) && lease.ownerId == w.owner && lease.taskId in w.db.tasks
    requires started < lease.leaseUntil
    requires published < started + 600.0 && published < w.db.tasks[lease.taskId].executionDeadline
    ensures Moves(w, Poll(op, Answered), claimed) && claimed.phase == Claimed(lease)
    ensures Moves(claimed, Begin(started, Answered), running) && running.phase == Executing(lease)
    ensures lease.taskId in running.db.tasks && running.db.tasks[lease.taskId].status.Running?
    ensures Moves(running, PublishCall(result, message, published, Answered), done)
    ensures done.phase == Done(SaysSucceeded(lease, result))
    ensures lease.taskId in done.db.tasks && done.db.tasks[lease.taskId].result == Some(result)
  {
    ClaimLasts(w.db, op, lease, started);
    GrantedPoll(w, op);
    StepKeeps(w, Poll(op, Answered));
    claimed := After(w, Poll(op, Answered));
    StartedInTime(claimed, started);
    StepKeeps(claimed, Begin(started, Answered));
    running := After(claimed, Begin(started, Answered));
    PublishedInTime(running, result, message, published);
    done := After(running, PublishCall(result, message, published, Answered));
  }

  /** A lease is accepted until the time it was issued for. */
  lemma ClaimLasts(db: Db, op: Op, lease: Lease, now: Time)
    requires DbInv(db) && op.Claim? && Legal(db, op) && Exec(db, op).reply == Granted(lease)
    requires now < lease.leaseUntil
    ensures lease.taskId in db.tasks && lease.taskId in Exec(db, op).db.tasks
    ensures Accepts(Exec(db, op).db, lease, now)
    ensures Exec(db, op).db.tasks[lease.taskId].executionDeadline == db.tasks[lease.taskId].executionDeadline
  {
    PickIsFirst(db, op.capabilities, op.window);
    assert RowInv(db.tasks[lease.taskId]);
  }

  lemma StartedInTime(w: World, now: Time)
    requires WorldInv(w) && w.phase.Claimed? && Accepts(w.db, w.phase.lease, now)
    ensures var u := After(w, Begin(now, Answered)); var id := w.phase.lease.taskId;
            && u.phase == Executing(w.phase.lease) && id in u.db.tasks && u.db.tasks[id].status.Running?
            && forall later | later < now + 600.0 && later < w.db.tasks[id].executionDeadline ::
                 Accepts(u.db, w.phase.lease, later)
  {
  }

  lemma PublishedInTime(w: World, result: string, message: string, now: Time)
    requires WorldInv(w) && w.phase.Executing? && Accepts(w.db, w.phase.lease, now)
    ensures var u := After(w, PublishCall(result, message, now, Answered)); var id := w.phase.lease.taskId;
            u.phase == Done(SaysSucceeded(w.phase.lease, result)) && id in u.db.tasks
            && u.db.tasks[id].result == Some(result)
  {
    PublishWins(w.db, w.phase.lease, result, now);
  }

  /** A failure of the provider that is reported in time is stored as reported, and the task is queued
      again exactly if the provider calls it retryable and attempts are left. */
  lemma ReportedInTime(w: World, error: WireError, retryable: bool, now: Time)
    requires WorldInv(w) && w.phase.Executing? && Accepts(w.db, w.phase.lease, now)
    ensures var id := w.phase.lease.taskId;
            var u := After(After(w, ProviderFails(error, retryable)), FailCall(now, Answered));
            && u.phase == Done(SaysFailed(w.phase.lease)) && id in u.db.tasks
            && u.db.tasks[id].error == Some(error)
            && (u.db.tasks[id].status.Queued? <==> retryable && w.db.tasks[id].attempt < 3)
            && (u.db.tasks[id].status.Failed? <==> !(retryable && w.db.tasks[id].attempt < 3))
  {
    assert RowInv(w.db.tasks[w.phase.lease.taskId]);
  }

  // ---------- a Worker of another owner ----------

  /** The Worker holds a lease on a task that its token's owner does not own. */
  predicate Foreign(w: World) {
    && w.phase.Claimed?
    && w.phase.lease.ownerId == w.owner
    && w.phase.lease.taskId in w.db.tasks
    && w.db.tasks[w.phase.lease.taskId].owner != w.owner
  }

  lemma ForeignStart(w: World, now: Time)
    requires WorldInv(w) && Foreign(w)
    ensures After(w, Begin(now, Answered)) == w.(phase := Done(Raised))
  {
  }

  /** What a poll that is answered with a lease leaves the Worker with. */
  lemma GrantedPoll(w: World, op: Op)
    requires WorldInv(w) && w.phase.Polling? && op.Claim? && Legal(w.db, op) && Exec(w.db, op).reply.Granted?
    ensures var u := After(w, Poll(op, Answered));
            var lease := Exec(w.db, op).reply.lease;
            && u.phase == Claimed(lease.(ownerId := w.owner)) && lease.taskId in w.db.tasks
            && lease.taskId in u.db.tasks && u.db.tasks[lease.taskId].owner == w.db.tasks[lease.taskId].owner
            && Accepts(u.db, lease, op.now) && lease.ownerId == w.db.tasks[lease.taskId].owner
  {
    PickIsFirst(w.db, op.capabilities, op.window);
    assert RowInv(w.db.tasks[Exec(w.db, op).reply.lease.taskId]);
  }

  /** Exactly when a Worker can work on what it was handed: if its token's owner owns the task, its
      start is accepted at the time of the claim; if not, it holds a foreign lease. */
  lemma GrantIsForeignIffOwnersDiffer(w: World, op: Op)
    requires WorldInv(w) && w.phase.Polling? && op.Claim? && Legal(w.db, op) && Exec(w.db, op).reply.Granted?
    ensures Exec(w.db, op).reply.lease.taskId in w.db.tasks
    ensures var u := After(w, Poll(op, Answered));
            var t := w.db.tasks[Exec(w.db, op).reply.lease.taskId];
            && (Foreign(u) <==> t.owner != w.owner)
            && (!Foreign(u) <==> After(u, Begin(op.now, Answered)).phase.Executing?)
  {
    GrantedPoll(w, op);
    var u := After(w, Poll(op, Answered));
    if Foreign(u) {
      InvStep(w.db, op);
      ForeignStart(u, op.now);
    } else {
      assert u.phase.lease == Exec(w.db, op).reply.lease;
    }
  }

  /** The claim does not look at owners, every later call does. */
  lemma ForeignStep(w: World, a: Action)
    requires WorldInv(w) && Foreign(w) && Enabled(w, a)
    ensures Foreign(After(w, a)) || After(w, a) == w.(phase := Done(Raised))
  {
    if a.Others? {
      RowsKept(w.db, a.op);
      assert Evolves(w.db.tasks[w.phase.lease.taskId], Exec(w.db, a.op).db.tasks[w.phase.lease.taskId]);
    }
  }

  ghost predicate ForeignOrRaised(w: World) {
    Foreign(w) || w.phase == Done(Raised)
  }

  lemma ForeignKept(w: World, a: Action)
    requires WorldInv(w) && ForeignOrRaised(w) && Enabled(w, a)
    ensures ForeignOrRaised(After(w, a))
  {
    if Foreign(w) {
      ForeignStep(w, a);
    }
  }

  lemma ForeignKeptAt(w: seq<World>, acts: seq<Action>, i: nat)
    requires Trace(w, acts) && i < |acts| && ForeignOrRaised(w[i])
    ensures ForeignOrRaised(w[i + 1])
  {
    TraceInv(w, acts, i);
    assert Moves(w[i], acts[i], w[i + 1]);
    ForeignKept(w[i], acts[i]);
  }

  /** A Worker that was handed another owner's task never gets to work on it: the start is
      refused and changes nothing, and `run_once` raises. The lease is lost until it runs out. */
  lemma {:induction false} ForeignClaimNeverStarts(w: seq<World>, acts: seq<Action>, i: nat, j: nat)
    requires Trace(w, acts) && i <= j < |w| && Foreign(w[i])
    ensures ForeignOrRaised(w[j])
    decreases j
  {
    if i < j {
      ForeignClaimNeverStarts(w, acts, i, j - 1);
      ForeignKeptAt(w, acts, j - 1);
    }
  }
}
