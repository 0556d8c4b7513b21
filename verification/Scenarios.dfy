/** Runs that end where one would not want them to. Each starts from an empty database, sends only
    requests that the server lets in, and shows that a condition stated elsewhere is needed or a
    failure can be reached. */
module Scenarios {
  import opened Records
  import opened TaskTable
  import opened RowProtocol
  import opened Runs
  import opened Claims
  import JsonText
  import WorkerClient

  // ---------- building runs ----------

  ghost predicate AllAcceptable(ops: seq<Op>) {
    forall op <- ops | op.Create? :: Acceptable(op.envelope)
  }

  const DIGEST: string := "digest"

  function Uploaded(id: Id, now: Time): Op {
    Finalize(id, ArtifactRef(None, Some(0), Some("sha256")), DIGEST, None, id, now)
  }

  /** The row of a task that was created and enqueued at one moment. */
  function QueuedTask(owner: Id, device: Id, envelope: Envelope, now: Time): Task {
    Enqueue(NewTask(owner, device, envelope, DIGEST, now), now)
  }

  /** Nothing in the database uses this identifier. */
  ghost predicate Unused(db: Db, id: Id) {
    && id !in db.tasks && id !in db.artifacts && !PathTaken(db, id)
    && forall other <- db.tasks :: db.tasks[other].envelope.idempotencyKey != id
  }

  /** A device creates a task, whose identifier is also its key, and uploads its input. */
  lemma Submit(s: seq<Db>, ops: seq<Op>, id: Id, owner: Id, device: Id, envelope: Envelope, now: Time)
    returns (s': seq<Db>, ops': seq<Op>)
    requires Behavior(s, ops) && AllAcceptable(ops) && Acceptable(envelope)
    requires Unused(s[|ops|], id) && envelope.idempotencyKey == id && id != ""
    ensures Behavior(s', ops') && AllAcceptable(ops') && |ops'| == |ops| + 2
    ensures s'[|ops'|].tasks == s[|ops|].tasks[id := QueuedTask(owner, device, envelope, now)]
    ensures s'[|ops'|].artifacts.Keys == s[|ops|].artifacts.Keys + {id}
    ensures forall a <- s[|ops|].artifacts :: s'[|ops'|].artifacts[a] == s[|ops|].artifacts[a]
    ensures s'[|ops'|].artifacts[id].path == id
  {
    var create := Create(owner, device, envelope, DIGEST, id, now);
    assert !KeyTaken(s[|ops|], owner, device, id);
    s', ops' := Extended(s, ops, create);
    var created := s'[|ops'|];
    assert created.tasks == s[|ops|].tasks[id := NewTask(owner, device, envelope, DIGEST, now)];
    assert created.artifacts == s[|ops|].artifacts;
    UploadEnqueues(created, id, now);
    s', ops' := Extended(s', ops', Uploaded(id, now));
  }

  lemma UploadEnqueues(db: Db, id: Id, now: Time)
    requires id in db.tasks && db.tasks[id].status.Uploading? && db.tasks[id].expiresAt > now
    requires db.tasks[id].requestDigest == DIGEST && id !in db.artifacts && !PathTaken(db, id)
    ensures var after := Exec(db, Uploaded(id, now)).db;
            && after.tasks == db.tasks[id := Enqueue(db.tasks[id], now)]
            && after.artifacts == db.artifacts[id := Artifact(id, 0, id, true, db.tasks[id].expiresAt)]
  {
  }

  // ---------- one task and one Worker ----------

  /** The only task there is gets claimed. */
  lemma ClaimOnly(db: Db, id: Id, t: Task, c: Capability, now: Time) returns (op: Op, lease: Lease)
    requires db.tasks == map[id := t] && Eligible(t, now) && Fits(t, c)
    ensures op.Claim? && Legal(db, op) && op.now == now
    ensures lease == LeaseFor(id, t, "worker", "token", c.capabilityId, now)
    ensures Exec(db, op).reply == Granted(lease)
    ensures Exec(db, op).db.tasks == map[id := Grant(t, "worker", Sha256("token"), c.capabilityId, now)]
  {
    op := Claim("worker", [c], "token", [id], now);
    lease := LeaseFor(id, t, "worker", "token", c.capabilityId, now);
    assert IsWindow(db, now, [id]);
    assert FirstFit(t, [c]) == Some(c);
    assert Pick(db, [c], [id]) == Some(id);
  }

  lemma OneLeased(envelope: Envelope, c: Capability) returns (s: seq<Db>, ops: seq<Op>, lease: Lease)
    requires Acceptable(envelope) && Fits(QueuedTask("owner", "device", envelope, 0.0), c)
    ensures Behavior(s, ops) && AllAcceptable(ops) && |ops| == 3
    ensures Issued(s, ops, 2, lease)
    ensures var t := QueuedTask("owner", "device", envelope, 0.0);
            && lease == LeaseFor(envelope.idempotencyKey, t, "worker", "token", c.capabilityId, 0.0)
            && s[3].tasks == map[envelope.idempotencyKey :=
                 Grant(t, "worker", Sha256("token"), c.capabilityId, 0.0)]
  {
    var id := envelope.idempotencyKey;
    s, ops := Submit([EMPTY], [], id, "owner", "device", envelope, 0.0);
    var claim: Op;
    claim, lease := ClaimOnly(s[2], id, QueuedTask("owner", "device", envelope, 0.0), c, 0.0);
    s, ops := Extended(s, ops, claim);
  }

  lemma SweepMakesUnreadable(db: Db, id: Id, now: Time)
    requires id in db.tasks && LapsedFinal(db.tasks[id], now)
    ensures var after := Exec(db, Sweep(now)).db;
            id in after.tasks && after.tasks[id].status.Failed? && !Viewable(after.tasks[id])
  {
    SweepGuardsDisjoint(db.tasks[id], now);
  }

  /** For every acceptable request and Worker that serves it there is a run after which its device
      cannot read the task: the Worker goes silent, and the sweep at the task's expiry fails it. */
  lemma UnreadableTask(envelope: Envelope, c: Capability) returns (s: seq<Db>, ops: seq<Op>)
    requires Acceptable(envelope) && Fits(QueuedTask("owner", "device", envelope, 0.0), c)
    ensures Behavior(s, ops) && AllAcceptable(ops)
    ensures var id := envelope.idempotencyKey;
            id in s[|ops|].tasks && s[|ops|].tasks[id].status.Failed? && !Viewable(s[|ops|].tasks[id])
  {
    var lease;
    s, ops, lease := OneLeased(envelope, c);
    SweepMakesUnreadable(s[3], envelope.idempotencyKey, envelope.ttlSeconds as real);
    s, ops := Extended(s, ops, Sweep(envelope.ttlSeconds as real));
  }

  /** `Runs.Fencing` needs its clock assumption: for every request that lives longer than one lease
      there is a run in which a lease is rejected at its end, 600, and accepted for that same time
      after a heartbeat that had read its clock before. */
  lemma LeaseRevived(envelope: Envelope, c: Capability) returns (s: seq<Db>, ops: seq<Op>, lease: Lease)
    requires Acceptable(envelope) && Fits(QueuedTask("owner", "device", envelope, 0.0), c)
    requires envelope.ttlSeconds > 600
    ensures Behavior(s, ops) && AllAcceptable(ops) && |ops| == 4
    ensures Issued(s, ops, 2, lease) && ops[3] == Heartbeat(lease, 1.0)
    ensures !Accepts(s[3], lease, LEASE_SECONDS) && Accepts(s[4], lease, LEASE_SECONDS)
  {
    s, ops, lease := OneLeased(envelope, c);
    var before, claimed := s, ops;
    var t := s[3].tasks[envelope.idempotencyKey];
    ReachableInv(s, ops, 3);
    assert RowInv(t) && Current(t, lease, 1.0);
    ClockGoingBackRevives(t, lease, 1.0, LEASE_SECONDS);
    s, ops := Extended(s, ops, Heartbeat(lease, 1.0));
    assert Exec(s[2], ops[2]) == Exec(before[2], claimed[2]);
  }

  /** The run of the server beside a Worker that has not polled yet. */
  lemma Watched(s: seq<Db>, ops: seq<Op>, owner: Id)
    returns (w: seq<WorkerClient.World>, acts: seq<WorkerClient.Action>)
    requires Behavior(s, ops)
    ensures WorkerClient.Trace(w, acts) && |acts| == |ops|
    ensures forall i | 0 <= i < |w| :: w[i] == WorkerClient.World(owner, s[i], WorkerClient.Polling)
    ensures forall i | 0 <= i < |acts| :: acts[i] == WorkerClient.Others(ops[i])
  {
    w := seq(|s|, i requires 0 <= i < |s| => WorkerClient.World(owner, s[i], WorkerClient.Polling));
    acts := seq(|ops|, i requires 0 <= i < |ops| => WorkerClient.Others(ops[i]));
    ReachableInv(s, ops, 0);
    forall i | 0 <= i < |acts|
      ensures WorkerClient.Moves(w[i], acts[i], w[i + 1])
    {
      assert Step(s[i], ops[i], s[i + 1]);
    }
  }

  lemma ThenMoves(w: seq<WorkerClient.World>, acts: seq<WorkerClient.Action>, a: WorkerClient.Action)
    returns (w': seq<WorkerClient.World>, acts': seq<WorkerClient.Action>)
    requires WorkerClient.Trace(w, acts) && WorkerClient.Enabled(w[|acts|], a)
    ensures WorkerClient.Trace(w', acts') && acts' == acts + [a]
    ensures w' == w + [WorkerClient.After(w[|acts|], a)]
  {
    w', acts' := w + [WorkerClient.After(w[|acts|], a)], acts + [a];
    forall i | 0 <= i < |acts'|
      ensures WorkerClient.Moves(w'[i], acts'[i], w'[i + 1])
    {
      if i < |acts| {
        assert WorkerClient.Moves(w[i], acts[i], w[i + 1]);
      }
    }
  }

  predicate AcceptableBeside(acts: seq<WorkerClient.Action>) {
    forall a <- acts | a.Others? && a.op.Create? :: Acceptable(a.op.envelope)
  }

  lemma SubmittedBeside(envelope: Envelope, owner: Id)
    returns (w: seq<WorkerClient.World>, acts: seq<WorkerClient.Action>)
    requires Acceptable(envelope)
    ensures WorkerClient.Trace(w, acts) && AcceptableBeside(acts)
    ensures |acts| == 2 && w[0].db == EMPTY && w[0].owner == owner
    ensures w[2].owner == owner && w[2].phase.Polling?
    ensures w[2].db.tasks == map[envelope.idempotencyKey := QueuedTask("owner", "device", envelope, 0.0)]
  {
    var s, ops := Submit([EMPTY], [], envelope.idempotencyKey, "owner", "device", envelope, 0.0);
    w, acts := Watched(s, ops, owner);
    assert forall a <- acts | a.Others? :: a.op in ops;
    assert s[0] == EMPTY by {
      assert Behavior(s, ops);
    }
  }

  /** Up to the start. */
  lemma HandedToStranger(envelope: Envelope, c: Capability, stranger: Id)
    returns (w: seq<WorkerClient.World>, acts: seq<WorkerClient.Action>)
    requires Acceptable(envelope) && Fits(QueuedTask("owner", "device", envelope, 0.0), c) && stranger != "owner"
    ensures WorkerClient.Trace(w, acts) && AcceptableBeside(acts)
    ensures |acts| == 3 && w[0].db == EMPTY && w[0].owner == stranger
    ensures acts[2].Poll? && WorkerClient.Foreign(w[3])
    ensures w[3].db.tasks == map[envelope.idempotencyKey :=
              Grant(QueuedTask("owner", "device", envelope, 0.0), "worker", Sha256("token"), c.capabilityId, 0.0)]
  {
    var t := QueuedTask("owner", "device", envelope, 0.0);
    w, acts := SubmittedBeside(envelope, stranger);
    var claim, lease := ClaimOnly(w[2].db, envelope.idempotencyKey, t, c, 0.0);
    WorkerClient.TraceInv(w, acts, 2);
    WorkerClient.GrantIsForeignIffOwnersDiffer(w[2], claim);
    w, acts := ThenMoves(w, acts, WorkerClient.Poll(claim, WorkerClient.Answered));
  }

  /** For every acceptable request and every owner but the task's own there is a run in which a
      Worker of that owner is handed the task, its start is refused, and an attempt is gone. */
  lemma ForeignGrant(envelope: Envelope, c: Capability, stranger: Id)
    returns (w: seq<WorkerClient.World>, acts: seq<WorkerClient.Action>)
    requires Acceptable(envelope) && Fits(QueuedTask("owner", "device", envelope, 0.0), c) && stranger != "owner"
    ensures WorkerClient.Trace(w, acts) && |acts| == 4 && w[0].db == EMPTY && w[0].owner == stranger
    ensures AcceptableBeside(acts)
    ensures acts[2].Poll? && acts[3] == WorkerClient.Begin(0.0, WorkerClient.Answered)
    ensures WorkerClient.Foreign(w[3])
    ensures w[4] == w[3].(phase := WorkerClient.Done(WorkerClient.Raised))
    ensures var id := envelope.idempotencyKey;
            id in w[4].db.tasks && w[4].db.tasks[id].status.Leased? && w[4].db.tasks[id].attempt == 1
  {
    w, acts := HandedToStranger(envelope, c, stranger);
    WorkerClient.TraceInv(w, acts, 3);
    WorkerClient.ForeignStart(w[3], 0.0);
    w, acts := ThenMoves(w, acts, WorkerClient.Begin(0.0, WorkerClient.Answered));
  }

  // ---------- a task that is never run ----------

  /** The j-th of the tasks in the way. Each belongs to a device of its own. */
  function Blocker(j: nat): Task {
    QueuedTask("owner", JsonText.Digits(j), VisionRequest(JsonText.Digits(j), 604800), 0.0)
  }

  /** The numbers below `n` are the keys, and each names its own row. */
  ghost predicate Numbered<T(!new)>(rows: map<Id, T>, n: nat, row: nat -> T) {
    && |rows| == n
    && forall id <- rows :: 0 <= JsonText.DigitsValue(id) < n && rows[id] == row(JsonText.DigitsValue(id))
  }

  lemma NumberedNext<T(!new)>(rows: map<Id, T>, n: nat, row: nat -> T, id: Id)
    requires Numbered(rows, n, row) && JsonText.DigitsValue(id) == n
    ensures id !in rows && Numbered(rows[id := row(n)], n + 1, row)
  {
    assert rows[id := row(n)].Keys == rows.Keys + {id};
  }

  /** `n` tasks in the way and nothing else. */
  ghost predicate OnlyBlockers(db: Db, n: nat) {
    && Numbered(db.tasks, n, Blocker)
    && forall a <- db.artifacts :: JsonText.DigitsValue(a) < n && db.artifacts[a].path == a
  }

  lemma DigitsAreKeys(j: nat)
    requires j < 100
    ensures var key := JsonText.Digits(j);
            key != "" && Acceptable(VisionRequest(key, 604800)) && Acceptable(AudioRequest(key, 1))
    ensures JsonText.DigitsValue(JsonText.Digits(j)) == j
  {
    JsonText.DigitsBack(j);
    assert |JsonText.Digits(j)| <= 2;
    assert forall c | JsonText.IsDigit(c) :: KeyChar(c);
  }

  lemma NextIsUnused(db: Db, n: nat)
    requires OnlyBlockers(db, n) && n < 100
    ensures Unused(db, JsonText.Digits(n))
  {
    DigitsAreKeys(n);
    forall id <- db.tasks
      ensures db.tasks[id].envelope.idempotencyKey != JsonText.Digits(n)
    {
      DigitsAreKeys(JsonText.DigitsValue(id));
    }
  }

  lemma {:induction false} Crowd(n: nat) returns (s: seq<Db>, ops: seq<Op>)
    requires n < 100
    ensures Behavior(s, ops) && AllAcceptable(ops) && |ops| == 2 * n && OnlyBlockers(s[|ops|], n)
  {
    if n == 0 {
      s, ops := [EMPTY], [];
    } else {
      s, ops := Crowd(n - 1);
      s, ops := CrowdGrows(s, ops, n - 1);
    }
  }

  lemma CrowdGrows(s: seq<Db>, ops: seq<Op>, n: nat) returns (s': seq<Db>, ops': seq<Op>)
    requires n < 99 && Behavior(s, ops) && AllAcceptable(ops) && OnlyBlockers(s[|ops|], n)
    ensures Behavior(s', ops') && AllAcceptable(ops') && |ops'| == |ops| + 2 && OnlyBlockers(s'[|ops'|], n + 1)
  {
    NextIsUnused(s[|ops|], n);
    DigitsAreKeys(n);
    var id := JsonText.Digits(n);
    s', ops' := Submit(s, ops, id, "owner", id, VisionRequest(id, 604800), 0.0);
    OneBlockerMore(s[|ops|], s'[|ops'|], n, id);
  }

  lemma OneBlockerMore(before: Db, after: Db, n: nat, id: Id)
    requires OnlyBlockers(before, n) && id !in before.tasks && JsonText.DigitsValue(id) == n
    requires after.tasks == before.tasks[id := Blocker(n)]
    requires after.artifacts.Keys == before.artifacts.Keys + {id} && after.artifacts[id].path == id
    requires forall a <- before.artifacts | a != id :: after.artifacts[a] == before.artifacts[a]
    ensures OnlyBlockers(after, n + 1)
  {
    NumberedNext(before.tasks, n, Blocker, id);
  }

  const WAITING: Id := JsonText.Digits(32)
  const LISTENER: Capability := Capability("audio", "audio.transcribe.v1", "provider", None, [], [])

  function WaitingTask(): Task {
    QueuedTask("owner", WAITING, AudioRequest(WAITING, 1), 1.0)
  }

  /** 32 older tasks that a Worker for audio cannot run, and one newer that it can. */
  ghost predicate Stuck(db: Db) {
    && WAITING in db.tasks && db.tasks[WAITING] == WaitingTask()
    && |db.tasks| == 33
    && forall id <- db.tasks | id != WAITING ::
         db.tasks[id].status.Queued? && db.tasks[id].createdAt == 0.0 && db.tasks[id].nextAttemptAt == 0.0
         && db.tasks[id].expiresAt == 604800.0 && db.tasks[id].envelope.taskType == "vision.detect.v1"
  }

  lemma OneCapability(t: Task, c: Capability)
    ensures FirstFit(t, [c]) == if Fits(t, c) then Some(c) else None
  {
    assert [c][1..] == [];
  }

  lemma StuckPool(db: Db)
    requires Stuck(db)
    ensures WAITING in Runnable(db, [LISTENER], 1.0)
    ensures Runnable(db, [LISTENER], 1.0) <= {WAITING}
    ensures db.tasks.Keys - {WAITING} <= Clutter(db, [LISTENER], 1.0)
  {
    forall id <- db.tasks
      ensures Eligible(db.tasks[id], 1.0) && (FirstFit(db.tasks[id], [LISTENER]).Some? <==> id == WAITING)
    {
      OneCapability(db.tasks[id], LISTENER);
    }
  }

  lemma StuckRefuses(db: Db) returns (op: Op)
    requires Stuck(db)
    ensures op.Claim? && Legal(db, op) && op.capabilities == [LISTENER] && op.now == 1.0
    ensures WAITING in Runnable(db, [LISTENER], 1.0)
    ensures Exec(db, op) == Outcome(db, NoTask)
  {
    var window := WindowExists(db, 1.0);
    op := Claim("worker", [LISTENER], "token", window, 1.0);
    StuckPool(db);
    assert db.tasks.Keys == (db.tasks.Keys - {WAITING}) + {WAITING};
    Starvation(db, op, db.tasks.Keys - {WAITING});
  }

  /** A poll in a run that found nothing, although the waiting task was there to be run. */
  ghost predicate RefusedPoll(db: Db, op: Op) {
    && op.Claim? && Legal(db, op) && op.capabilities == [LISTENER]
    && WAITING in Runnable(db, op.capabilities, op.now)
    && Exec(db, op).reply.NoTask?
  }

  /** One more task behind the crowd. */
  lemma CrowdIsStuck(before: Db, after: Db)
    requires OnlyBlockers(before, 32) && WAITING !in before.tasks
    requires after.tasks == before.tasks[WAITING := WaitingTask()]
    ensures Stuck(after)
  {
    assert after.tasks.Keys == before.tasks.Keys + {WAITING};
  }

  lemma StuckQueue() returns (s: seq<Db>, ops: seq<Op>)
    ensures Behavior(s, ops) && AllAcceptable(ops) && |ops| == 66 && Stuck(s[66])
  {
    s, ops := Crowd(32);
    var crowd := s[|ops|];
    NextIsUnused(crowd, 32);
    DigitsAreKeys(32);
    s, ops := Submit(s, ops, WAITING, "owner", WAITING, AudioRequest(WAITING, 1), 1.0);
    CrowdIsStuck(crowd, s[66]);
  }

  lemma PollAgain(s: seq<Db>, ops: seq<Op>) returns (s': seq<Db>, ops': seq<Op>)
    requires Behavior(s, ops) && AllAcceptable(ops) && Stuck(s[|ops|])
    ensures Behavior(s', ops') && AllAcceptable(ops') && Stuck(s'[|ops'|])
    ensures |ops'| == |ops| + 1 && s'[..|s|] == s && ops'[..|ops|] == ops
    ensures RefusedPoll(s'[|ops|], ops'[|ops|])
  {
    var poll := StuckRefuses(s[|ops|]);
    s', ops' := Extended(s, ops, poll);
  }

  ghost predicate Refusals(s: seq<Db>, ops: seq<Op>, from: nat)
    requires |s| == |ops| + 1
  {
    forall i | from <= i < |ops| :: RefusedPoll(s[i], ops[i])
  }

  lemma RefusalsExtend(s: seq<Db>, ops: seq<Op>, s': seq<Db>, ops': seq<Op>, from: nat)
    requires |s| == |ops| + 1 && |s'| == |ops'| + 1 && |ops'| == |ops| + 1
    requires s'[..|s|] == s && ops'[..|ops|] == ops
    requires Refusals(s, ops, from) && RefusedPoll(s'[|ops|], ops'[|ops|])
    ensures Refusals(s', ops', from)
  {
    forall i | from <= i < |ops'|
      ensures RefusedPoll(s'[i], ops'[i])
    {
      if i < |ops| {
        assert s'[i] == s'[..|s|][i] && ops'[i] == ops'[..|ops|][i];
      }
    }
  }

  lemma {:induction false} PollInVain(polls: nat) returns (s: seq<Db>, ops: seq<Op>)
    ensures Behavior(s, ops) && AllAcceptable(ops) && |ops| == 66 + polls && Stuck(s[|ops|])
    ensures Refusals(s, ops, 66)
  {
    if polls == 0 {
      s, ops := StuckQueue();
    } else {
      var s0, ops0 := PollInVain(polls - 1);
      s, ops := PollAgain(s0, ops0);
      RefusalsExtend(s0, ops0, s, ops, 66);
    }
  }

  lemma SweepWaiting(db: Db)
    requires Stuck(db)
    ensures var after := Exec(db, Sweep(2.0)).db;
            WAITING in after.tasks && after.tasks[WAITING].status.Expired? && after.tasks[WAITING].attempt == 0
  {
  }

  /** However often a Worker polls that could run it, a task can wait behind 32 older ones until it
      expires, and then it has never been leased. */
  lemma StarvedToDeath(polls: nat) returns (s: seq<Db>, ops: seq<Op>)
    ensures Behavior(s, ops) && AllAcceptable(ops) && |ops| == 67 + polls
    ensures Refusals(s[..|ops|], ops[..|ops| - 1], 66)
    ensures WAITING in s[|ops|].tasks
    ensures s[|ops|].tasks[WAITING].status.Expired? && s[|ops|].tasks[WAITING].attempt == 0
  {
    var s0, ops0 := PollInVain(polls);
    SweepWaiting(s0[|ops0|]);
    s, ops := Extended(s0, ops0, Sweep(2.0));
    assert s[..|ops|] == s0 && ops[..|ops| - 1] == ops0;
  }
}
