/** What each transaction of the task repository does to the database, as a function of the
    database before it. `Repository` proves the imperative methods against these functions,
    and the remaining modules prove what they promise over whole runs. */
module TaskTable {
  import opened Records

  datatype Db = Db(tasks: map<Id, Task>, artifacts: map<Id, Artifact>, events: seq<Event>)

  const EMPTY: Db := Db(map[], map[], [])

  datatype Outcome = Outcome(db: Db, reply: Reply)

  /** One committed or rejected transaction with everything it reads from outside the
      database: arguments, clock, fresh identifiers and the order SQLite gives ties. */
  datatype Op =
    | Create(owner: Id, device: Id, envelope: Envelope, digest: string, freshId: Id, now: Time)
    | Finalize(id: Id, ref: ArtifactRef, digest: string, path: Option<string>, freshId: Id, now: Time)
    | Claim(worker: Id, capabilities: seq<Capability>, token: string, window: seq<Id>, now: Time)
    | Start(lease: Lease, now: Time)
    | Heartbeat(lease: Lease, now: Time)
    | Fail(lease: Lease, error: WireError, retryable: bool, now: Time)
    | Publish(lease: Lease, result: string, now: Time)
    | Release(owner: Id, id: Id)
    | Sweep(now: Time)
    | Cancel(owner: Id, id: Id, now: Time)
    | Purge(cutoff: Time)

  // ---------- single rows ----------

  function NewTask(owner: Id, device: Id, envelope: Envelope, digest: string, now: Time): Task {
    var expiry := now + envelope.ttlSeconds as real;
    Task(owner, device, envelope, digest, Uploading, expiry, expiry, 0, now, None, 0, None, None, None,
         None, None, false, None, now, now)
  }

  function Enqueue(t: Task, now: Time): Task {
    t.(status := Queued, updatedAt := now)
  }

  function Expire(t: Task, now: Time): Task {
    t.(status := Expired, updatedAt := now)
  }

  function LeaseEnd(t: Task, now: Time): Time {
    MinTime(now + LEASE_SECONDS, t.executionDeadline)
  }

  function Grant(t: Task, worker: Id, hash: TokenHash, capability: Id, now: Time): Task {
    t.(status := Leased, attempt := t.attempt + 1, leaseOwner := Some(worker),
    leaseGeneration := t.leaseGeneration + 1, leaseTokenHash := Some(hash),
    leaseUntil := Some(LeaseEnd(t, now)), boundCapability := Some(capability), updatedAt := now)
  }

  function Renew(t: Task, status: Status, now: Time): Task {
    t.(status := status, leaseUntil := Some(LeaseEnd(t, now)), updatedAt := now)
  }

  /** The columns every way of ending a lease clears. */
  function Unlease(t: Task, status: Status, now: Time): Task {
    t.(status := status, leaseOwner := None, leaseTokenHash := None, leaseUntil := None, updatedAt := now)
  }

  function Backoff(attempt: int): Time {
    if attempt <= 1 then 5.0 else if attempt == 2 then 30.0 else 120.0
  }

  predicate ShouldRetry(t: Task, retryable: bool, now: Time) {
    retryable && t.attempt < MAX_ATTEMPTS && t.expiresAt > now
  }

  function GiveBack(t: Task, error: WireError, retryable: bool, now: Time): Task {
    if ShouldRetry(t, retryable, now)
    then Unlease(t, Queued, now).(nextAttemptAt := now + Backoff(t.attempt), error := Some(error))
    else Unlease(t, Failed, now).(nextAttemptAt := now, error := Some(error))
  }

  function Deliver(t: Task, result: string, now: Time): Task {
    Unlease(t, Succeeded, now).(result := Some(result), resultAvailable := true,
    resultExpiresAt := Some(now + RESULT_RETENTION_SECONDS))
  }

  // The WHERE clauses of the three sweep statements. A NULL `lease_until` compares false.

  predicate OverdueIdle(t: Task, now: Time) {
    (t.status.Uploading? || t.status.Queued?) && t.expiresAt <= now
  }

  predicate LeaseLapsed(t: Task, now: Time) {
    Held(t.status) && t.leaseUntil.Some? && t.leaseUntil.value <= now
  }

  predicate LapsedRetry(t: Task, now: Time) {
    LeaseLapsed(t, now) && t.expiresAt > now && t.attempt < MAX_ATTEMPTS
  }

  predicate LapsedFinal(t: Task, now: Time) {
    LeaseLapsed(t, now) && (t.expiresAt <= now || t.attempt >= MAX_ATTEMPTS)
  }

  const ATTEMPTS_EXHAUSTED: ErrorRecord := BareCode("attempts_exhausted")

  /** The whole sweep seen from one row. */
  function SweepRow(t: Task, now: Time): Task {
    if OverdueIdle(t, now) then Expire(t, now)
    else if LapsedRetry(t, now) then Unlease(t, Queued, now).(nextAttemptAt := now)
    else if LapsedFinal(t, now) then Unlease(t, Failed, now).(error := Some(ATTEMPTS_EXHAUSTED))
    else t
  }

  // ---------- claims ----------

  predicate Fits(t: Task, c: Capability) {
    var needs := t.envelope.needs;
    var offered := set f | f in c.formats;
    && c.taskType == t.envelope.taskType
    && (Truthy(needs.provider) ==> c.provider == needs.provider.value)
    && (Truthy(needs.serviceId) ==> c.serviceId == needs.serviceId)
    && (Truthy(needs.model) ==> needs.model.value in c.models)
    && (forall f <- needs.formats :: f in offered)
    && (c.formats != [] ==> forall m <- t.envelope.inputMimes :: m in offered)
  }

  function FirstFit(t: Task, capabilities: seq<Capability>): Option<Capability> {
    if capabilities == [] then None
    else if Fits(t, capabilities[0]) then Some(capabilities[0])
    else FirstFit(t, capabilities[1..])
  }

  predicate Eligible(t: Task, now: Time) {
    t.status.Queued? && t.nextAttemptAt <= now && t.expiresAt > now
  }

  /** `w` is a result the claim query may return: the oldest eligible rows, at most 32 of
      them, by `created_at`, ties in any order. */
  ghost predicate IsWindow(db: Db, now: Time, w: seq<Id>) {
    && |w| <= CLAIM_WINDOW
    && (forall id <- w :: id in db.tasks && Eligible(db.tasks[id], now))
    && (forall i, j | 0 <= i < j < |w| ::
          w[i] != w[j] && db.tasks[w[i]].createdAt <= db.tasks[w[j]].createdAt)
    && (forall id <- db.tasks | Eligible(db.tasks[id], now) && id !in w ::
          |w| == CLAIM_WINDOW && forall e <- w :: db.tasks[e].createdAt <= db.tasks[id].createdAt)
  }

  /** The first row of the window that one of the capabilities fits. */
  ghost function Pick(db: Db, capabilities: seq<Capability>, w: seq<Id>): Option<Id>
    requires forall id <- w :: id in db.tasks
  {
    if w == [] then None
    else if FirstFit(db.tasks[w[0]], capabilities).Some? then Some(w[0])
    else Pick(db, capabilities, w[1..])
  }

  lemma {:induction false} PickIsFirst(db: Db, capabilities: seq<Capability>, w: seq<Id>)
    requires forall id <- w :: id in db.tasks
    ensures Pick(db, capabilities, w).None? ==>
              forall id <- w :: FirstFit(db.tasks[id], capabilities).None?
    ensures Pick(db, capabilities, w).Some? ==>
              exists k | 0 <= k < |w| :: && w[k] == Pick(db, capabilities, w).value
                                         && FirstFit(db.tasks[w[k]], capabilities).Some?
                                         && forall j | 0 <= j < k :: FirstFit(db.tasks[w[j]], capabilities).None?
  {
    if w != [] && FirstFit(db.tasks[w[0]], capabilities).None? {
      var rest := w[1..];
      PickIsFirst(db, capabilities, rest);
      if Pick(db, capabilities, rest).Some? {
        var k :| 0 <= k < |rest| && rest[k] == Pick(db, capabilities, rest).value
          && FirstFit(db.tasks[rest[k]], capabilities).Some?
          && forall j | 0 <= j < k :: FirstFit(db.tasks[rest[j]], capabilities).None?;
        assert w[k + 1] == rest[k];
        forall j | 0 <= j < k + 1 ensures FirstFit(db.tasks[w[j]], capabilities).None? {
          if j > 0 {
            assert w[j] == rest[j - 1];
          }
        }
      }
    }
  }

  // ---------- transactions ----------

  predicate SameKey(t: Task, owner: Id, device: Id, key: string) {
    t.owner == owner && t.device == device && t.envelope.idempotencyKey == key
  }

  ghost predicate KeyTaken(db: Db, owner: Id, device: Id, key: string) {
    exists id <- db.tasks :: SameKey(db.tasks[id], owner, device, key)
  }

  /** The row that holds an idempotency key; `Invariant` shows there is at most one. */
  ghost function KeyHolder(db: Db, owner: Id, device: Id, key: string): (id: Id)
    requires KeyTaken(db, owner, device, key)
    ensures id in db.tasks && SameKey(db.tasks[id], owner, device, key)
  {
    var id :| id in db.tasks && SameKey(db.tasks[id], owner, device, key);
    id
  }

  ghost predicate PathTaken(db: Db, path: string) {
    exists a <- db.artifacts :: db.artifacts[a].path == path
  }

  function Put(db: Db, id: Id, t: Task): Db {
    db.(tasks := db.tasks[id := t])
  }

  function Log(db: Db, id: Id, kind: EventKind, now: Time): Db {
    db.(events := db.events + [Event(id, kind, now)])
  }

  ghost function AfterCreate(db: Db, op: Op): Outcome
    requires op.Create?
  {
    var key := op.envelope.idempotencyKey;
    if KeyTaken(db, op.owner, op.device, key) then
      var t := db.tasks[KeyHolder(db, op.owner, op.device, key)];
      if t.requestDigest != op.digest then Outcome(db, Rejected(Conflict)) else Outcome(db, Row(t))
    else if op.freshId in db.tasks then
      Outcome(db, Rejected(IntegrityViolation))
    else
      var t := NewTask(op.owner, op.device, op.envelope, op.digest, op.now);
      Outcome(Log(Put(db, op.freshId, t), op.freshId, EventCreated, op.now), Row(t))
  }

  function ArtifactKey(op: Op): Id
    requires op.Finalize?
  {
    if Truthy(op.ref.artifactId) then op.ref.artifactId.value else op.freshId
  }

  function StoredPath(op: Op): string
    requires op.Finalize?
  {
    if Truthy(op.path) then op.path.value else ArtifactKey(op)
  }

  ghost function AfterFinalize(db: Db, op: Op): Outcome
    requires op.Finalize?
  {
    if op.ref.sizeBytes.None? || op.ref.sha256.None? then Outcome(db, Rejected(Conflict))
    else if op.id !in db.tasks then Outcome(db, Rejected(NotFound))
    else
      var t := db.tasks[op.id];
      if t.requestDigest != op.digest then Outcome(db, Rejected(Conflict))
      else if !t.status.Uploading? then Outcome(db, Row(t))
      else if t.expiresAt <= op.now then Outcome(Put(db, op.id, Expire(t, op.now)), Rejected(Conflict))
      else if ArtifactKey(op) in db.artifacts || PathTaken(db, StoredPath(op)) then
        Outcome(db, Rejected(IntegrityViolation))
      else
        var a := Artifact(op.id, op.ref.sizeBytes.value, StoredPath(op), true, t.expiresAt);
        var u := Enqueue(t, op.now);
        var inserted := db.(artifacts := db.artifacts[ArtifactKey(op) := a]);
        Outcome(Log(Put(inserted, op.id, u), op.id, EventQueued, op.now), Row(u))
  }

  function LeaseFor(id: Id, t: Task, worker: Id, token: string, capability: Id, now: Time): Lease {
    Lease(id, t.owner, worker, t.leaseGeneration + 1, token, LeaseEnd(t, now), capability)
  }

  ghost function AfterClaim(db: Db, op: Op): Outcome
    requires op.Claim? && IsWindow(db, op.now, op.window)
  {
    var pick := Pick(db, op.capabilities, op.window);
    PickIsFirst(db, op.capabilities, op.window);
    if pick.None? then Outcome(db, NoTask)
    else
      var t := db.tasks[pick.value];
      var capability := FirstFit(t, op.capabilities).value.capabilityId;
      var u := Grant(t, op.worker, Sha256(op.token), capability, op.now);
      Outcome(Log(Put(db, pick.value, u), pick.value, EventLeased, op.now),
              Granted(LeaseFor(pick.value, t, op.worker, op.token, capability, op.now)))
  }

  /** The comparison `_check_lease` makes between a stored row and a presented lease. */
  predicate Current(t: Task, lease: Lease, now: Time) {
    && t.owner == lease.ownerId
    && t.leaseOwner == Some(lease.workerId)
    && t.leaseGeneration == lease.generation
    && t.leaseTokenHash == Some(Sha256(lease.token))
    && Held(t.status)
    && t.leaseUntil.Some?
    && t.leaseUntil.value > now
  }

  function CheckLease(db: Db, lease: Lease, now: Time): Reply {
    if lease.taskId !in db.tasks then Rejected(NotFound)
    else if !Current(db.tasks[lease.taskId], lease, now) then Rejected(LeaseConflict)
    else if db.tasks[lease.taskId].executionDeadline <= now then Rejected(LeaseConflict)
    else Row(db.tasks[lease.taskId])
  }

  /** The server accepts this lease at this moment. */
  predicate Accepts(db: Db, lease: Lease, now: Time) {
    CheckLease(db, lease, now).Row?
  }

  /** The row a lease-bound call writes once its lease is accepted. */
  function LeaseCall(t: Task, op: Op): Task
    requires op.Start? || op.Heartbeat? || op.Fail? || op.Publish?
  {
    match op
    case Start(_, now) => Renew(t, Running, now)
    case Heartbeat(_, now) => Renew(t, t.status, now)
    case Fail(_, error, retryable, now) => GiveBack(t, error, retryable, now)
    case Publish(_, result, now) => Deliver(t, result, now)
  }

  ghost function AfterLeaseCall(db: Db, op: Op): Outcome
    requires op.Start? || op.Heartbeat? || op.Fail? || op.Publish?
  {
    var check := CheckLease(db, op.lease, op.now);
    if check.Rejected? then Outcome(db, check)
    else
      var u := LeaseCall(db.tasks[op.lease.taskId], op);
      Outcome(Put(db, op.lease.taskId, u), Row(u))
  }

  ghost function AfterRelease(db: Db, op: Op): Outcome
    requires op.Release?
  {
    if op.id !in db.tasks || db.tasks[op.id].owner != op.owner then Outcome(db, Rejected(NotFound))
    else if !db.tasks[op.id].status.Succeeded? then Outcome(db, Rejected(Conflict))
    else
      Outcome(db.(artifacts := map a | a in db.artifacts && db.artifacts[a].taskId != op.id :: db.artifacts[a]),
              Paths(set a | a in db.artifacts && db.artifacts[a].taskId == op.id :: db.artifacts[a].path))
  }

  /** The three UPDATE statements of the sweep. */
  datatype Statement = ExpireIdle | RequeueLapsed | FailLapsed

  predicate Selects(stmt: Statement, t: Task, now: Time) {
    match stmt
    case ExpireIdle => OverdueIdle(t, now)
    case RequeueLapsed => LapsedRetry(t, now)
    case FailLapsed => LapsedFinal(t, now)
  }

  function Assigned(stmt: Statement, t: Task, now: Time): Task {
    match stmt
    case ExpireIdle => Expire(t, now)
    case RequeueLapsed => Unlease(t, Queued, now).(nextAttemptAt := now)
    case FailLapsed => Unlease(t, Failed, now).(error := Some(ATTEMPTS_EXHAUSTED))
  }

  /** The rows a statement selects, and the table after it. */
  function Hits(rows: map<Id, Task>, stmt: Statement, now: Time): set<Id> {
    set id | id in rows && Selects(stmt, rows[id], now)
  }

  function UpdatedRow(stmt: Statement, t: Task, now: Time): Task {
    if Selects(stmt, t, now) then Assigned(stmt, t, now) else t
  }

  function Updated(rows: map<Id, Task>, stmt: Statement, now: Time): map<Id, Task> {
    map id | id in rows :: UpdatedRow(stmt, rows[id], now)
  }

  /** All rows swept at once. The reply adds up the connection's running total after each of
      the three statements, so earlier statements count again. */
  ghost function AfterSweep(db: Db, now: Time): Outcome {
    Outcome(db.(tasks := map id | id in db.tasks :: SweepRow(db.tasks[id], now)),
            Swept(3 * |Hits(db.tasks, ExpireIdle, now)| + 2 * |Hits(db.tasks, RequeueLapsed, now)|
                  + |Hits(db.tasks, FailLapsed, now)|))
  }

  /** Running the three statements one after another is one simultaneous step of every row:
      no statement selects a row that an earlier one wrote, so each also selects exactly the
      rows it would have selected at the start. */
  lemma StatementsAreOneStep(rows: map<Id, Task>, first: map<Id, Task>, second: map<Id, Task>,
                             third: map<Id, Task>, now: Time)
    requires first == Updated(rows, ExpireIdle, now)
    requires second == Updated(first, RequeueLapsed, now)
    requires third == Updated(second, FailLapsed, now)
    ensures third == map id | id in rows :: SweepRow(rows[id], now)
    ensures Hits(first, RequeueLapsed, now) == Hits(rows, RequeueLapsed, now)
    ensures Hits(second, FailLapsed, now) == Hits(rows, FailLapsed, now)
  {
    forall id <- rows
      ensures third[id] == SweepRow(rows[id], now)
      ensures LapsedRetry(first[id], now) == LapsedRetry(rows[id], now)
      ensures LapsedFinal(second[id], now) == LapsedFinal(rows[id], now)
    {
      StatementsOnOneRow(rows[id], now);
    }
  }

  lemma StatementsOnOneRow(t: Task, now: Time)
    ensures var first := UpdatedRow(ExpireIdle, t, now);
            var second := UpdatedRow(RequeueLapsed, first, now);
            && UpdatedRow(FailLapsed, second, now) == SweepRow(t, now)
            && LapsedRetry(first, now) == LapsedRetry(t, now)
            && LapsedFinal(second, now) == LapsedFinal(t, now)
  {
  }

  ghost function AfterCancel(db: Db, op: Op): Outcome
    requires op.Cancel?
  {
    if op.id !in db.tasks || db.tasks[op.id].owner != op.owner then Outcome(db, Rejected(NotFound))
    else if Terminal(db.tasks[op.id].status) then Outcome(db, Row(db.tasks[op.id]))
    else
      var u := Unlease(db.tasks[op.id], Canceled, op.now);
      Outcome(Put(db, op.id, u), Row(u))
  }

  predicate Removable(a: Artifact, cutoff: Time) {
    a.expiresAt <= cutoff || !a.published
  }

  ghost function AfterPurge(db: Db, cutoff: Time): Outcome {
    Outcome(db.(artifacts := map a | a in db.artifacts && !Removable(db.artifacts[a], cutoff) :: db.artifacts[a]),
            Deleted)
  }

  /** Only the claim query leaves SQLite a choice. */
  ghost predicate Legal(db: Db, op: Op) {
    op.Claim? ==> IsWindow(db, op.now, op.window)
  }

  ghost function Exec(db: Db, op: Op): Outcome
    requires Legal(db, op)
  {
    match op
    case Create(_, _, _, _, _, _) => AfterCreate(db, op)
    case Finalize(_, _, _, _, _, _) => AfterFinalize(db, op)
    case Claim(_, _, _, _, _) => AfterClaim(db, op)
    case Start(_, _) => AfterLeaseCall(db, op)
    case Heartbeat(_, _) => AfterLeaseCall(db, op)
    case Fail(_, _, _, _) => AfterLeaseCall(db, op)
    case Publish(_, _, _) => AfterLeaseCall(db, op)
    case Release(_, _) => AfterRelease(db, op)
    case Sweep(now) => AfterSweep(db, now)
    case Cancel(_, _, _) => AfterCancel(db, op)
    case Purge(cutoff) => AfterPurge(db, cutoff)
  }

  /** The clock a transaction reads; releasing inputs and deleting artifact rows read none. */
  function OpTime(op: Op): Option<Time> {
    match op
    case Create(_, _, _, _, _, now) => Some(now)
    case Finalize(_, _, _, _, _, now) => Some(now)
    case Claim(_, _, _, _, now) => Some(now)
    case Start(_, now) => Some(now)
    case Heartbeat(_, now) => Some(now)
    case Fail(_, _, _, now) => Some(now)
    case Publish(_, _, now) => Some(now)
    case Sweep(now) => Some(now)
    case Cancel(_, _, now) => Some(now)
    case Release(_, _) => None
    case Purge(_) => None
  }
}
