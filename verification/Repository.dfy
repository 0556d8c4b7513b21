/** `TaskRepository`: each method is one write transaction over the three tables, in the
    imperative shape of the source, proved to have exactly the effect that `TaskTable` gives. */
module Repository {
  import opened Records
  import opened TaskTable
  import opened Invariant

  // ---------- the loop inside an UPDATE ----------

  /** The rows of `todo` are still as before, the others as the statement leaves them. */
  ghost predicate PartlyDone<T(!new)>(before: map<Id, T>, current: map<Id, T>, target: map<Id, T>, hits: set<Id>,
                                      todo: set<Id>, count: nat) {
    && before.Keys == current.Keys == target.Keys
    && hits <= target.Keys && todo <= target.Keys
    && (forall id <- target :: current[id] == if id in todo then before[id] else target[id])
    && count == |hits - todo|
  }

  lemma OneMoreDone<T(!new)>(before: map<Id, T>, current: map<Id, T>, target: map<Id, T>, hits: set<Id>,
                             todo: set<Id>, count: nat, id: Id)
    requires PartlyDone(before, current, target, hits, todo, count) && id in todo
    ensures PartlyDone(before, current[id := target[id]], target, hits, todo - {id},
                       count + if id in hits then 1 else 0)
  {
    assert hits - (todo - {id}) == (hits - todo) + if id in hits then {id} else {};
  }

  lemma AllDone<T(!new)>(before: map<Id, T>, current: map<Id, T>, target: map<Id, T>, hits: set<Id>, count: nat)
    requires PartlyDone(before, current, target, hits, {}, count)
    ensures current == target && count == |hits|
  {
  }

  class TaskRepository {
    var tasks: map<Id, Task>
    var artifacts: map<Id, Artifact>
    var events: seq<Event>

    function State(): Db
      reads this
    {
      Db(tasks, artifacts, events)
    }

    /** The schema's constraints and everything the methods keep. */
    ghost predicate Valid()
      reads this
    {
      DbInv(State())
    }

    constructor ()
      ensures Valid() && State() == EMPTY
    {
      tasks, artifacts, events := map[], map[], [];
    }

    // ---------- SQL statements ----------

    /** One row of an UPDATE: tested against the WHERE clause and rewritten if it passes. */
    method UpdateRow(stmt: Statement, id: Id, now: Time) returns (rowcount: nat)
      requires id in tasks
      modifies this`tasks
      ensures tasks == old(tasks)[id := UpdatedRow(stmt, old(tasks)[id], now)]
      ensures rowcount == if Selects(stmt, old(tasks)[id], now) then 1 else 0
    {
      if Selects(stmt, tasks[id], now) {
        tasks := tasks[id := Assigned(stmt, tasks[id], now)];
        return 1;
      }
      return 0;
    }

    /** UPDATE tasks SET ... WHERE ..., one row at a time in any order; the row count is what
        SQLite adds to the connection's running total. */
    method Update(stmt: Statement, now: Time) returns (rowcount: nat)
      modifies this`tasks
      ensures tasks == Updated(old(tasks), stmt, now)
      ensures rowcount == |Hits(old(tasks), stmt, now)|
    {
      rowcount := 0;
      var todo := tasks.Keys;
      ghost var target := Updated(tasks, stmt, now);
      ghost var hits := Hits(tasks, stmt, now);
      while todo != {}
        invariant PartlyDone(old(tasks), tasks, target, hits, todo, rowcount)
      {
        var id :| id in todo;
        ghost var current := tasks;
        var n := UpdateRow(stmt, id, now);
        assert n == (if id in hits then 1 else 0) && tasks == current[id := target[id]];
        OneMoreDone(old(tasks), current, target, hits, todo, rowcount, id);
        rowcount := rowcount + n;
        todo := todo - {id};
      }
      AllDone(old(tasks), tasks, target, hits, rowcount);
    }

    method SelectByKey(owner: Id, device: Id, key: string) returns (found: Option<Id>)
      requires Valid()
      ensures found.Some? <==> KeyTaken(State(), owner, device, key)
      ensures found.Some? ==> found.value == KeyHolder(State(), owner, device, key)
    {
      var todo := tasks.Keys;
      while todo != {}
        invariant todo <= tasks.Keys
        invariant forall id <- tasks.Keys - todo :: !SameKey(tasks[id], owner, device, key)
      {
        var id :| id in todo;
        if SameKey(tasks[id], owner, device, key) {
          return Some(id);
        }
        todo := todo - {id};
      }
      return None;
    }

    /** Whether an artifact row already has this path, which the UNIQUE constraint refuses. */
    method PathInUse(path: string) returns (used: bool)
      ensures used == PathTaken(State(), path)
    {
      var todo := artifacts.Keys;
      while todo != {}
        invariant todo <= artifacts.Keys
        invariant forall a <- artifacts.Keys - todo :: artifacts[a].path != path
      {
        var a :| a in todo;
        if artifacts[a].path == path {
          return true;
        }
        todo := todo - {a};
      }
      return false;
    }

    // ---------- the device's side ----------

    method CreateUploading(owner: Id, device: Id, envelope: Envelope, digest: string, freshId: Id, now: Time)
      returns (r: Reply)
      requires Valid()
      modifies this
      ensures Valid()
      ensures Outcome(State(), r) == Exec(old(State()), Create(owner, device, envelope, digest, freshId, now))
    {
      InvStep(State(), Create(owner, device, envelope, digest, freshId, now));
      var existing := SelectByKey(owner, device, envelope.idempotencyKey);
      if existing.Some? {
        if tasks[existing.value].requestDigest != digest {
          return Rejected(Conflict);
        }
        return Row(tasks[existing.value]);
      }
      if freshId in tasks {
        return Rejected(IntegrityViolation);
      }
      var expiresAt := now + envelope.ttlSeconds as real;
      tasks := tasks[freshId := Task(
        owner := owner, device := device, envelope := envelope, requestDigest := digest, status := Uploading,
        expiresAt := expiresAt, executionDeadline := expiresAt, attempt := 0, nextAttemptAt := now,
        leaseOwner := None, leaseGeneration := 0, leaseTokenHash := None, leaseUntil := None,
        boundCapability := None, error := None, result := None, resultAvailable := false,
        resultExpiresAt := None, createdAt := now, updatedAt := now)];
      events := events + [Event(freshId, EventCreated, now)];
      return Row(tasks[freshId]);
    }

    method FinalizeAndEnqueue(id: Id, ref: ArtifactRef, digest: string, path: Option<string>, freshId: Id, now: Time)
      returns (r: Reply)
      requires Valid()
      modifies this
      ensures Valid()
      ensures Outcome(State(), r) == Exec(old(State()), Finalize(id, ref, digest, path, freshId, now))
    {
      InvStep(State(), Finalize(id, ref, digest, path, freshId, now));
      var artifactId := if Truthy(ref.artifactId) then ref.artifactId.value else freshId;
      if ref.sizeBytes.None? || ref.sha256.None? {
        return Rejected(Conflict);
      }
      if id !in tasks {
        return Rejected(NotFound);
      }
      var row := tasks[id];
      if row.requestDigest != digest {
        return Rejected(Conflict);
      }
      if !row.status.Uploading? {
        return Row(row);
      }
      if row.expiresAt <= now {
        tasks := tasks[id := row.(status := Expired, updatedAt := now)];
        return Rejected(Conflict);
      }
      var stored := if Truthy(path) then path.value else artifactId;
      var used := PathInUse(stored);
      if used || artifactId in artifacts {
        return Rejected(IntegrityViolation);
      }
      artifacts := artifacts[artifactId := Artifact(id, ref.sizeBytes.value, stored, true, row.expiresAt)];
      tasks := tasks[id := row.(status := Queued, updatedAt := now)];
      events := events + [Event(id, EventQueued, now)];
      return Row(tasks[id]);
    }

    method CancelTask(owner: Id, id: Id, now: Time) returns (r: Reply)
      requires Valid()
      modifies this`tasks
      ensures Valid()
      ensures Outcome(State(), r) == Exec(old(State()), Cancel(owner, id, now))
    {
      InvStep(State(), Cancel(owner, id, now));
      if id !in tasks || tasks[id].owner != owner {
        return Rejected(NotFound);
      }
      var row := tasks[id];
      if Terminal(row.status) {
        return Row(row);
      }
      tasks := tasks[id := row.(status := Canceled, leaseOwner := None, leaseTokenHash := None,
      leaseUntil := None, updatedAt := now)];
      return Row(tasks[id]);
    }

    // ---------- the Worker's side ----------

    /** The loop over a Worker's capabilities: the first that fits, if any. */
    static method Matches(t: Task, capabilities: seq<Capability>) returns (match_: Option<Capability>)
      ensures match_.None? ==> forall c <- capabilities :: !Fits(t, c)
      ensures match_.Some? ==>
                exists k | 0 <= k < |capabilities| ::
                  && capabilities[k] == match_.value
                  && Fits(t, capabilities[k])
                  && forall j | 0 <= j < k :: !Fits(t, capabilities[j])
      ensures match_ == FirstFit(t, capabilities)
    {
      var k := 0;
      while k < |capabilities|
        invariant 0 <= k <= |capabilities|
        invariant forall j | 0 <= j < k :: !Fits(t, capabilities[j])
        invariant FirstFit(t, capabilities) == FirstFit(t, capabilities[k..])
      {
        if Fits(t, capabilities[k]) {
          return Some(capabilities[k]);
        }
        k := k + 1;
      }
      return None;
    }

    /** SELECT ... ORDER BY created_at LIMIT 32. */
    method SelectWindow(now: Time) returns (window: seq<Id>)
      ensures IsWindow(State(), now, window)
    {
      var pool := set id | id in tasks && Eligible(tasks[id], now);
      ghost var eligible := pool;
      window := [];
      while pool != {} && |window| < CLAIM_WINDOW
        invariant pool <= eligible && |window| <= CLAIM_WINDOW
        invariant forall id :: id in eligible <==> id in tasks && Eligible(tasks[id], now)
        invariant forall id <- eligible :: id in pool <==> id !in window
        invariant forall id <- window :: id in eligible
        invariant forall i, j | 0 <= i < j < |window| ::
            window[i] != window[j] && tasks[window[i]].createdAt <= tasks[window[j]].createdAt
        invariant forall e <- window, id <- pool :: tasks[e].createdAt <= tasks[id].createdAt
      {
        var oldest := Oldest(pool);
        window := window + [oldest];
        pool := pool - {oldest};
      }
    }

    method Oldest(pool: set<Id>) returns (oldest: Id)
      requires pool != {} && pool <= tasks.Keys
      ensures oldest in pool && forall id <- pool :: tasks[oldest].createdAt <= tasks[id].createdAt
    {
      oldest :| oldest in pool;
      var rest := pool - {oldest};
      while rest != {}
        invariant rest <= pool && oldest in pool
        invariant forall id <- pool - rest :: tasks[oldest].createdAt <= tasks[id].createdAt
      {
        var id :| id in rest;
        if tasks[id].createdAt < tasks[oldest].createdAt {
          oldest := id;
        }
        rest := rest - {id};
      }
    }

    method ClaimNext(worker: Id, capabilities: seq<Capability>, token: string, now: Time)
      returns (r: Reply, ghost window: seq<Id>)
      requires Valid()
      modifies this`tasks, this`events
      ensures Valid()
      ensures IsWindow(old(State()), now, window)
      ensures Outcome(State(), r) == Exec(old(State()), Claim(worker, capabilities, token, window, now))
    {
      var rows := SelectWindow(now);
      window := rows;
      InvStep(State(), Claim(worker, capabilities, token, window, now));
      var k := 0;
      while k < |rows|
        invariant 0 <= k <= |rows|
        invariant State() == old(State())
        invariant Pick(State(), capabilities, rows) == Pick(State(), capabilities, rows[k..])
      {
        var id := rows[k];
        k := k + 1;
        var row := tasks[id];
        var capability := Matches(row, capabilities);
        if capability.None? {
          continue;
        }
        var generation := row.leaseGeneration + 1;
        var leaseUntil := MinTime(now + LEASE_SECONDS, row.executionDeadline);
        // the UPDATE repeats two of the SELECT's conditions
        if !(tasks[id].status.Queued? && tasks[id].nextAttemptAt <= now) {
          continue;
        }
        tasks := tasks[id := row.(status := Leased, attempt := row.attempt + 1, leaseOwner := Some(worker),
        leaseGeneration := generation, leaseTokenHash := Some(Sha256(token)), leaseUntil := Some(leaseUntil),
        boundCapability := Some(capability.value.capabilityId), updatedAt := now)];
        events := events + [Event(id, EventLeased, now)];
        return Granted(Lease(id, row.owner, worker, generation, token, leaseUntil,
                             capability.value.capabilityId)), window;
      }
      return NoTask, window;
    }

    /** `_check_lease`, with its six comparisons and the separate deadline test. */
    method CheckTheLease(lease: Lease, now: Time) returns (r: Reply)
      ensures r == CheckLease(State(), lease, now)
    {
      if lease.taskId !in tasks {
        return Rejected(NotFound);
      }
      var row := tasks[lease.taskId];
      if row.owner != lease.ownerId
         || row.leaseOwner != Some(lease.workerId)
         || row.leaseGeneration != lease.generation
         || row.leaseTokenHash != Some(Sha256(lease.token))
         || !Held(row.status)
         || row.leaseUntil.None?
         || row.leaseUntil.value <= now
      {
        return Rejected(LeaseConflict);
      }
      if row.executionDeadline <= now {
        return Rejected(LeaseConflict);
      }
      return Row(row);
    }

    method StartTask(lease: Lease, now: Time) returns (r: Reply)
      requires Valid()
      modifies this`tasks
      ensures Valid()
      ensures Outcome(State(), r) == Exec(old(State()), Start(lease, now))
    {
      InvStep(State(), Start(lease, now));
      r := CheckTheLease(lease, now);
      if r.Row? {
        var row := r.row;
        tasks := tasks[lease.taskId := row.(status := Running,
        leaseUntil := Some(MinTime(now + LEASE_SECONDS, row.executionDeadline)), updatedAt := now)];
        r := Row(tasks[lease.taskId]);
      }
    }

    method HeartbeatTask(lease: Lease, now: Time) returns (r: Reply)
      requires Valid()
      modifies this`tasks
      ensures Valid()
      ensures Outcome(State(), r) == Exec(old(State()), Heartbeat(lease, now))
    {
      InvStep(State(), Heartbeat(lease, now));
      r := CheckTheLease(lease, now);
      if r.Row? {
        var leaseUntil := MinTime(now + LEASE_SECONDS, r.row.executionDeadline);
        tasks := tasks[lease.taskId := r.row.(leaseUntil := Some(leaseUntil), updatedAt := now)];
        r := Row(tasks[lease.taskId]);
      }
    }

    method FailTask(lease: Lease, error: WireError, retryable: bool, now: Time) returns (r: Reply)
      requires Valid()
      modifies this`tasks
      ensures Valid()
      ensures Outcome(State(), r) == Exec(old(State()), Fail(lease, error, retryable, now))
    {
      InvStep(State(), Fail(lease, error, retryable, now));
      r := CheckTheLease(lease, now);
      if r.Row? {
        var row := r.row;
        var shouldRetry := retryable && row.attempt < MAX_ATTEMPTS && row.expiresAt > now;
        var nextStatus := if shouldRetry then Queued else Failed;
        var nextAttemptAt := if shouldRetry then now + Backoff(row.attempt) else now;
        tasks := tasks[lease.taskId := row.(status := nextStatus, nextAttemptAt := nextAttemptAt,
        leaseOwner := None, leaseTokenHash := None, leaseUntil := None, error := Some(error), updatedAt := now)];
        r := Row(tasks[lease.taskId]);
      }
    }

    method PublishResult(lease: Lease, result: string, now: Time) returns (r: Reply)
      requires Valid()
      modifies this`tasks
      ensures Valid()
      ensures Outcome(State(), r) == Exec(old(State()), Publish(lease, result, now))
    {
      InvStep(State(), Publish(lease, result, now));
      r := CheckTheLease(lease, now);
      if r.Row? {
        if !Held(r.row.status) {
          return Rejected(LeaseConflict);
        }
        tasks := tasks[lease.taskId := r.row.(status := Succeeded, result := Some(result), resultAvailable := true,
        resultExpiresAt := Some(now + RESULT_RETENTION_SECONDS), leaseOwner := None, leaseTokenHash := None,
        leaseUntil := None, updatedAt := now)];
        r := Row(tasks[lease.taskId]);
      }
    }

    // ---------- maintenance ----------

    method RemoveInputArtifacts(owner: Id, id: Id) returns (r: Reply)
      requires Valid()
      modifies this`artifacts
      ensures Valid()
      ensures Outcome(State(), r) == Exec(old(State()), Release(owner, id))
    {
      InvStep(State(), Release(owner, id));
      if id !in tasks || tasks[id].owner != owner {
        return Rejected(NotFound);
      }
      if !tasks[id].status.Succeeded? {
        return Rejected(Conflict);
      }
      var paths := set a | a in artifacts && artifacts[a].taskId == id :: artifacts[a].path;
      artifacts := map a | a in artifacts && artifacts[a].taskId != id :: artifacts[a];
      return Paths(paths);
    }

    /** Three UPDATE statements in a row. `total_changes` counts from the opening of the
        connection, so the returned sum counts earlier statements again. */
    method SweepStatements(now: Time) returns (changed: nat)
      modifies this`tasks
      ensures tasks == map id | id in old(tasks) :: SweepRow(old(tasks)[id], now)
      ensures changed == 3 * |Hits(old(tasks), ExpireIdle, now)| + 2 * |Hits(old(tasks), RequeueLapsed, now)|
                         + |Hits(old(tasks), FailLapsed, now)|
    {
      var totalChanges := 0;
      changed := 0;

      var n := Update(ExpireIdle, now);
      totalChanges := totalChanges + n;
      changed := changed + totalChanges;
      ghost var first := tasks;

      n := Update(RequeueLapsed, now);
      totalChanges := totalChanges + n;
      changed := changed + totalChanges;
      ghost var second := tasks;

      n := Update(FailLapsed, now);
      totalChanges := totalChanges + n;
      changed := changed + totalChanges;
      StatementsAreOneStep(old(tasks), first, second, tasks, now);
    }

    method RequeueExpired(now: Time) returns (r: Reply)
      requires Valid()
      modifies this`tasks
      ensures Valid()
      ensures Outcome(State(), r) == Exec(old(State()), Sweep(now))
    {
      InvStep(State(), Sweep(now));
      var changed := SweepStatements(now);
      return Swept(changed);
    }

    /** The final statement of cleanup: DELETE FROM artifacts WHERE expired or unpublished. */
    method DeleteArtifacts(cutoff: Time)
      requires Valid()
      modifies this`artifacts
      ensures Valid()
      ensures State() == Exec(old(State()), Purge(cutoff)).db
    {
      InvStep(State(), Purge(cutoff));
      artifacts := map a | a in artifacts && !Removable(artifacts[a], cutoff) :: artifacts[a];
    }
  }
}
