/** One task seen alone. Every transaction, whatever it does elsewhere, either leaves a given
    row as it was or takes one of the steps of `RowNext`; the life of a task is then a path
    in this small transition system. */
module RowProtocol {
  import opened Records
  import opened TaskTable

  /** An unexpired lease is held on the row. */
  predicate LiveLease(t: Task, now: Time) {
    Held(t.status) && t.leaseUntil.Some? && t.leaseUntil.value > now && t.executionDeadline > now
  }

  /** A call by the holder of a live lease. */
  ghost predicate HolderStep(t: Task, u: Task, now: Time) {
    && LiveLease(t, now)
    && (|| u == Renew(t, Running, now)
        || u == Renew(t, t.status, now)
        || (&& u.error.Some? && u.error.value.ErrorEnvelope?
            && (u == GiveBack(t, u.error.value, true, now) || u == GiveBack(t, u.error.value, false, now)))
        || (u.result.Some? && u == Deliver(t, u.result.value, now)))
  }

  /** A Worker takes the task. */
  ghost predicate GrantStep(t: Task, u: Task, now: Time) {
    && Eligible(t, now)
    && u.leaseOwner.Some? && u.leaseTokenHash.Some? && u.boundCapability.Some?
    && u == Grant(t, u.leaseOwner.value, u.leaseTokenHash.value, u.boundCapability.value, now)
  }

  /** The upload finishes, or finds the task expired; or the device withdraws the task. */
  ghost predicate DeviceStep(t: Task, u: Task, now: Time) {
    || (t.status.Uploading? && t.expiresAt > now && u == Enqueue(t, now))
    || (OverdueIdle(t, now) && u == Expire(t, now))
    || (!Terminal(t.status) && u == Unlease(t, Canceled, now))
  }

  /** What one transaction at time `now` may do to a row. */
  ghost predicate RowNext(t: Task, u: Task, now: Time) {
    || u == t
    || DeviceStep(t, u, now)
    || GrantStep(t, u, now)
    || HolderStep(t, u, now)
    || u == SweepRow(t, now)
  }

  /** The time a step on a row is judged by: the transaction's own clock when it reads one.
      The two transactions without a clock never touch a row. */
  function Clock(op: Op): Time {
    if OpTime(op).Some? then OpTime(op).value else 0.0
  }

  /** What `Projection` states, of one transaction and one row. */
  ghost predicate Projects(db: Db, op: Op, id: Id)
    requires Legal(db, op) && id in db.tasks
  {
    var after := Exec(db, op).db;
    && id in after.tasks
    && RowNext(db.tasks[id], after.tasks[id], Clock(op))
    && (after.tasks[id] != db.tasks[id] ==> OpTime(op).Some?)
    && (db.tasks[id].status.Uploading? && !op.Finalize? ==>
          var u := after.tasks[id]; u.status.Uploading? || u.status.Expired? || u.status.Canceled?)
  }

  lemma ProjectionClaim(db: Db, op: Op, id: Id)
    requires Legal(db, op) && id in db.tasks && op.Claim?
    ensures Projects(db, op, id)
  {
    PickIsFirst(db, op.capabilities, op.window);
  }

  lemma ProjectionLeaseCall(db: Db, op: Op, id: Id)
    requires id in db.tasks && (op.Start? || op.Heartbeat? || op.Fail? || op.Publish?)
    ensures Projects(db, op, id)
  {
  }

  lemma ProjectionDevice(db: Db, op: Op, id: Id)
    requires id in db.tasks && (op.Create? || op.Finalize? || op.Cancel?)
    ensures Projects(db, op, id)
  {
  }

  lemma ProjectionUpkeep(db: Db, op: Op, id: Id)
    requires id in db.tasks && (op.Sweep? || op.Release? || op.Purge?)
    ensures Projects(db, op, id)
  {
  }

  /** Refinement: every transaction is a step, or no step, of every row. */
  lemma Projection(db: Db, op: Op, id: Id)
    requires Legal(db, op) && id in db.tasks
    ensures id in Exec(db, op).db.tasks
    ensures RowNext(db.tasks[id], Exec(db, op).db.tasks[id], Clock(op))
    ensures Exec(db, op).db.tasks[id] != db.tasks[id] ==> OpTime(op).Some?
    ensures db.tasks[id].status.Uploading? && !op.Finalize? ==>
              var u := Exec(db, op).db.tasks[id];
              u.status.Uploading? || u.status.Expired? || u.status.Canceled?
  {
    if op.Claim? {
      ProjectionClaim(db, op, id);
    } else if op.Start? || op.Heartbeat? || op.Fail? || op.Publish? {
      ProjectionLeaseCall(db, op, id);
    } else if op.Create? || op.Finalize? || op.Cancel? {
      ProjectionDevice(db, op, id);
    } else {
      ProjectionUpkeep(db, op, id);
    }
  }

  /** A row that appears is one that `create_uploading` inserted. */
  lemma NewRow(db: Db, op: Op, id: Id)
    requires Legal(db, op) && id !in db.tasks && id in Exec(db, op).db.tasks
    ensures op.Create? && id == op.freshId
    ensures Exec(db, op).db.tasks[id] == NewTask(op.owner, op.device, op.envelope, op.digest, op.now)
    ensures !KeyTaken(db, op.owner, op.device, op.envelope.idempotencyKey)
  {
    if op.Claim? {
      PickIsFirst(db, op.capabilities, op.window);
    }
  }

  // ---------- the invariant of a row ----------

  /** What every reachable row satisfies. No method states the attempt bound for queued rows,
      and the claim never tests it. */
  ghost predicate RowInv(t: Task) {
    && t.executionDeadline == t.expiresAt
    && (Held(t.status) <==> t.leaseUntil.Some?)
    && (Held(t.status) <==> t.leaseOwner.Some?)
    && (Held(t.status) <==> t.leaseTokenHash.Some?)
    && (Held(t.status) ==> t.leaseUntil.value == LeaseEnd(t, t.updatedAt))
    && 0 <= t.attempt <= MAX_ATTEMPTS
    && t.attempt == t.leaseGeneration
    && (t.attempt > 0 <==> t.boundCapability.Some?)
    && (t.status.Uploading? ==> t.attempt == 0)
    && (t.status.Queued? ==> t.attempt < MAX_ATTEMPTS)
    && (Held(t.status) || t.status.Succeeded? ==> t.attempt > 0)
    && (t.status.Succeeded? <==> t.result.Some?)
    && (t.status.Succeeded? <==> t.resultAvailable)
    && t.resultExpiresAt == (if t.status.Succeeded? then Some(t.updatedAt + RESULT_RETENTION_SECONDS) else None)
    && (t.status.Failed? ==> t.error.Some?)
    && (t.error.Some? && t.error.value.BareCode? ==> t.status.Failed?)
  }

  lemma NewTaskInv(owner: Id, device: Id, envelope: Envelope, digest: string, now: Time)
    ensures RowInv(NewTask(owner, device, envelope, digest, now))
  {
  }

  lemma RowInvStepDevice(t: Task, u: Task, now: Time)
    requires RowInv(t) && DeviceStep(t, u, now)
    ensures RowInv(u)
  {
  }

  lemma RowInvStepHolder(t: Task, u: Task, now: Time)
    requires RowInv(t) && HolderStep(t, u, now)
    ensures RowInv(u)
  {
  }

  lemma RowInvStep(t: Task, u: Task, now: Time)
    requires RowInv(t) && RowNext(t, u, now)
    ensures RowInv(u)
  {
    if u == t {
    } else if DeviceStep(t, u, now) {
      RowInvStepDevice(t, u, now);
    } else if HolderStep(t, u, now) {
      RowInvStepHolder(t, u, now);
    }
  }

  // ---------- how a row evolves ----------

  /** Status changes a task still has in front of it, at most. */
  function Remaining(t: Task): int {
    match t.status
    case Uploading => 10
    case Queued => 9 - 3 * t.attempt
    case Leased => 11 - 3 * t.attempt
    case Running => 10 - 3 * t.attempt
    case _ => 0
  }

  /** What any number of steps preserves. */
  ghost predicate Evolves(t: Task, u: Task) {
    && u.owner == t.owner && u.device == t.device && u.envelope == t.envelope
    && u.requestDigest == t.requestDigest && u.createdAt == t.createdAt
    && u.expiresAt == t.expiresAt && u.executionDeadline == t.executionDeadline
    && t.leaseGeneration <= u.leaseGeneration
    && (Terminal(t.status) ==> u == t)
    && Remaining(u) <= Remaining(t)
    && (u.leaseGeneration == t.leaseGeneration && Held(u.status) ==>
          Held(t.status) && u.leaseOwner == t.leaseOwner && u.leaseTokenHash == t.leaseTokenHash)
  }

  lemma EvolvesStepDevice(t: Task, u: Task, now: Time)
    requires RowInv(t) && DeviceStep(t, u, now)
    ensures Evolves(t, u)
    ensures u.status != t.status ==> Remaining(u) < Remaining(t)
    ensures u.leaseGeneration <= t.leaseGeneration + 1
    ensures Held(u.status) && u.leaseGeneration > t.leaseGeneration ==> t.status.Queued? && u.status.Leased?
  {
  }

  lemma EvolvesStepHolder(t: Task, u: Task, now: Time)
    requires RowInv(t) && HolderStep(t, u, now)
    ensures Evolves(t, u)
    ensures u.status != t.status ==> Remaining(u) < Remaining(t)
    ensures u.leaseGeneration <= t.leaseGeneration + 1
    ensures Held(u.status) && u.leaseGeneration > t.leaseGeneration ==> t.status.Queued? && u.status.Leased?
  {
  }

  lemma EvolvesStep(t: Task, u: Task, now: Time)
    requires RowInv(t) && RowNext(t, u, now)
    ensures Evolves(t, u)
    ensures u.status != t.status ==> Remaining(u) < Remaining(t)
    ensures u.leaseGeneration <= t.leaseGeneration + 1
    ensures Held(u.status) && u.leaseGeneration > t.leaseGeneration ==> t.status.Queued? && u.status.Leased?
  {
    if u == t {
    } else if DeviceStep(t, u, now) {
      EvolvesStepDevice(t, u, now);
    } else if HolderStep(t, u, now) {
      EvolvesStepHolder(t, u, now);
    }
  }

  lemma EvolvesReflexive(t: Task)
    ensures Evolves(t, t)
  {
  }

  lemma EvolvesTransitive(t: Task, u: Task, v: Task)
    requires Evolves(t, u) && Evolves(u, v)
    ensures Evolves(t, v)
  {
  }

  /** Every status change a single transaction can make, and when. */
  lemma StatusTable(t: Task, u: Task, now: Time)
    requires RowInv(t) && RowNext(t, u, now) && u.status != t.status
    ensures t.status.Uploading? ==>
              || (u.status.Queued? && t.expiresAt > now)
              || (u.status.Expired? && t.expiresAt <= now)
              || u.status.Canceled?
    ensures t.status.Queued? ==>
              || (u.status.Leased? && t.expiresAt > now && t.nextAttemptAt <= now && u.attempt == t.attempt + 1)
              || (u.status.Expired? && t.expiresAt <= now)
              || u.status.Canceled?
    ensures Held(t.status) ==>
              || (t.status.Leased? && u.status.Running? && t.leaseUntil.value > now)
              || (u.status.Queued? && t.expiresAt > now && t.attempt < MAX_ATTEMPTS && u.attempt == t.attempt)
              || (u.status.Succeeded? && t.leaseUntil.value > now)
              || u.status.Failed? || u.status.Canceled?
    ensures !Terminal(t.status)
  {
  }

  // ---------- lease arithmetic ----------

  /** The lease never outlives the task, so the deadline test of `_check_lease` and the expiry
      test of `fail` decide nothing once the lease comparison has passed, and a retry is
      granted exactly when the Worker asks for one and attempts are left. */
  lemma LateTestsAreImplied(t: Task, lease: Lease, now: Time)
    requires RowInv(t) && Current(t, lease, now)
    ensures t.executionDeadline > now
    ensures forall retryable :: ShouldRetry(t, retryable, now) <==> retryable && t.attempt < MAX_ATTEMPTS
  {
  }

  /** A granted lease is current at the moment it is granted, whatever the clock read before. */
  lemma FreshLeaseIsCurrent(id: Id, t: Task, worker: Id, token: string, capability: Id, now: Time)
    requires RowInv(t) && Eligible(t, now)
    ensures Current(Grant(t, worker, Sha256(token), capability, now),
                    LeaseFor(id, t, worker, token, capability, now), now)
    ensures LeaseFor(id, t, worker, token, capability, now).leaseUntil <= t.expiresAt
  {
  }

  /** With a clock that has not gone back since the last write, a renewal never shortens a
      lease; the lease ends `LEASE_SECONDS` after the renewal or at the deadline. */
  lemma RenewalNeverShortens(t: Task, status: Status, now: Time)
    requires RowInv(t) && Held(t.status) && Held(status) && t.updatedAt <= now
    ensures Renew(t, status, now).leaseUntil.value >= t.leaseUntil.value
    ensures Renew(t, status, now).leaseUntil.value <= t.executionDeadline
    ensures Renew(t, status, now).leaseUntil.value == now + LEASE_SECONDS
            || Renew(t, status, now).leaseUntil.value == t.executionDeadline
  {
  }

  /** A failed attempt waits five seconds after the first lease and thirty after the second,
      and nobody can claim the task before that. The third delay of the table is never used:
      after the third lease there is no retry. */
  lemma RetryDelays(t: Task, error: WireError, retryable: bool, now: Time)
    requires RowInv(t) && LiveLease(t, now)
    ensures var u := GiveBack(t, error, retryable, now);
            && (u.status.Queued? <==> retryable && t.attempt < MAX_ATTEMPTS)
            && (u.status.Queued? ==>
                  && u.nextAttemptAt == now + (if t.attempt == 1 then 5.0 else 30.0)
                  && forall later | later < u.nextAttemptAt :: !Eligible(u, later))
            && (!u.status.Queued? ==> u.status.Failed?)
  {
  }

  // ---------- the sweep ----------

  /** The three WHERE clauses exclude one another, also on rows an earlier statement wrote. */
  lemma SweepGuardsDisjoint(t: Task, now: Time)
    ensures !(OverdueIdle(t, now) && LapsedRetry(t, now))
    ensures !(OverdueIdle(t, now) && LapsedFinal(t, now))
    ensures !(LapsedRetry(t, now) && LapsedFinal(t, now))
    ensures SweepRow(SweepRow(t, now), now) == SweepRow(t, now)
    ensures !LeaseLapsed(SweepRow(t, now), now)
  {
  }

  /** One sweep at or after a task's expiry ends it, whatever happened to it before. */
  lemma SweepEndsExpired(t: Task, now: Time)
    requires RowInv(t) && t.expiresAt <= now
    ensures Terminal(SweepRow(t, now).status)
  {
  }

  // ---------- reading a task back ----------

  /** The HTTP view of a task parses `error_json` with a schema that asks for a code, a message
      and a request id. */
  predicate Viewable(t: Task) {
    t.error.Some? ==> t.error.value.ErrorEnvelope?
  }

  /** A task stops being readable exactly when the sweep fails it. */
  lemma OnlyTheSweepBreaksTheView(t: Task, u: Task, now: Time)
    requires RowInv(t) && RowNext(t, u, now) && Viewable(t)
    ensures !Viewable(u) ==> LapsedFinal(t, now) && u == SweepRow(t, now) && u.status.Failed?
    ensures LapsedFinal(t, now) && u == SweepRow(t, now) ==> !Viewable(u)
  {
  }
}
