/** Whole runs: any number of devices, Workers, sweeps and cleanups, in any interleaving of
    their transactions, starting from an empty database. Nothing is assumed about clocks
    except where a lemma says so. */
module Runs {
  import opened Records
  import opened TaskTable
  import opened RowProtocol
  import opened Invariant

  /** `s[i]` is the database before the i-th transaction `ops[i]`. */
  ghost predicate Behavior(s: seq<Db>, ops: seq<Op>) {
    && |s| == |ops| + 1
    && s[0] == EMPTY
    && forall i | 0 <= i < |ops| :: Step(s[i], ops[i], s[i + 1])
  }

  ghost predicate Step(before: Db, op: Op, after: Db) {
    Legal(before, op) && after == Exec(before, op).db
  }

  lemma {:induction false} ReachableInv(s: seq<Db>, ops: seq<Op>, i: nat)
    requires Behavior(s, ops) && i < |s|
    ensures DbInv(s[i])
  {
    if i == 0 {
      EmptyInv();
    } else {
      ReachableInv(s, ops, i - 1);
      assert Step(s[i - 1], ops[i - 1], s[i]);
      InvStep(s[i - 1], ops[i - 1]);
    }
  }

  /** One transaction of a run, seen from one row. */
  lemma RowAt(s: seq<Db>, ops: seq<Op>, i: nat, id: Id)
    requires Behavior(s, ops) && i < |ops| && id in s[i].tasks
    ensures id in s[i + 1].tasks
    ensures RowInv(s[i].tasks[id]) && RowInv(s[i + 1].tasks[id])
    ensures RowNext(s[i].tasks[id], s[i + 1].tasks[id], Clock(ops[i]))
    ensures OpTime(ops[i]).None? ==> s[i + 1].tasks[id] == s[i].tasks[id]
    ensures Evolves(s[i].tasks[id], s[i + 1].tasks[id])
  {
    ReachableInv(s, ops, i);
    ReachableInv(s, ops, i + 1);
    assert Step(s[i], ops[i], s[i + 1]);
    Projection(s[i], ops[i], id);
    EvolvesStep(s[i].tasks[id], s[i + 1].tasks[id], Clock(ops[i]));
  }

  lemma RowEvolves(s: seq<Db>, ops: seq<Op>, i: nat, id: Id)
    requires Behavior(s, ops) && i < |ops| && id in s[i].tasks
    ensures id in s[i + 1].tasks && Evolves(s[i].tasks[id], s[i + 1].tasks[id])
  {
    RowAt(s, ops, i, id);
  }

  /** Rows are never deleted; a terminal row is never written again; the identity, request and
      expiry of a task never change; its generation never falls. */
  lemma {:induction false} RowsEvolve(s: seq<Db>, ops: seq<Op>, i: nat, j: nat, id: Id)
    requires Behavior(s, ops) && i <= j < |s| && id in s[i].tasks
    ensures id in s[j].tasks && Evolves(s[i].tasks[id], s[j].tasks[id])
    decreases j
  {
    if i < j {
      RowsEvolve(s, ops, i, j - 1, id);
      RowEvolves(s, ops, j - 1, id);
      EvolvesTransitive(s[i].tasks[id], s[j - 1].tasks[id], s[j].tasks[id]);
    } else {
      EvolvesReflexive(s[i].tasks[id]);
    }
  }

  // ---------- bounded life ----------

  /** How many transactions in `[i, j)` change the status of a task. */
  ghost function StatusChanges(s: seq<Db>, id: Id, i: nat, j: nat): nat
    requires i <= j < |s|
    decreases j
  {
    if i == j then 0
    else
      StatusChanges(s, id, i, j - 1)
      + if id in s[j - 1].tasks && id in s[j].tasks && s[j - 1].tasks[id].status != s[j].tasks[id].status
        then 1 else 0
  }

  /** A transaction that changes a task's status spends one of the changes it has left. */
  lemma ChangeSpends(s: seq<Db>, ops: seq<Op>, i: nat, id: Id)
    requires Behavior(s, ops) && i < |ops| && id in s[i].tasks
    ensures id in s[i + 1].tasks
    ensures Remaining(s[i + 1].tasks[id]) + (if s[i].tasks[id].status != s[i + 1].tasks[id].status then 1 else 0)
            <= Remaining(s[i].tasks[id])
  {
    RowAt(s, ops, i, id);
    EvolvesStep(s[i].tasks[id], s[i + 1].tasks[id], Clock(ops[i]));
  }

  lemma {:induction false} ChangesSpend(s: seq<Db>, ops: seq<Op>, i: nat, j: nat, id: Id)
    requires Behavior(s, ops) && i <= j < |s| && id in s[i].tasks
    ensures id in s[j].tasks
    ensures StatusChanges(s, id, i, j) + Remaining(s[j].tasks[id]) <= Remaining(s[i].tasks[id])
    decreases j
  {
    if i < j {
      ChangesSpend(s, ops, i, j - 1, id);
      ChangeSpends(s, ops, j - 1, id);
    }
  }

  /** No task changes its status more than ten times, in any run of any length. */
  lemma {:induction false} BoundedLife(s: seq<Db>, ops: seq<Op>, j: nat, id: Id)
    requires Behavior(s, ops) && j < |s|
    ensures StatusChanges(s, id, 0, j) <= 10
    ensures id !in s[j].tasks ==> StatusChanges(s, id, 0, j) == 0
    ensures id in s[j].tasks ==> StatusChanges(s, id, 0, j) + Remaining(s[j].tasks[id]) <= 10
  {
    if j > 0 {
      BoundedLife(s, ops, j - 1, id);
      if id in s[j - 1].tasks {
        ChangeSpends(s, ops, j - 1, id);
      } else if id in s[j].tasks {
        assert Step(s[j - 1], ops[j - 1], s[j]);
        NewRow(s[j - 1], ops[j - 1], id);
      }
    }
    if id in s[j].tasks {
      ReachableInv(s, ops, j);
      assert RowInv(s[j].tasks[id]);
    }
  }

  // ---------- leases ----------

  /** The i-th transaction of the run is a claim that handed out this lease. */
  ghost predicate Issued(s: seq<Db>, ops: seq<Op>, i: nat, lease: Lease)
    requires Behavior(s, ops)
  {
    && i < |ops|
    && ops[i].Claim?
    && Legal(s[i], ops[i])
    && Exec(s[i], ops[i]).reply == Granted(lease)
  }

  lemma IssuedRow(s: seq<Db>, ops: seq<Op>, i: nat, lease: Lease)
    requires Behavior(s, ops) && Issued(s, ops, i, lease)
    ensures lease.taskId in s[i].tasks && lease.taskId in s[i + 1].tasks
    ensures Eligible(s[i].tasks[lease.taskId], ops[i].now)
    ensures lease.generation == s[i].tasks[lease.taskId].leaseGeneration + 1
    ensures lease.generation == s[i + 1].tasks[lease.taskId].leaseGeneration
    ensures Accepts(s[i + 1], lease, ops[i].now)
    ensures lease.leaseUntil == MinTime(ops[i].now + LEASE_SECONDS, s[i].tasks[lease.taskId].expiresAt)
  {
    PickIsFirst(s[i], ops[i].capabilities, ops[i].window);
    assert Step(s[i], ops[i], s[i + 1]);
    ReachableInv(s, ops, i);
    assert RowInv(s[i].tasks[lease.taskId]);
  }

  /** Later leases of a task carry higher generations. */
  lemma GenerationsIncrease(s: seq<Db>, ops: seq<Op>, i: nat, j: nat, earlier: Lease, later: Lease)
    requires Behavior(s, ops) && i < j
    requires Issued(s, ops, i, earlier) && Issued(s, ops, j, later) && earlier.taskId == later.taskId
    ensures earlier.generation < later.generation
  {
    IssuedRow(s, ops, i, earlier);
    IssuedRow(s, ops, j, later);
    RowsEvolve(s, ops, i + 1, j, earlier.taskId);
  }

  /** Of all the leases a run has handed out for a task, the server accepts at most one in any
      state, even if the two are judged by different clocks. Uniqueness rests on the generation
      alone: tokens need not be distinct. */
  lemma AtMostOneLeaseAccepted(s: seq<Db>, ops: seq<Op>, i: nat, j: nat, a: Lease, b: Lease, m: nat,
                               nowA: Time, nowB: Time)
    requires Behavior(s, ops) && m < |s|
    requires Issued(s, ops, i, a) && Issued(s, ops, j, b) && a.taskId == b.taskId
    requires Accepts(s[m], a, nowA) && Accepts(s[m], b, nowB)
    ensures i == j && a == b
  {
    if i < j {
      GenerationsIncrease(s, ops, i, j, a, b);
    } else if j < i {
      GenerationsIncrease(s, ops, j, i, b, a);
    }
  }

  lemma RejectedStaysRejected(t: Task, u: Task, lease: Lease, now: Time, opTime: Time, later: Time)
    requires RowInv(t) && RowNext(t, u, opTime) && lease.generation <= t.leaseGeneration
    requires !Current(t, lease, now) && now <= opTime && now <= later
    ensures !Current(u, lease, later)
  {
  }

  lemma RejectedNext(s: seq<Db>, ops: seq<Op>, i: nat, lease: Lease, now: Time, later: Time)
    requires Behavior(s, ops) && i < |ops| && lease.taskId in s[i].tasks
    requires lease.generation <= s[i].tasks[lease.taskId].leaseGeneration
    requires !Accepts(s[i], lease, now) && now <= later
    requires OpTime(ops[i]).Some? ==> now <= OpTime(ops[i]).value
    ensures !Accepts(s[i + 1], lease, later)
  {
    var id := lease.taskId;
    ReachableInv(s, ops, i);
    AcceptsIsCurrent(s[i], lease, now);
    RowAt(s, ops, i, id);
    var opTime := if OpTime(ops[i]).Some? then Clock(ops[i]) else now;
    RejectedStaysRejected(s[i].tasks[id], s[i + 1].tasks[id], lease, now, opTime, later);
  }

  /** Fencing. Once the server has rejected a lease it handed out, it never accepts it again,
      whatever claims, renewals, sweeps and retries follow, provided no later transaction reads
      a clock earlier than the rejection did. */
  lemma {:induction false} Fencing(s: seq<Db>, ops: seq<Op>, k: nat, lease: Lease, i: nat, j: nat,
                                   now: Time, later: Time)
    requires Behavior(s, ops) && Issued(s, ops, k, lease) && k < i <= j < |s|
    requires !Accepts(s[i], lease, now) && now <= later
    requires forall m | i <= m < j && OpTime(ops[m]).Some? :: now <= OpTime(ops[m]).value
    ensures !Accepts(s[j], lease, later)
    decreases j
  {
    IssuedRow(s, ops, k, lease);
    if i == j {
      RowsEvolve(s, ops, k + 1, j, lease.taskId);
      ReachableInv(s, ops, j);
      AcceptsIsCurrent(s[j], lease, now);
    } else {
      Fencing(s, ops, k, lease, i, j - 1, now, now);
      RowsEvolve(s, ops, k + 1, j - 1, lease.taskId);
      RejectedNext(s, ops, j - 1, lease, now, later);
    }
  }

  // ---------- which rejections can be undone ----------

  /** The row still carries the lease: every comparison of `_check_lease` but those with a time. */
  predicate Carries(t: Task, lease: Lease) {
    && t.owner == lease.ownerId
    && t.leaseOwner == Some(lease.workerId)
    && t.leaseGeneration == lease.generation
    && t.leaseTokenHash == Some(Sha256(lease.token))
    && Held(t.status)
  }

  lemma AcceptsIffCarries(db: Db, lease: Lease, now: Time)
    requires DbInv(db) && lease.taskId in db.tasks
    ensures var t := db.tasks[lease.taskId];
            Accepts(db, lease, now) <==> Carries(t, lease) && t.leaseUntil.Some? && now < t.leaseUntil.value
    ensures var t := db.tasks[lease.taskId];
            Carries(t, lease) ==> t.leaseUntil.Some? && t.leaseUntil.value <= t.executionDeadline
  {
    assert RowInv(db.tasks[lease.taskId]);
  }

  /** A row that carries a lease of no newer generation after any evolution carried it before. */
  lemma CarriedBefore(t: Task, u: Task, lease: Lease)
    requires Evolves(t, u) && lease.generation <= t.leaseGeneration && Carries(u, lease)
    ensures Carries(t, lease)
  {
  }

  /** A heartbeat that reads its clock at `early`, while the lease is good. */
  lemma RenewedUntil(db: Db, lease: Lease, early: Time)
    requires DbInv(db) && lease.taskId in db.tasks && Accepts(db, lease, early)
    ensures var after := Exec(db, Heartbeat(lease, early)).db; var t := db.tasks[lease.taskId];
            && lease.taskId in after.tasks
            && Carries(after.tasks[lease.taskId], lease)
            && after.tasks[lease.taskId].executionDeadline == t.executionDeadline
            && after.tasks[lease.taskId].leaseUntil == Some(LeaseEnd(t, early))
  {
  }

  /** How far one step can move the end of a lease that it finds and leaves on a row. */
  lemma OneStepReaches(t: Task, u: Task, lease: Lease, opTime: Time, now: Time)
    requires RowInv(t) && RowNext(t, u, opTime) && lease.generation <= t.leaseGeneration
    requires Carries(u, lease) && u.leaseUntil.Some? && now < u.leaseUntil.value
    ensures Carries(t, lease) && t.leaseUntil.Some? && now < t.executionDeadline
    ensures now < t.leaseUntil.value + LEASE_SECONDS
  {
    EvolvesStep(t, u, opTime);
    CarriedBefore(t, u, lease);
  }

  lemma NotUndoneLater(db: Db, op: Op, lease: Lease, now: Time)
    requires DbInv(db) && Legal(db, op) && lease.taskId in db.tasks
    requires lease.generation <= db.tasks[lease.taskId].leaseGeneration
    requires Accepts(Exec(db, op).db, lease, now)
    ensures var t := db.tasks[lease.taskId];
            && Carries(t, lease) && t.leaseUntil.Some?
            && now < t.leaseUntil.value + LEASE_SECONDS && now < t.executionDeadline
  {
    InvStep(db, op);
    Projection(db, op, lease.taskId);
    AcceptsIffCarries(Exec(db, op).db, lease, now);
    OneStepReaches(db.tasks[lease.taskId], Exec(db, op).db.tasks[lease.taskId], lease, Clock(op), now);
  }

  lemma UndoneByHeartbeat(db: Db, lease: Lease, now: Time) returns (op: Op)
    requires DbInv(db) && lease.taskId in db.tasks && Carries(db.tasks[lease.taskId], lease)
    requires var t := db.tasks[lease.taskId];
             t.leaseUntil.Some? && now < t.leaseUntil.value + LEASE_SECONDS && now < t.executionDeadline
    ensures Legal(db, op) && Accepts(Exec(db, op).db, lease, now)
  {
    var until := db.tasks[lease.taskId].leaseUntil.value;
    var reach := now - LEASE_SECONDS;
    var early := if reach < until - 1.0 then until - 1.0 else (reach + until) / 2.0;
    AcceptsIffCarries(db, lease, early);
    RenewedUntil(db, lease, early);
    op := Heartbeat(lease, early);
    InvStep(db, op);
    AcceptsIffCarries(Exec(db, op).db, lease, now);
  }

  /** Exactly which rejections the next transaction can undo, if it may read any clock: those of a
      lease that its row still carries, less than `LEASE_SECONDS` after its end and before the
      deadline. */
  lemma UndoableIff(db: Db, lease: Lease, now: Time)
    requires DbInv(db) && lease.taskId in db.tasks
    requires lease.generation <= db.tasks[lease.taskId].leaseGeneration && !Accepts(db, lease, now)
    ensures var t := db.tasks[lease.taskId];
            (exists op :: Legal(db, op) && Accepts(Exec(db, op).db, lease, now))
            <==> && Carries(t, lease) && t.leaseUntil.Some?
                 && now < t.leaseUntil.value + LEASE_SECONDS && now < t.executionDeadline
  {
    if op :| Legal(db, op) && Accepts(Exec(db, op).db, lease, now) {
      NotUndoneLater(db, op, lease, now);
    }
    var t := db.tasks[lease.taskId];
    if Carries(t, lease) && t.leaseUntil.Some? && now < t.leaseUntil.value + LEASE_SECONDS && now < t.executionDeadline {
      var op := UndoneByHeartbeat(db, lease, now);
    }
  }

  /** A run and a longer one that begins with it. */
  ghost predicate Extends(s: seq<Db>, ops: seq<Op>, s': seq<Db>, ops': seq<Op>) {
    && Behavior(s, ops) && Behavior(s', ops')
    && |ops| <= |ops'| && s'[..|s|] == s && ops'[..|ops|] == ops
  }

  lemma Extended(s: seq<Db>, ops: seq<Op>, op: Op) returns (s': seq<Db>, ops': seq<Op>)
    requires Behavior(s, ops) && Legal(s[|ops|], op)
    ensures Extends(s, ops, s', ops')
    ensures ops' == ops + [op] && s' == s + [Exec(s[|ops|], op).db]
  {
    s', ops' := s + [Exec(s[|ops|], op).db], ops + [op];
    forall i | 0 <= i < |ops'|
      ensures Step(s'[i], ops'[i], s'[i + 1])
    {
      if i < |ops| {
        assert Step(s[i], ops[i], s[i + 1]);
      }
    }
  }

  lemma ExtendsTransitive(s: seq<Db>, ops: seq<Op>, t: seq<Db>, pps: seq<Op>, u: seq<Db>, qps: seq<Op>)
    requires Extends(s, ops, t, pps) && Extends(t, pps, u, qps)
    ensures Extends(s, ops, u, qps)
  {
    assert u[..|s|] == u[..|t|][..|s|] && qps[..|ops|] == qps[..|pps|][..|ops|];
  }

  /** Each heartbeat reads its clock a second before the lease runs out, and adds 599. */
  lemma {:induction false} KeptAlive(s: seq<Db>, ops: seq<Op>, lease: Lease, now: Time, n: nat)
    returns (s': seq<Db>, ops': seq<Op>)
    requires Behavior(s, ops) && lease.taskId in s[|ops|].tasks && Carries(s[|ops|].tasks[lease.taskId], lease)
    requires var t := s[|ops|].tasks[lease.taskId];
             t.leaseUntil.Some? && now < t.executionDeadline && now < t.leaseUntil.value + 599.0 * n as real
    ensures Extends(s, ops, s', ops') && Accepts(s'[|ops'|], lease, now)
    decreases n
  {
    var db := s[|ops|];
    var until := db.tasks[lease.taskId].leaseUntil.value;
    ReachableInv(s, ops, |ops|);
    if now < until {
      AcceptsIffCarries(db, lease, now);
      s', ops' := s, ops;
    } else {
      AcceptsIffCarries(db, lease, until - 1.0);
      RenewedUntil(db, lease, until - 1.0);
      var s1, ops1 := Extended(s, ops, Heartbeat(lease, until - 1.0));
      s', ops' := KeptAlive(s1, ops1, lease, now, n - 1);
      ExtendsTransitive(s, ops, s1, ops1, s', ops');
    }
  }

  lemma CarriedAlong(s: seq<Db>, ops: seq<Op>, s': seq<Db>, ops': seq<Op>, lease: Lease, now: Time)
    requires Extends(s, ops, s', ops') && lease.taskId in s[|ops|].tasks
    requires lease.generation <= s[|ops|].tasks[lease.taskId].leaseGeneration
    requires Accepts(s'[|ops'|], lease, now)
    ensures Carries(s[|ops|].tasks[lease.taskId], lease) && now < s[|ops|].tasks[lease.taskId].executionDeadline
  {
    assert s'[..|s|][|ops|] == s'[|ops|];
    RowsEvolve(s', ops', |ops|, |ops'|, lease.taskId);
    ReachableInv(s', ops', |ops'|);
    AcceptsIffCarries(s'[|ops'|], lease, now);
    CarriedBefore(s[|ops|].tasks[lease.taskId], s'[|ops'|].tasks[lease.taskId], lease);
  }

  /** Exactly which rejections are final, whatever clocks later transactions read and however many
      there are: no run goes on to accept an issued lease at the time `now` if and only if its row
      no longer carries it, or the deadline has been reached at that time. */
  lemma FinalIffEndedOrPastDeadline(s: seq<Db>, ops: seq<Op>, k: nat, lease: Lease, now: Time)
    requires Behavior(s, ops) && Issued(s, ops, k, lease)
    ensures lease.taskId in s[|ops|].tasks
    ensures var t := s[|ops|].tasks[lease.taskId];
            (forall s', ops' | Extends(s, ops, s', ops') :: !Accepts(s'[|ops'|], lease, now))
            <==> !Carries(t, lease) || t.executionDeadline <= now
  {
    IssuedRow(s, ops, k, lease);
    RowsEvolve(s, ops, k + 1, |ops|, lease.taskId);
    ReachableInv(s, ops, |ops|);
    var t := s[|ops|].tasks[lease.taskId];
    forall s', ops' | Extends(s, ops, s', ops') && Accepts(s'[|ops'|], lease, now)
      ensures Carries(t, lease) && now < t.executionDeadline
    {
      CarriedAlong(s, ops, s', ops', lease, now);
    }
    if Carries(t, lease) && now < t.executionDeadline {
      AcceptsIffCarries(s[|ops|], lease, now);
      var n := Heartbeats(t.leaseUntil.value, now);
      var s', ops' := KeptAlive(s, ops, lease, now, n);
    }
  }

  lemma Heartbeats(until: Time, now: Time) returns (n: nat)
    ensures now < until + 599.0 * n as real
  {
    if now < until {
      n := 0;
    } else {
      n := ((now - until) / 599.0).Floor + 1;
    }
  }

  lemma AcceptsIsCurrent(db: Db, lease: Lease, now: Time)
    requires DbInv(db) && lease.taskId in db.tasks
    ensures Accepts(db, lease, now) <==> Current(db.tasks[lease.taskId], lease, now)
  {
  }

  /** The clock assumption is needed: a renewal that reads a clock from before the lease ran out
      revives it for times at which it had already been rejected. */
  lemma ClockGoingBackRevives(t: Task, lease: Lease, early: Time, late: Time)
    requires RowInv(t) && Current(t, lease, early)
    requires t.leaseUntil.value <= late < LeaseEnd(t, early)
    ensures !Current(t, lease, late) && Current(Renew(t, t.status, early), lease, late)
  {
  }

  /** Times read do not decrease in commit order. */
  ghost predicate SteadyClock(ops: seq<Op>) {
    forall i, j | 0 <= i < j < |ops| && OpTime(ops[i]).Some? && OpTime(ops[j]).Some?
      :: OpTime(ops[i]).value <= OpTime(ops[j]).value
  }

  lemma {:induction false} WrittenInThePast(s: seq<Db>, ops: seq<Op>, i: nat, id: Id, now: Time)
    requires Behavior(s, ops) && i < |s| && id in s[i].tasks
    requires forall m | 0 <= m < i && OpTime(ops[m]).Some? :: OpTime(ops[m]).value <= now
    ensures s[i].tasks[id].updatedAt <= now
  {
    if i > 0 {
      if id in s[i - 1].tasks {
        WrittenInThePast(s, ops, i - 1, id, now);
        RowAt(s, ops, i - 1, id);
        StampedByStep(s[i - 1].tasks[id], s[i].tasks[id], Clock(ops[i - 1]));
      } else {
        assert Step(s[i - 1], ops[i - 1], s[i]);
        NewRow(s[i - 1], ops[i - 1], id);
      }
    }
  }

  lemma StampedByStep(t: Task, u: Task, now: Time)
    requires RowNext(t, u, now)
    ensures u.updatedAt == t.updatedAt || u.updatedAt == now
  {
  }

  /** With a steady clock neither a start nor a heartbeat ever shortens the lease it renews. */
  lemma RenewalsNeverShorten(s: seq<Db>, ops: seq<Op>, i: nat)
    requires Behavior(s, ops) && SteadyClock(ops) && i < |ops| && (ops[i].Start? || ops[i].Heartbeat?)
    requires Accepts(s[i], ops[i].lease, ops[i].now)
    ensures var id := ops[i].lease.taskId;
            && id in s[i + 1].tasks && s[i].tasks[id].leaseUntil.Some? && s[i + 1].tasks[id].leaseUntil.Some?
            && s[i].tasks[id].leaseUntil.value <= s[i + 1].tasks[id].leaseUntil.value <= s[i].tasks[id].expiresAt
  {
    var id := ops[i].lease.taskId;
    ReachableInv(s, ops, i);
    WrittenInThePast(s, ops, i, id, ops[i].now);
    assert Step(s[i], ops[i], s[i + 1]) && RowInv(s[i].tasks[id]);
    RenewalNeverShortens(s[i].tasks[id], if ops[i].Start? then Running else s[i].tasks[id].status, ops[i].now);
  }

  /** A superseded lease, or one whose generation has ended, is rejected for ever with no
      assumption about clocks at all. */
  lemma EndedLeaseStaysEnded(s: seq<Db>, ops: seq<Op>, k: nat, lease: Lease, i: nat, j: nat, now: Time)
    requires Behavior(s, ops) && Issued(s, ops, k, lease) && k < i <= j < |s|
    requires lease.taskId in s[i].tasks
    requires var t := s[i].tasks[lease.taskId]; t.leaseGeneration != lease.generation || !Held(t.status)
    ensures !Accepts(s[j], lease, now)
  {
    IssuedRow(s, ops, k, lease);
    RowsEvolve(s, ops, k + 1, i, lease.taskId);
    RowsEvolve(s, ops, i, j, lease.taskId);
  }

  /** Attempts count leases: a task's attempt number, its generation and the `leased` events in
      its log agree, no task is ever leased more than three times, and a queued task always has
      an attempt left, although the claim does not look. */
  lemma AttemptsAreBounded(s: seq<Db>, ops: seq<Op>, i: nat, id: Id)
    requires Behavior(s, ops) && i < |s| && id in s[i].tasks
    ensures var t := s[i].tasks[id];
            && t.attempt == t.leaseGeneration == Count(s[i].events, id, EventLeased)
            && t.attempt <= MAX_ATTEMPTS
            && (t.status.Queued? ==> t.attempt < MAX_ATTEMPTS)
    ensures Count(s[i].events, id, EventCreated) == 1
  {
    ReachableInv(s, ops, i);
    assert RowInv(s[i].tasks[id]) && LogInv(s[i], id);
  }

  // ---------- results ----------

  /** The i-th transaction published this task's result. */
  ghost predicate PublishedAt(s: seq<Db>, ops: seq<Op>, i: nat, id: Id)
    requires Behavior(s, ops)
  {
    i < |ops| && ops[i].Publish? && ops[i].lease.taskId == id && Accepts(s[i], ops[i].lease, ops[i].now)
  }

  lemma PublishedRow(s: seq<Db>, ops: seq<Op>, i: nat, id: Id)
    requires Behavior(s, ops) && PublishedAt(s, ops, i, id)
    ensures id in s[i + 1].tasks && s[i + 1].tasks[id].status.Succeeded?
    ensures s[i + 1].tasks[id].result == Some(ops[i].result)
    ensures s[i + 1].tasks[id].resultExpiresAt == Some(ops[i].now + RESULT_RETENTION_SECONDS)
    ensures s[i + 1].tasks[id].leaseGeneration == ops[i].lease.generation
  {
  }

  /** A published result is final: from then on the whole row stays as it is, no lease of any
      Worker is accepted, and the publisher held the last lease the task will ever get. */
  lemma PublishedIsFinal(s: seq<Db>, ops: seq<Op>, i: nat, id: Id, j: nat)
    requires Behavior(s, ops) && PublishedAt(s, ops, i, id) && i < j < |s|
    ensures id in s[j].tasks && s[j].tasks[id] == s[i + 1].tasks[id]
    ensures forall lease: Lease, now | lease.taskId == id :: !Accepts(s[j], lease, now)
    ensures forall k, lease | 0 <= k < |ops| && Issued(s, ops, k, lease) && lease.taskId == id
              :: k < i && lease.generation <= ops[i].lease.generation
  {
    PublishedRow(s, ops, i, id);
    RowsEvolve(s, ops, i + 1, j, id);
    forall k, lease | 0 <= k < |ops| && Issued(s, ops, k, lease) && lease.taskId == id
      ensures k < i && lease.generation <= ops[i].lease.generation
    {
      IssuedRow(s, ops, k, lease);
      if i < k {
        RowsEvolve(s, ops, i + 1, k, id);
      } else if k < i {
        RowsEvolve(s, ops, k + 1, i + 1, id);
      }
    }
  }

  /** At most one publication per task succeeds, in any run. */
  lemma OneResult(s: seq<Db>, ops: seq<Op>, i: nat, j: nat, id: Id)
    requires Behavior(s, ops) && PublishedAt(s, ops, i, id) && PublishedAt(s, ops, j, id)
    ensures i == j
  {
    if i < j {
      PublishedIsFinal(s, ops, i, id, j);
    } else if j < i {
      PublishedIsFinal(s, ops, j, id, i);
    }
  }

  /** A Succeeded row always goes back to an accepted publication, whose result it still holds. */
  lemma {:induction false} SuccessWasPublished(s: seq<Db>, ops: seq<Op>, j: nat, id: Id)
    requires Behavior(s, ops) && j < |s| && id in s[j].tasks && s[j].tasks[id].status.Succeeded?
    ensures exists i | 0 <= i < j :: PublishedAt(s, ops, i, id) && s[j].tasks[id].result == Some(ops[i].result)
  {
    assert j > 0 && Step(s[j - 1], ops[j - 1], s[j]);
    if id in s[j - 1].tasks && s[j - 1].tasks[id].status.Succeeded? {
      SuccessWasPublished(s, ops, j - 1, id);
      RowAt(s, ops, j - 1, id);
    } else {
      SuccessStep(s[j - 1], ops[j - 1], id);
      assert PublishedAt(s, ops, j - 1, id);
    }
  }

  lemma SuccessStep(db: Db, op: Op, id: Id)
    requires Legal(db, op) && id in Exec(db, op).db.tasks && Exec(db, op).db.tasks[id].status.Succeeded?
    requires id in db.tasks ==> !db.tasks[id].status.Succeeded?
    ensures op.Publish? && op.lease.taskId == id && Accepts(db, op.lease, op.now)
    ensures Exec(db, op).db.tasks[id].result == Some(op.result)
  {
  }

  // ---------- lost replies ----------

  ghost predicate LeaseBound(op: Op) {
    op.Start? || op.Heartbeat? || op.Fail? || op.Publish?
  }

  /** Once a task is over, however it ended, a Worker that missed the reply may repeat itself:
      every lease-bound call is refused and changes nothing. */
  lemma LateCallsAreHarmless(s: seq<Db>, ops: seq<Op>, i: nat, j: nat, id: Id)
    requires Behavior(s, ops) && i <= j < |ops| && id in s[i].tasks && Terminal(s[i].tasks[id].status)
    requires LeaseBound(ops[j]) && ops[j].lease.taskId == id
    ensures s[j + 1] == s[j] && Exec(s[j], ops[j]).reply == Rejected(LeaseConflict)
    ensures s[j].tasks[id] == s[i].tasks[id]
  {
    RowsEvolve(s, ops, i, j, id);
    assert Step(s[j], ops[j], s[j + 1]);
  }

  /** Idempotent creation. After a create has been answered with a task, every later create with
      the same owner, device and key finds that same task and changes nothing; it is answered
      with the task as it stands if the request is the same, and refused if it is not. */
  lemma CreateIsIdempotent(s: seq<Db>, ops: seq<Op>, i: nat, j: nat)
    requires Behavior(s, ops) && i < j < |ops|
    requires ops[i].Create? && Exec(s[i], ops[i]).reply.Row?
    requires ops[j].Create? && ops[j].owner == ops[i].owner && ops[j].device == ops[i].device
    requires ops[j].envelope.idempotencyKey == ops[i].envelope.idempotencyKey
    ensures var key := ops[i].envelope.idempotencyKey;
            && KeyTaken(s[i + 1], ops[i].owner, ops[i].device, key)
            && KeyTaken(s[j], ops[i].owner, ops[i].device, key)
            && var id := KeyHolder(s[i + 1], ops[i].owner, ops[i].device, key);
            && KeyHolder(s[j], ops[i].owner, ops[i].device, key) == id
            && s[j + 1] == s[j]
            && Exec(s[j], ops[j]).reply ==
               if ops[j].digest == ops[i].digest then Row(s[j].tasks[id]) else Rejected(Conflict)
  {
    var key := ops[i].envelope.idempotencyKey;
    assert Step(s[i], ops[i], s[i + 1]);
    assert Step(s[j], ops[j], s[j + 1]);
    CreateHolds(s[i], ops[i]);
    var id := KeyHolder(s[i + 1], ops[i].owner, ops[i].device, key);
    RowsEvolve(s, ops, i + 1, j, id);
    assert SameKey(s[j].tasks[id], ops[i].owner, ops[i].device, key);
    ReachableInv(s, ops, j);
    assert KeyHolder(s[j], ops[i].owner, ops[i].device, key) == id;
  }

  lemma CreateHolds(db: Db, op: Op)
    requires op.Create? && Exec(db, op).reply.Row?
    ensures var after := Exec(db, op).db; var key := op.envelope.idempotencyKey;
            KeyTaken(after, op.owner, op.device, key)
    ensures var after := Exec(db, op).db;
            var id := KeyHolder(after, op.owner, op.device, op.envelope.idempotencyKey);
            after.tasks[id].requestDigest == op.digest
  {
    var after := Exec(db, op).db;
    if !KeyTaken(db, op.owner, op.device, op.envelope.idempotencyKey) {
      assert SameKey(after.tasks[op.freshId], op.owner, op.device, op.envelope.idempotencyKey);
    }
  }

  // ---------- the sweep ----------

  /** One sweep with a clock at or past a task's expiry ends the task, whatever its history of
      leases, renewals and retries, and whatever clocks those read. */
  lemma ForcedTermination(s: seq<Db>, ops: seq<Op>, i: nat, id: Id, j: nat)
    requires Behavior(s, ops) && i < j < |s| && id in s[i].tasks
    requires ops[i].Sweep? && s[i].tasks[id].expiresAt <= ops[i].now
    ensures id in s[j].tasks && Terminal(s[j].tasks[id].status)
  {
    ReachableInv(s, ops, i);
    assert RowInv(s[i].tasks[id]);
    assert Step(s[i], ops[i], s[i + 1]);
    SweepEndsExpired(s[i].tasks[id], ops[i].now);
    RowsEvolve(s, ops, i + 1, j, id);
  }

  /** After a sweep no lease that has run out is still held, and a second sweep at the same
      moment changes nothing and reports nothing. */
  lemma SweepIsIdempotent(db: Db, now: Time)
    ensures var after := Exec(db, Sweep(now)).db;
            && (forall id <- after.tasks :: !LeaseLapsed(after.tasks[id], now))
            && Exec(after, Sweep(now)) == Outcome(after, Swept(0))
  {
    var after := Exec(db, Sweep(now)).db;
    forall id <- after.tasks
      ensures !LeaseLapsed(after.tasks[id], now) && SweepRow(after.tasks[id], now) == after.tasks[id]
      ensures forall stmt :: !Selects(stmt, after.tasks[id], now)
    {
      SweepGuardsDisjoint(db.tasks[id], now);
    }
    assert Exec(after, Sweep(now)).db.tasks == after.tasks;
    assert forall stmt :: Hits(after.tasks, stmt, now) == {};
  }
}
