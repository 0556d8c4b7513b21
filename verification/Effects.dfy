/** What each transaction means for those who call it, said in the columns of the rows and the
    numbers of the source, without the functions that `TaskTable` computes it with. */
module Effects {
  import opened Records
  import opened TaskTable
  import opened RowProtocol
  import opened Invariant
  import opened Runs
  import opened Claims

  // ---------- what stays ----------

  /** Nothing but one task row is touched. */
  ghost predicate OnlyRow(before: Db, after: Db, id: Id) {
    && after.artifacts == before.artifacts && after.events == before.events
    && after.tasks.Keys == before.tasks.Keys
    && forall other <- before.tasks | other != id :: after.tasks[other] == before.tasks[other]
  }

  predicate SameRequest(t: Task, u: Task) {
    && u.owner == t.owner && u.device == t.device && u.envelope == t.envelope
    && u.requestDigest == t.requestDigest && u.createdAt == t.createdAt
    && u.expiresAt == t.expiresAt && u.executionDeadline == t.executionDeadline
  }

  predicate SameAttempt(t: Task, u: Task) {
    u.attempt == t.attempt && u.leaseGeneration == t.leaseGeneration && u.boundCapability == t.boundCapability
  }

  predicate SameResult(t: Task, u: Task) {
    u.result == t.result && u.resultAvailable == t.resultAvailable && u.resultExpiresAt == t.resultExpiresAt
  }

  predicate Unheld(u: Task) {
    u.leaseOwner == None && u.leaseTokenHash == None && u.leaseUntil == None
  }

  /** The holder, and nothing of the request, the attempt or the result, has changed. */
  predicate SameHolder(t: Task, u: Task) {
    && SameRequest(t, u) && SameAttempt(t, u) && SameResult(t, u)
    && u.leaseOwner == t.leaseOwner && u.leaseTokenHash == t.leaseTokenHash
    && u.nextAttemptAt == t.nextAttemptAt && u.error == t.error
  }

  /** Ten minutes from now, but not past the deadline. */
  predicate EndsInTime(until: Time, now: Time, deadline: Time) {
    && (now + 600.0 <= deadline ==> until == now + 600.0)
    && (now + 600.0 > deadline ==> until == deadline)
  }

  // ---------- creating ----------

  /** A create with an unused key makes one new task, with nothing in it but the request. */
  lemma CreateMakesTask(db: Db, op: Op)
    requires op.Create? && op.freshId !in db.tasks
    requires forall id <- db.tasks ::
               || db.tasks[id].owner != op.owner || db.tasks[id].device != op.device
               || db.tasks[id].envelope.idempotencyKey != op.envelope.idempotencyKey
    ensures var out := Exec(db, op);
            && op.freshId in out.db.tasks
            && var u := out.db.tasks[op.freshId];
            && out.reply == Row(u) && out.db.tasks == db.tasks[op.freshId := u]
            && out.db.artifacts == db.artifacts
            && out.db.events == db.events + [Event(op.freshId, EventCreated, op.now)]
            && u.owner == op.owner && u.device == op.device && u.envelope == op.envelope
            && u.requestDigest == op.digest && u.status.Uploading?
            && u.expiresAt == u.executionDeadline == op.now + op.envelope.ttlSeconds as real
            && u.createdAt == u.updatedAt == u.nextAttemptAt == op.now
            && u.attempt == 0 && u.leaseGeneration == 0 && u.boundCapability == None && Unheld(u)
            && u.error == None && u.result == None && !u.resultAvailable && u.resultExpiresAt == None
  {
  }

  /** A create with a used key is answered from the row that has it, and changes nothing. */
  lemma CreateFindsTask(db: Db, op: Op, id: Id)
    requires DbInv(db) && op.Create? && id in db.tasks
    requires db.tasks[id].owner == op.owner && db.tasks[id].device == op.device
    requires db.tasks[id].envelope.idempotencyKey == op.envelope.idempotencyKey
    ensures db.tasks[id].requestDigest == op.digest ==> Exec(db, op) == Outcome(db, Row(db.tasks[id]))
    ensures db.tasks[id].requestDigest != op.digest ==> Exec(db, op) == Outcome(db, Rejected(Conflict))
  {
    assert SameKey(db.tasks[id], op.owner, op.device, op.envelope.idempotencyKey);
    assert KeyHolder(db, op.owner, op.device, op.envelope.idempotencyKey) == id;
  }

  // ---------- finishing an upload ----------

  /** The row under which the upload's file is recorded. */
  predicate DescribesUpload(a: Artifact, op: Op, key: Id, expiresAt: Time)
    requires op.Finalize? && op.ref.sizeBytes.Some?
  {
    && a.taskId == op.id && a.sizeBytes == op.ref.sizeBytes.value && a.published && a.expiresAt == expiresAt
    && (op.path.Some? && op.path.value != "" ==> a.path == op.path.value)
    && (op.path.None? || op.path.value == "" ==> a.path == key)
  }

  /** The upload names its own identifier, or a fresh one is made. */
  predicate Names(key: Id, op: Op)
    requires op.Finalize?
  {
    && (op.ref.artifactId.Some? && op.ref.artifactId.value != "" ==> key == op.ref.artifactId.value)
    && (op.ref.artifactId.None? || op.ref.artifactId.value == "" ==> key == op.freshId)
  }

  /** When a finished upload puts its task into the queue. */
  ghost predicate UploadCounts(db: Db, op: Op)
    requires op.Finalize?
  {
    && op.ref.sizeBytes.Some? && op.ref.sha256.Some? && op.id in db.tasks
    && db.tasks[op.id].requestDigest == op.digest
    && db.tasks[op.id].status.Uploading? && db.tasks[op.id].expiresAt > op.now
  }

  lemma UploadEnqueues(db: Db, op: Op, key: Id, path: string)
    requires op.Finalize? && UploadCounts(db, op) && Names(key, op)
    requires path == if op.path.Some? && op.path.value != "" then op.path.value else key
    requires key !in db.artifacts && forall a <- db.artifacts :: db.artifacts[a].path != path
    ensures var out := Exec(db, op); var t := db.tasks[op.id];
            && op.id in out.db.tasks && key in out.db.artifacts
            && var u := out.db.tasks[op.id];
            && out.reply == Row(u) && out.db.tasks == db.tasks[op.id := u]
            && u == t.(status := Queued, updatedAt := op.now)
            && out.db.artifacts == db.artifacts[key := out.db.artifacts[key]]
            && DescribesUpload(out.db.artifacts[key], op, key, t.expiresAt)
            && out.db.events == db.events + [Event(op.id, EventQueued, op.now)]
  {
  }

  /** Every other upload, in the order in which the reasons are looked for. */
  lemma UploadRefused(db: Db, op: Op)
    requires op.Finalize? && !UploadCounts(db, op)
    ensures var out := Exec(db, op);
            if op.ref.sizeBytes.None? || op.ref.sha256.None? then out == Outcome(db, Rejected(Conflict))
            else if op.id !in db.tasks then out == Outcome(db, Rejected(NotFound))
            else if db.tasks[op.id].requestDigest != op.digest then out == Outcome(db, Rejected(Conflict))
            else if !db.tasks[op.id].status.Uploading? then out == Outcome(db, Row(db.tasks[op.id]))
            else
              && out.reply == Rejected(Conflict) && OnlyRow(db, out.db, op.id)
              && out.db.tasks[op.id] == db.tasks[op.id].(status := Expired, updatedAt := op.now)
  {
  }

  /** An identifier or a path that is in use is refused by the schema, and nothing is committed. */
  lemma UploadCollides(db: Db, op: Op, key: Id, path: string)
    requires op.Finalize? && UploadCounts(db, op) && Names(key, op)
    requires path == if op.path.Some? && op.path.value != "" then op.path.value else key
    requires key in db.artifacts || exists a <- db.artifacts :: db.artifacts[a].path == path
    ensures Exec(db, op) == Outcome(db, Rejected(IntegrityViolation))
  {
  }

  // ---------- claiming ----------

  /** A capability serves a request: the same kind of task, the provider, service and model that the
      request names, every format it asks for, and, if the capability lists formats at all, every
      kind of input. */
  predicate Serves(c: Capability, e: Envelope) {
    && c.taskType == e.taskType
    && (e.needs.provider.Some? && e.needs.provider.value != "" ==> c.provider == e.needs.provider.value)
    && (e.needs.serviceId.Some? && e.needs.serviceId.value != "" ==>
          c.serviceId.Some? && c.serviceId.value == e.needs.serviceId.value)
    && (e.needs.model.Some? && e.needs.model.value != "" ==>
          exists i :: 0 <= i < |c.models| && c.models[i] == e.needs.model.value)
    && (forall i | 0 <= i < |e.needs.formats| :: e.needs.formats[i] in c.formats)
    && (|c.formats| > 0 ==> forall i | 0 <= i < |e.inputMimes| :: e.inputMimes[i] in c.formats)
  }

  lemma FitsIffServes(t: Task, c: Capability)
    ensures Fits(t, c) <==> Serves(c, t.envelope)
  {
    var offered := set f | f in c.formats;
    assert forall f :: f in offered <==> f in c.formats;
    assert forall f <- t.envelope.needs.formats :: exists i :: 0 <= i < |t.envelope.needs.formats| && t.envelope.needs.formats[i] == f;
    assert forall m <- t.envelope.inputMimes :: exists i :: 0 <= i < |t.envelope.inputMimes| && t.envelope.inputMimes[i] == m;
  }

  /** The capability chosen is the first of the list that serves the request. */
  lemma {:induction false} FirstThatServes(t: Task, capabilities: seq<Capability>)
    ensures FirstFit(t, capabilities).None? <==> forall k | 0 <= k < |capabilities| :: !Serves(capabilities[k], t.envelope)
    ensures FirstFit(t, capabilities).Some? ==>
              exists k | 0 <= k < |capabilities| ::
                && capabilities[k] == FirstFit(t, capabilities).value
                && Serves(capabilities[k], t.envelope)
                && forall j | 0 <= j < k :: !Serves(capabilities[j], t.envelope)
  {
    if capabilities != [] {
      var rest := capabilities[1..];
      FitsIffServes(t, capabilities[0]);
      FirstThatServes(t, rest);
      assert forall k | 1 <= k < |capabilities| :: capabilities[k] == rest[k - 1];
      if Fits(t, capabilities[0]) {
        assert Serves(capabilities[0], t.envelope);
      } else if FirstFit(t, rest).Some? {
        var k :| 0 <= k < |rest| && rest[k] == FirstFit(t, rest).value && Serves(rest[k], t.envelope)
          && forall j | 0 <= j < k :: !Serves(rest[j], t.envelope);
        assert capabilities[k + 1] == rest[k];
        forall j | 0 <= j < k + 1
          ensures !Serves(capabilities[j], t.envelope)
        {
          if j > 0 {
            assert capabilities[j] == rest[j - 1];
          }
        }
      }
    }
  }

  /** A granted task was queued, due and unexpired, and goes to the first capability that serves it. */
  lemma GrantServes(db: Db, op: Op)
    requires op.Claim? && Legal(db, op) && Exec(db, op).reply.Granted?
    ensures var lease := Exec(db, op).reply.lease;
            && lease.taskId in db.tasks
            && var t := db.tasks[lease.taskId];
            && t.status.Queued? && t.nextAttemptAt <= op.now && op.now < t.expiresAt
            && exists k | 0 <= k < |op.capabilities| ::
                 && op.capabilities[k].capabilityId == lease.capabilityId
                 && Serves(op.capabilities[k], t.envelope)
                 && forall j | 0 <= j < k :: !Serves(op.capabilities[j], t.envelope)
  {
    PickIsFirst(db, op.capabilities, op.window);
    FirstThatServes(db.tasks[Exec(db, op).reply.lease.taskId], op.capabilities);
  }

  /** The row and the lease that a grant leaves behind. */
  lemma GrantLeases(db: Db, op: Op)
    requires op.Claim? && Legal(db, op) && Exec(db, op).reply.Granted?
    ensures var after := Exec(db, op).db; var lease := Exec(db, op).reply.lease; var id := lease.taskId;
            && id in db.tasks && id in after.tasks
            && var t := db.tasks[id]; var u := after.tasks[id];
            && after.tasks == db.tasks[id := u] && after.artifacts == db.artifacts
            && after.events == db.events + [Event(id, EventLeased, op.now)]
            && u.status.Leased? && u.attempt == t.attempt + 1 && u.leaseGeneration == t.leaseGeneration + 1
            && u.leaseOwner == Some(op.worker) && u.leaseTokenHash == Some(Sha256(op.token))
            && u.leaseUntil.Some? && EndsInTime(u.leaseUntil.value, op.now, t.executionDeadline)
            && u.boundCapability == Some(lease.capabilityId) && u.updatedAt == op.now
            && SameRequest(t, u) && SameResult(t, u) && u.nextAttemptAt == t.nextAttemptAt && u.error == t.error
            && lease.ownerId == t.owner && lease.workerId == op.worker && lease.token == op.token
            && lease.generation == u.leaseGeneration && Some(lease.leaseUntil) == u.leaseUntil
  {
    PickIsFirst(db, op.capabilities, op.window);
  }

  /** No further test stands in the way: the only eligible task is granted whenever some capability
      serves it. */
  lemma SoleTaskIsGranted(db: Db, op: Op, id: Id, k: nat)
    requires op.Claim? && Legal(db, op) && id in db.tasks
    requires var t := db.tasks[id]; t.status.Queued? && t.nextAttemptAt <= op.now && op.now < t.expiresAt
    requires forall other <- db.tasks | other != id ::
               var t := db.tasks[other]; !(t.status.Queued? && t.nextAttemptAt <= op.now && op.now < t.expiresAt)
    requires k < |op.capabilities| && Serves(op.capabilities[k], db.tasks[id].envelope)
    ensures Exec(db, op).reply.Granted? && Exec(db, op).reply.lease.taskId == id
  {
    PickIsFirst(db, op.capabilities, op.window);
    FirstThatServes(db.tasks[id], op.capabilities);
    assert Eligible(db.tasks[id], op.now) && id in op.window;
    assert forall other <- op.window :: Eligible(db.tasks[other], op.now);
  }

  /** The query returns 32 rows, no fewer and no more: 31 rows that do not fit cannot hide a task, and
      32 older ones do. */
  lemma WindowIsThirtyTwo(db: Db, op: Op, id: Id)
    requires op.Claim? && Legal(db, op) && id in Runnable(db, op.capabilities, op.now)
    ensures |ClutterBefore(db, op.capabilities, op.now, id)| <= 31 ==> Exec(db, op).reply.Granted?
    ensures forall blockers | Blocked(db, op.capabilities, op.now, blockers, id) && |blockers| == 32 ::
              Exec(db, op).db.tasks[id] == db.tasks[id]
    ensures |op.window| <= 32
  {
    if |ClutterBefore(db, op.capabilities, op.now, id)| <= 31 {
      LittleClutterMeansGrant(db, op, id);
    }
    forall blockers | Blocked(db, op.capabilities, op.now, blockers, id)
      ensures Exec(db, op).db.tasks[id] == db.tasks[id]
    {
      BlockersFillWindow(db, op, blockers, id);
      OutsideWindow(db, op, id);
    }
  }

  // ---------- calls under a lease ----------

  /** When a lease is good, and what a call under any other is answered with. */
  lemma LeaseDecides(db: Db, op: Op)
    requires DbInv(db) && LeaseBound(op)
    ensures op.lease.taskId !in db.tasks ==> Exec(db, op) == Outcome(db, Rejected(NotFound))
    ensures op.lease.taskId in db.tasks ==>
              var t := db.tasks[op.lease.taskId];
              if Carries(t, op.lease) && t.leaseUntil.Some? && op.now < t.leaseUntil.value
              then Accepts(db, op.lease, op.now) && op.lease.taskId in Exec(db, op).db.tasks
                   && Exec(db, op).reply == Row(Exec(db, op).db.tasks[op.lease.taskId])
              else Exec(db, op) == Outcome(db, Rejected(LeaseConflict))
  {
    if op.lease.taskId in db.tasks {
      AcceptsIffCarries(db, op.lease, op.now);
    }
  }

  /** A start makes the task running; a heartbeat leaves its status. Both move the end of the lease. */
  lemma RenewalEffect(db: Db, op: Op)
    requires (op.Start? || op.Heartbeat?) && Accepts(db, op.lease, op.now)
    ensures var out := Exec(db, op); var id := op.lease.taskId;
            && OnlyRow(db, out.db, id) && id in out.db.tasks
            && var t := db.tasks[id]; var u := out.db.tasks[id];
            && out.reply == Row(u) && SameHolder(t, u) && u.updatedAt == op.now
            && (op.Start? ==> u.status.Running?) && (op.Heartbeat? ==> u.status == t.status)
            && u.leaseUntil.Some? && EndsInTime(u.leaseUntil.value, op.now, t.executionDeadline)
  {
  }

  /** A failure report ends the lease and stores the error reported. The task is queued again, with
      its delay, if the Worker asks for it and it has been leased less than three times. */
  lemma FailEffect(db: Db, op: Op)
    requires DbInv(db) && op.Fail? && Accepts(db, op.lease, op.now)
    ensures var out := Exec(db, op); var id := op.lease.taskId;
            && OnlyRow(db, out.db, id) && id in out.db.tasks
            && var t := db.tasks[id]; var u := out.db.tasks[id];
            && out.reply == Row(u) && SameRequest(t, u) && SameAttempt(t, u) && SameResult(t, u)
            && Unheld(u) && u.error == Some(op.error) && u.updatedAt == op.now
            && (if op.retryable && t.attempt < 3
                then u.status.Queued? && u.nextAttemptAt == op.now + (if t.attempt == 1 then 5.0 else 30.0)
                else u.status.Failed? && u.nextAttemptAt == op.now)
    ensures forall lease: Lease, later | lease.taskId == op.lease.taskId :: !Accepts(Exec(db, op).db, lease, later)
  {
    assert RowInv(db.tasks[op.lease.taskId]);
  }

  /** A publication ends the lease, stores the result and keeps it for seven days. */
  lemma PublishEffect(db: Db, op: Op)
    requires op.Publish? && Accepts(db, op.lease, op.now)
    ensures var out := Exec(db, op); var id := op.lease.taskId;
            && OnlyRow(db, out.db, id) && id in out.db.tasks
            && var t := db.tasks[id]; var u := out.db.tasks[id];
            && out.reply == Row(u) && SameRequest(t, u) && SameAttempt(t, u)
            && u.status.Succeeded? && u.result == Some(op.result) && u.resultAvailable
            && u.resultExpiresAt == Some(op.now + 7.0 * 24.0 * 3600.0)
            && Unheld(u) && u.updatedAt == op.now && u.nextAttemptAt == t.nextAttemptAt && u.error == t.error
    ensures forall lease: Lease, later | lease.taskId == op.lease.taskId :: !Accepts(Exec(db, op).db, lease, later)
  {
  }

  // ---------- releasing inputs ----------

  /** A release takes away exactly the artifact rows of a succeeded task of this owner, and answers
      with exactly their paths. */
  lemma ReleaseEffect(db: Db, op: Op)
    requires op.Release?
    ensures op.id !in db.tasks || db.tasks[op.id].owner != op.owner ==>
              Exec(db, op) == Outcome(db, Rejected(NotFound))
    ensures op.id in db.tasks && db.tasks[op.id].owner == op.owner && !db.tasks[op.id].status.Succeeded? ==>
              Exec(db, op) == Outcome(db, Rejected(Conflict))
    ensures op.id in db.tasks && db.tasks[op.id].owner == op.owner && db.tasks[op.id].status.Succeeded? ==>
              var out := Exec(db, op);
              && out.db.tasks == db.tasks && out.db.events == db.events && out.reply.Paths?
              && (forall p :: p in out.reply.paths <==>
                    exists a <- db.artifacts :: db.artifacts[a].taskId == op.id && db.artifacts[a].path == p)
              && (forall a :: a in out.db.artifacts <==> a in db.artifacts && db.artifacts[a].taskId != op.id)
              && forall a <- out.db.artifacts :: out.db.artifacts[a] == db.artifacts[a]
  {
  }

  // ---------- the sweep ----------

  /** What a sweep does to each task. Overdue uploads and queued tasks expire. A lease that has run
      out is taken away: the task is at once claimable again if it has an attempt and time left, and
      has failed otherwise. Every other row stays as it is. */
  lemma SweepEffect(db: Db, now: Time, id: Id)
    requires DbInv(db) && id in db.tasks
    ensures var after := Exec(db, Sweep(now)).db; var t := db.tasks[id];
            && after.tasks.Keys == db.tasks.Keys && after.artifacts == db.artifacts && after.events == db.events
            && var u := after.tasks[id];
            if t.status.Uploading? || t.status.Queued? then
              if t.expiresAt <= now then u == t.(status := Expired, updatedAt := now) else u == t
            else if (t.status.Leased? || t.status.Running?) && t.leaseUntil.Some? && t.leaseUntil.value <= now then
              && SameRequest(t, u) && SameAttempt(t, u) && SameResult(t, u) && Unheld(u) && u.updatedAt == now
              && if t.attempt < 3 && t.expiresAt > now
                 then u.status.Queued? && u.nextAttemptAt == now && u.error == t.error && Eligible(u, now)
                 else u.status.Failed? && u.nextAttemptAt == t.nextAttemptAt
                      && u.error == Some(BareCode("attempts_exhausted"))
            else u == t
  {
    assert RowInv(db.tasks[id]);
  }

  lemma SweepStatuses(t: Task, now: Time)
    ensures Selects(ExpireIdle, t, now) <==> t.status != Expired && SweepRow(t, now).status.Expired?
    ensures Selects(RequeueLapsed, t, now) <==> t.status != Queued && SweepRow(t, now).status.Queued?
    ensures Selects(FailLapsed, t, now) <==> t.status != Failed && SweepRow(t, now).status.Failed?
  {
  }

  /** What the sweep answers: rows of the first statement count three times, of the second twice. */
  lemma SweepCount(db: Db, now: Time, overdue: set<Id>, requeued: set<Id>, failed: set<Id>)
    requires overdue <= db.tasks.Keys && requeued <= db.tasks.Keys && failed <= db.tasks.Keys
    requires forall id <- db.tasks :: id in overdue <==>
               db.tasks[id].status != Expired && Exec(db, Sweep(now)).db.tasks[id].status.Expired?
    requires forall id <- db.tasks :: id in requeued <==>
               db.tasks[id].status != Queued && Exec(db, Sweep(now)).db.tasks[id].status.Queued?
    requires forall id <- db.tasks :: id in failed <==>
               db.tasks[id].status != Failed && Exec(db, Sweep(now)).db.tasks[id].status.Failed?
    ensures Exec(db, Sweep(now)).reply == Swept(3 * |overdue| + 2 * |requeued| + |failed|)
  {
    forall id <- db.tasks
      ensures id in overdue <==> Selects(ExpireIdle, db.tasks[id], now)
      ensures id in requeued <==> Selects(RequeueLapsed, db.tasks[id], now)
      ensures id in failed <==> Selects(FailLapsed, db.tasks[id], now)
    {
      SweepStatuses(db.tasks[id], now);
    }
    assert overdue == Hits(db.tasks, ExpireIdle, now);
    assert requeued == Hits(db.tasks, RequeueLapsed, now);
    assert failed == Hits(db.tasks, FailLapsed, now);
  }

  // ---------- cancelling ----------

  /** A cancellation by the owner ends every task that is not over, and every lease on it. A finished
      task is returned as it stands, and a stranger is told that there is no such task. */
  lemma CancelEffect(db: Db, op: Op)
    requires op.Cancel?
    ensures op.id !in db.tasks || db.tasks[op.id].owner != op.owner ==>
              Exec(db, op) == Outcome(db, Rejected(NotFound))
    ensures op.id in db.tasks && db.tasks[op.id].owner == op.owner ==>
              var t := db.tasks[op.id]; var out := Exec(db, op);
              if t.status.Succeeded? || t.status.Failed? || t.status.Expired? || t.status.Canceled?
              then out == Outcome(db, Row(t))
              else
                && OnlyRow(db, out.db, op.id)
                && var u := out.db.tasks[op.id];
                && out.reply == Row(u) && u.status.Canceled? && Unheld(u) && u.updatedAt == op.now
                && SameRequest(t, u) && SameAttempt(t, u) && SameResult(t, u)
                && u.nextAttemptAt == t.nextAttemptAt && u.error == t.error
                && forall lease: Lease, later | lease.taskId == op.id :: !Accepts(out.db, lease, later)
  {
  }

  /** A task that its owner cancels before it is over stays canceled for the rest of the run, and no
      lease on it is ever accepted again. */
  lemma CanceledForGood(s: seq<Db>, ops: seq<Op>, i: nat, j: nat)
    requires Behavior(s, ops) && i < |ops| && i < j < |s| && ops[i].Cancel? && ops[i].id in s[i].tasks
    requires s[i].tasks[ops[i].id].owner == ops[i].owner && !Terminal(s[i].tasks[ops[i].id].status)
    ensures ops[i].id in s[j].tasks && s[j].tasks[ops[i].id].status.Canceled?
    ensures forall lease: Lease, now | lease.taskId == ops[i].id :: !Accepts(s[j], lease, now)
  {
    assert Step(s[i], ops[i], s[i + 1]);
    CancelEffect(s[i], ops[i]);
    RowsEvolve(s, ops, i + 1, j, ops[i].id);
  }

  // ---------- deleting artifact rows ----------

  /** The end of a cleanup deletes the rows that have expired or are not published, and no others. */
  lemma PurgeEffect(db: Db, op: Op)
    requires op.Purge?
    ensures var after := Exec(db, op).db;
            && after.tasks == db.tasks && after.events == db.events
            && (forall a :: a in after.artifacts <==>
                  a in db.artifacts && op.cutoff < db.artifacts[a].expiresAt && db.artifacts[a].published)
            && forall a <- after.artifacts :: after.artifacts[a] == db.artifacts[a]
  {
  }
}
