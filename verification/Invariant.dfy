/** The inductive invariant of the whole database, kept by every transaction. */
module Invariant {
  import opened Records
  import opened TaskTable
  import opened RowProtocol

  /** UNIQUE (owner_id, device_id, idempotency_key). */
  ghost predicate KeysUnique(db: Db) {
    forall i, j | i in db.tasks && j in db.tasks
                  && SameKey(db.tasks[i], db.tasks[j].owner, db.tasks[j].device, db.tasks[j].envelope.idempotencyKey)
      :: i == j
  }

  /** An artifact row belongs to a task whose upload is over, and expires with it. */
  ghost predicate ArtifactInv(db: Db, a: Artifact) {
    && a.published
    && a.taskId in db.tasks
    && a.expiresAt == db.tasks[a.taskId].expiresAt
    && !db.tasks[a.taskId].status.Uploading?
  }

  /** UNIQUE (path), and at most one input per task. */
  ghost predicate ArtifactsUnique(db: Db) {
    forall a, b | a in db.artifacts && b in db.artifacts && a != b
      :: db.artifacts[a].path != db.artifacts[b].path && db.artifacts[a].taskId != db.artifacts[b].taskId
  }

  function Count(events: seq<Event>, id: Id, kind: EventKind): nat {
    if events == [] then 0
    else
      var last := events[|events| - 1];
      Count(events[..|events| - 1], id, kind) + if last.taskId == id && last.kind == kind then 1 else 0
  }

  /** The log tells the story of each row: created once, queued by its upload at most once,
      leased once per attempt. Retries do not log. */
  ghost predicate LogInv(db: Db, id: Id) {
    var created := Count(db.events, id, EventCreated);
    var queued := Count(db.events, id, EventQueued);
    var leased := Count(db.events, id, EventLeased);
    if id !in db.tasks then created == queued == leased == 0
    else
      var t := db.tasks[id];
      && created == 1
      && leased == t.attempt
      && queued <= 1
      && (t.status.Uploading? ==> queued == 0)
      && (t.status.Queued? || Held(t.status) || t.status.Succeeded? || t.status.Failed? ==> queued == 1)
  }

  ghost predicate DbInv(db: Db) {
    && (forall id <- db.tasks :: RowInv(db.tasks[id]))
    && KeysUnique(db)
    && (forall a <- db.artifacts :: ArtifactInv(db, db.artifacts[a]))
    && ArtifactsUnique(db)
    && (forall id :: LogInv(db, id))
  }

  lemma EmptyInv()
    ensures DbInv(EMPTY)
  {
  }

  lemma RowsKept(db: Db, op: Op)
    requires DbInv(db) && Legal(db, op)
    ensures forall id <- Exec(db, op).db.tasks :: RowInv(Exec(db, op).db.tasks[id])
    ensures forall id <- db.tasks ::
              id in Exec(db, op).db.tasks && Evolves(db.tasks[id], Exec(db, op).db.tasks[id])
  {
    var after := Exec(db, op).db;
    forall id <- db.tasks
      ensures id in after.tasks && RowInv(after.tasks[id]) && Evolves(db.tasks[id], after.tasks[id])
    {
      Projection(db, op, id);
      RowInvStep(db.tasks[id], after.tasks[id], Clock(op));
      EvolvesStep(db.tasks[id], after.tasks[id], Clock(op));
    }
    forall id <- after.tasks | id !in db.tasks
      ensures RowInv(after.tasks[id])
    {
      NewRow(db, op, id);
      NewTaskInv(op.owner, op.device, op.envelope, op.digest, op.now);
    }
  }

  lemma KeysKept(db: Db, op: Op)
    requires DbInv(db) && Legal(db, op)
    ensures KeysUnique(Exec(db, op).db)
  {
    var after := Exec(db, op).db;
    RowsKept(db, op);
    forall i, j | i in after.tasks && j in after.tasks && i != j
      ensures !SameKey(after.tasks[i], after.tasks[j].owner, after.tasks[j].device,
                       after.tasks[j].envelope.idempotencyKey)
    {
      if i !in db.tasks {
        NewRow(db, op, i);
        if j !in db.tasks {
          NewRow(db, op, j);
        } else {
          assert Evolves(db.tasks[j], after.tasks[j]);
        }
      } else {
        assert Evolves(db.tasks[i], after.tasks[i]);
        if j !in db.tasks {
          NewRow(db, op, j);
        } else {
          assert Evolves(db.tasks[j], after.tasks[j]);
        }
      }
    }
  }

  lemma ArtifactsKept(db: Db, op: Op)
    requires DbInv(db) && Legal(db, op)
    ensures forall a <- Exec(db, op).db.artifacts :: ArtifactInv(Exec(db, op).db, Exec(db, op).db.artifacts[a])
    ensures ArtifactsUnique(Exec(db, op).db)
  {
    RowsKept(db, op);
    if op.Finalize? {
      UploadAddsOneRow(db, op);
      var after := Exec(db, op).db;
      if after.artifacts == db.artifacts {
        ArtifactsFramed(db, after);
      } else {
        ArtifactInserted(db, after, ArtifactKey(op), after.artifacts[ArtifactKey(op)]);
      }
    } else {
      ArtifactsShrink(db, op);
      ArtifactsFramed(db, Exec(db, op).db);
    }
  }

  /** A row whose upload is over has fewer than ten status changes left and never gains any,
      so it is never an upload again. */
  lemma ArtifactsFramed(db: Db, after: Db)
    requires DbInv(db) && after.artifacts.Keys <= db.artifacts.Keys
    requires forall a <- after.artifacts :: after.artifacts[a] == db.artifacts[a]
    requires forall id <- db.tasks :: id in after.tasks && Evolves(db.tasks[id], after.tasks[id])
    ensures forall a <- after.artifacts :: ArtifactInv(after, after.artifacts[a])
    ensures ArtifactsUnique(after)
  {
  }

  /** Only finishing an upload adds an artifact row; no row is ever rewritten. */
  lemma ArtifactsShrink(db: Db, op: Op)
    requires Legal(db, op) && !op.Finalize?
    ensures Exec(db, op).db.artifacts.Keys <= db.artifacts.Keys
    ensures forall a <- Exec(db, op).db.artifacts :: Exec(db, op).db.artifacts[a] == db.artifacts[a]
    ensures !op.Release? && !op.Purge? ==> Exec(db, op).db.artifacts == db.artifacts
  {
  }

  /** Finishing an upload adds one row for its own task, or none. */
  lemma UploadAddsOneRow(db: Db, op: Op)
    requires op.Finalize?
    ensures var after := Exec(db, op).db;
            || after.artifacts == db.artifacts
            || (&& op.id in db.tasks && db.tasks[op.id].status.Uploading? && db.tasks[op.id].expiresAt > op.now
                && ArtifactKey(op) !in db.artifacts && !PathTaken(db, StoredPath(op))
                && after.tasks == db.tasks[op.id := Enqueue(db.tasks[op.id], op.now)]
                && after.artifacts == db.artifacts[ArtifactKey(op) :=
                     Artifact(op.id, op.ref.sizeBytes.value, StoredPath(op), true, db.tasks[op.id].expiresAt)])
  {
  }

  /** The task of an upload has no artifact row yet. */
  lemma ArtifactInserted(db: Db, after: Db, key: Id, a: Artifact)
    requires DbInv(db) && key !in db.artifacts && !PathTaken(db, a.path)
    requires after.artifacts == db.artifacts[key := a]
    requires a.taskId in db.tasks && db.tasks[a.taskId].status.Uploading?
    requires forall id <- db.tasks :: id in after.tasks && Evolves(db.tasks[id], after.tasks[id])
    requires ArtifactInv(after, a)
    ensures forall b <- after.artifacts :: ArtifactInv(after, after.artifacts[b])
    ensures ArtifactsUnique(after)
  {
  }

  lemma LogAppend(db: Db, id: Id, kind: EventKind, now: Time, other: Id)
    ensures forall k :: Count(Log(db, id, kind, now).events, other, k)
                     == Count(db.events, other, k) + if id == other && k == kind then 1 else 0
  {
  }

  lemma LogKeptCreate(db: Db, op: Op, id: Id)
    requires DbInv(db) && op.Create?
    ensures LogInv(Exec(db, op).db, id)
  {
    assert LogInv(db, id);
    LogAppend(db, op.freshId, EventCreated, op.now, id);
  }

  lemma LogKeptFinalize(db: Db, op: Op, id: Id)
    requires DbInv(db) && op.Finalize?
    ensures LogInv(Exec(db, op).db, id)
  {
    assert LogInv(db, id);
    LogAppend(db, op.id, EventQueued, op.now, id);
  }

  lemma LogKeptClaim(db: Db, op: Op, id: Id)
    requires DbInv(db) && op.Claim? && Legal(db, op)
    ensures LogInv(Exec(db, op).db, id)
  {
    assert LogInv(db, id);
    PickIsFirst(db, op.capabilities, op.window);
    var pick := Pick(db, op.capabilities, op.window);
    if pick.Some? {
      LogAppend(db, pick.value, EventLeased, op.now, id);
    }
  }

  lemma SilentTransactions(db: Db, op: Op)
    requires Legal(db, op) && !op.Create? && !op.Finalize? && !op.Claim?
    ensures Exec(db, op).db.events == db.events && Exec(db, op).db.tasks.Keys == db.tasks.Keys
    ensures forall id <- db.tasks :: Exec(db, op).db.tasks[id].attempt == db.tasks[id].attempt
  {
  }

  lemma LogKeptSilently(db: Db, op: Op, id: Id)
    requires DbInv(db) && Legal(db, op) && !op.Create? && !op.Finalize? && !op.Claim?
    ensures LogInv(Exec(db, op).db, id)
  {
    SilentTransactions(db, op);
    RowsKept(db, op);
    if id in db.tasks {
      Projection(db, op, id);
      LogFramed(db, Exec(db, op).db, id);
    } else {
      assert LogInv(db, id);
    }
  }

  lemma LogFramed(db: Db, after: Db, id: Id)
    requires DbInv(db) && id in db.tasks && id in after.tasks && after.events == db.events
    requires Evolves(db.tasks[id], after.tasks[id]) && after.tasks[id].attempt == db.tasks[id].attempt
    requires db.tasks[id].status.Uploading? ==>
               after.tasks[id].status.Uploading? || after.tasks[id].status.Expired? || after.tasks[id].status.Canceled?
    ensures LogInv(after, id)
  {
    assert LogInv(db, id) && RowInv(db.tasks[id]);
  }

  lemma LogKept(db: Db, op: Op, id: Id)
    requires DbInv(db) && Legal(db, op)
    ensures LogInv(Exec(db, op).db, id)
  {
    if op.Create? {
      LogKeptCreate(db, op, id);
    } else if op.Finalize? {
      LogKeptFinalize(db, op, id);
    } else if op.Claim? {
      LogKeptClaim(db, op, id);
    } else {
      LogKeptSilently(db, op, id);
    }
  }

  /** Every transaction keeps the invariant. */
  lemma InvStep(db: Db, op: Op)
    requires DbInv(db) && Legal(db, op)
    ensures DbInv(Exec(db, op).db)
  {
    RowsKept(db, op);
    KeysKept(db, op);
    ArtifactsKept(db, op);
    forall id
      ensures LogInv(Exec(db, op).db, id)
    {
      LogKept(db, op, id);
    }
  }

  /** A rejected call leaves the database as it was. The one exception is the upload that
      arrives too late: its task is marked expired and committed before the error is raised. */
  lemma RejectionsChangeNothing(db: Db, op: Op)
    requires Legal(db, op) && Exec(db, op).reply.Rejected?
    ensures var after := Exec(db, op).db;
            || after == db
            || (&& op.Finalize? && op.id in db.tasks && db.tasks[op.id].status.Uploading?
                && db.tasks[op.id].expiresAt <= op.now
                && after == Put(db, op.id, Expire(db.tasks[op.id], op.now)))
  {
  }
}
