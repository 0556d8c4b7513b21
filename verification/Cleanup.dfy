/** Cleanup beside a running server. `cleanup_expired` is two transactions with file deletions
    between them; uploads write their file before their row, and releases drop the row before
    the file. Here every such piece is a separate step and they interleave freely.

    Files are known by the stored path, below a root that is spelled in resolved form (see
    `Storage.CleanupNeedsResolvedRoot`); an upload's file name contains a fresh random identifier. */
module Cleanup {
  import opened Records
  import opened TaskTable
  import opened RowProtocol
  import opened Invariant
  import opened Repository
  import opened Storage

  // ---------- one cleanup on its own ----------

  method SelectRemovable(repo: TaskRepository, now: Time) returns (paths: seq<string>)
    ensures forall p :: p in paths <==> p in Selected(repo.State(), now).Values
  {
    paths := [];
    var todo := repo.artifacts.Keys;
    while todo != {}
      invariant todo <= repo.artifacts.Keys
      invariant forall p :: p in paths <==>
          exists a <- repo.artifacts.Keys - todo :: Removable(repo.artifacts[a], now) && repo.artifacts[a].path == p
    {
      var a :| a in todo;
      if Removable(repo.artifacts[a], now) {
        paths := paths + [repo.artifacts[a].path];
      }
      todo := todo - {a};
    }
    ghost var selected := Selected(repo.State(), now);
    forall p
      ensures p in paths <==> p in selected.Values
    {
      if p in paths {
        var a :| a in repo.artifacts && Removable(repo.artifacts[a], now) && repo.artifacts[a].path == p;
        assert a in selected && selected[a] == p;
      }
    }
  }

  /** The locations below the root that a set of stored paths names. */
  ghost function Targets(store: ArtifactStore, spell: string -> Path, stored: set<string>): set<Location> {
    set p | p in stored && Inside(store.root, Resolve(store.cwd, Join(store.root, spell(p))))
      :: Resolve(store.cwd, Join(store.root, spell(p)))
  }

  lemma TargetsListed(store: ArtifactStore, spell: string -> Path, stored: seq<string>, rows: set<string>)
    requires forall p :: p in stored <==> p in rows
    ensures OwnLocations(store.root, store.cwd, Spelled(store, spell, stored)) == Targets(store, spell, rows)
  {
    var paths := Spelled(store, spell, stored);
    forall p | p in rows
      ensures Join(store.root, spell(p)) in paths
    {
      var i :| 0 <= i < |stored| && stored[i] == p;
      assert paths[i] in paths;
    }
    forall q | q in paths
      ensures exists p :: p in rows && q == Join(store.root, spell(p))
    {
      var i :| 0 <= i < |paths| && paths[i] == q;
      assert stored[i] in stored;
    }
  }

  function Spelled(store: ArtifactStore, spell: string -> Path, stored: seq<string>): (paths: seq<Path>) {
    seq(|stored|, i requires 0 <= i < |stored| => Join(store.root, spell(stored[i])))
  }

  /** Stored paths as uploads write them: relative, below the root, without `..`. */
  predicate PlainPaths(spell: string -> Path, stored: set<string>) {
    forall p <- stored :: !spell(p).absolute && ".." !in spell(p).parts && spell(p).parts != []
  }

  /** With a root in resolved form a cleanup reaches every file its rows name; with any other root
      it reaches none of them. */
  lemma TargetsByRoot(store: ArtifactStore, spell: string -> Path, stored: set<string>)
    requires PlainPaths(spell, stored)
    ensures ResolvedRoot(store.root) ==>
              Targets(store, spell, stored) == set p | p in stored :: store.root.parts + spell(p).parts
    ensures !ResolvedRoot(store.root) ==> Targets(store, spell, stored) == {}
  {
    forall p <- stored
      ensures Inside(store.root, Resolve(store.cwd, Join(store.root, spell(p)))) <==> ResolvedRoot(store.root)
      ensures ResolvedRoot(store.root) ==>
                Resolve(store.cwd, Join(store.root, spell(p))) == store.root.parts + spell(p).parts
    {
      CleanupNeedsResolvedRoot(store.cwd, store.root, spell(p));
    }
  }

  /** The whole of `cleanup_expired` with nothing in between: the rows that are expired or not
      published go, and so do the files they name below the root, and nothing else. Unless the
      root is in resolved form the rows go and every file stays. */
  method CleanupExpired(repo: TaskRepository, store: ArtifactStore, spell: string -> Path, now: Time)
    returns (report: Report)
    requires repo.Valid()
    modifies repo`artifacts, store`files
    ensures repo.Valid() && repo.State() == Exec(old(repo.State()), Purge(now)).db
    ensures store.files == old(store.files) - Targets(store, spell, Selected(old(repo.State()), now).Values)
    ensures PlainPaths(spell, Selected(old(repo.State()), now).Values) && !ResolvedRoot(store.root) ==>
              store.files == old(store.files)
    ensures report.deletedFiles == |old(store.files)| - |store.files|
    ensures report.deletedBytes == Total(old(store.files)) - Total(store.files)
  {
    ghost var rows := Selected(repo.State(), now).Values;
    var stored := SelectRemovable(repo, now);
    report := store.DeleteExpired(Spelled(store, spell, stored));
    TargetsListed(store, spell, stored, rows);
    if PlainPaths(spell, rows) {
      TargetsByRoot(store, spell, rows);
    }
    repo.DeleteArtifacts(now);
  }

  // ---------- interleaved ----------

  /** A cleanup between its two transactions: the cutoff it read, the rows it selected, and the
      paths it still has to unlink. */
  datatype Cleaner = Cleaner(cutoff: Time, batch: map<Id, string>, todo: set<string>)

  /** `used` are the paths ever written; `uploads` the finished files whose row is not in yet;
      `unlinking` the paths a release has returned and not yet removed; `clock` the time the
      last committed transaction has read. */
  datatype Server = Server(
    db: Db,
    files: set<string>,
    used: set<string>,
    uploads: map<string, Id>,
    cleaners: map<nat, Cleaner>,
    unlinking: set<string>,
    clock: Time)

  const BOOT: Server := Server(EMPTY, {}, {}, map[], map[], {}, 0.0)

  datatype Action =
    | Transaction(op: Op)
    | WriteFile(path: string, task: Id)
    | FinishUpload(path: string, op: Op)
    | SelectExpired(pid: nat, now: Time)
    | UnlinkExpired(pid: nat, path: string)
    | DeleteRows(pid: nat)
    | UnlinkReleased(path: string)
    | Crash

  function Later(clock: Time, op: Op): Time {
    if OpTime(op).Some? then OpTime(op).value else clock
  }

  /** Which steps can be taken. */
  ghost predicate Enabled(s: Server, a: Action) {
    match a
    case Transaction(op) => Legal(s.db, op) && !op.Finalize? && !op.Purge?
    case WriteFile(path, _) => path != "" && path !in s.used
    case FinishUpload(path, op) =>
      path in s.uploads && op.Finalize? && op.path == Some(path) && op.id == s.uploads[path]
    case SelectExpired(pid, _) => pid !in s.cleaners
    case UnlinkExpired(pid, path) => pid in s.cleaners && path in s.cleaners[pid].todo
    case DeleteRows(pid) => pid in s.cleaners && s.cleaners[pid].todo == {}
    case UnlinkReleased(path) => path in s.unlinking
    case Crash => true
  }

  ghost function Selected(db: Db, cutoff: Time): map<Id, string> {
    map a | a in db.artifacts && Removable(db.artifacts[a], cutoff) :: db.artifacts[a].path
  }

  ghost function After(s: Server, a: Action): Server
    requires Enabled(s, a)
  {
    match a
    case Transaction(op) =>
      var out := Exec(s.db, op);
      s.(db := out.db, clock := Later(s.clock, op),
      unlinking := s.unlinking + if out.reply.Paths? then out.reply.paths else {})
    case WriteFile(path, task) =>
      s.(files := s.files + {path}, used := s.used + {path}, uploads := s.uploads[path := task])
    case FinishUpload(path, op) =>
      s.(db := Exec(s.db, op).db, uploads := s.uploads - {path}, clock := Later(s.clock, op))
    case SelectExpired(pid, now) =>
      var batch := Selected(s.db, now);
      s.(cleaners := s.cleaners[pid := Cleaner(now, batch, batch.Values)], clock := now)
    case UnlinkExpired(pid, path) =>
      var c := s.cleaners[pid];
      s.(files := s.files - {path}, cleaners := s.cleaners[pid := c.(todo := c.todo - {path})])
    case DeleteRows(pid) =>
      s.(db := Exec(s.db, Purge(s.cleaners[pid].cutoff)).db, cleaners := s.cleaners - {pid})
    case UnlinkReleased(path) => s.(files := s.files - {path}, unlinking := s.unlinking - {path})
    case Crash => s.(uploads := map[], cleaners := map[], unlinking := {})
  }

  ghost predicate Trace(s: seq<Server>, acts: seq<Action>) {
    && |s| == |acts| + 1
    && s[0] == BOOT
    && forall i | 0 <= i < |acts| :: Moves(s[i], acts[i], s[i + 1])
  }

  ghost predicate Moves(before: Server, a: Action, after: Server) {
    Enabled(before, a) && after == After(before, a)
  }

  /** The step does not read a time before the one last read. */
  predicate InOrder(s: Server, a: Action) {
    match a
    case Transaction(op) => s.clock <= Later(s.clock, op)
    case FinishUpload(_, op) => s.clock <= Later(s.clock, op)
    case SelectExpired(_, now) => s.clock <= now
    case _ => true
  }

  /** Times read do not decrease in commit order. The code does not see to that: it reads its clock
      before it waits for the database. */
  ghost predicate SteadyClock(s: seq<Server>, acts: seq<Action>)
    requires |s| == |acts| + 1
  {
    forall i | 0 <= i < |acts| :: InOrder(s[i], acts[i])
  }

  ghost predicate Allowed(s: Server, a: Action) {
    Enabled(s, a) && InOrder(s, a)
  }

  // ---------- the invariant ----------

  predicate Working(t: Task) {
    t.status.Queued? || Held(t.status)
  }

  /** A path somebody is about to unlink: never an upload's, and no row that has not expired
      names it. */
  ghost predicate Doomed(s: Server, path: string) {
    && path in s.used
    && path !in s.uploads
    && forall a <- s.db.artifacts :: s.db.artifacts[a].path == path ==> s.db.artifacts[a].expiresAt <= s.clock
  }

  ghost predicate CleanerInv(s: Server, c: Cleaner) {
    && c.cutoff <= s.clock
    && c.todo <= c.batch.Values
    && (forall path <- c.batch.Values :: Doomed(s, path))
    && (forall path <- c.batch.Values - c.todo :: path !in s.files)
    && (forall a <- s.db.artifacts :: s.db.artifacts[a].expiresAt <= c.cutoff ==>
          a in c.batch && c.batch[a] == s.db.artifacts[a].path)
  }

  ghost predicate ArtifactFiles(s: Server) {
    forall a <- s.db.artifacts ::
      && s.db.artifacts[a].path in s.used
      && s.db.artifacts[a].path !in s.uploads
      && (s.db.artifacts[a].expiresAt > s.clock ==> s.db.artifacts[a].path in s.files)
  }

  ghost predicate HasInput(db: Db, id: Id) {
    exists a <- db.artifacts :: db.artifacts[a].taskId == id
  }

  ghost predicate ServerInv(s: Server) {
    && DbInv(s.db)
    && ArtifactFiles(s)
    && (forall path <- s.uploads :: path in s.used && path in s.files && path != "")
    && (forall path <- s.unlinking :: Doomed(s, path))
    && (forall pid <- s.cleaners :: CleanerInv(s, s.cleaners[pid]))
    && (forall id <- s.db.tasks ::
          Working(s.db.tasks[id]) && s.db.tasks[id].expiresAt > s.clock ==> HasInput(s.db, id))
  }

  /** What a transaction that inserts no artifact row does to the invariant's ingredients. */
  ghost predicate Ages(s: Server, after: Server) {
    && DbInv(after.db)
    && s.clock <= after.clock
    && after.db.artifacts.Keys <= s.db.artifacts.Keys
    && (forall a <- after.db.artifacts :: after.db.artifacts[a] == s.db.artifacts[a])
    && after.files == s.files && after.used == s.used && after.uploads == s.uploads
  }

  lemma AgesKeeps(s: Server, after: Server)
    requires ServerInv(s) && Ages(s, after)
    ensures ArtifactFiles(after)
    ensures forall path <- s.unlinking :: Doomed(after, path)
    ensures forall pid <- s.cleaners :: CleanerInv(after, s.cleaners[pid])
  {
  }

  /** A task that is at work and still has time was already so before the transaction, or has
      just been enqueued. */
  lemma WorkingWasWorking(db: Db, op: Op, id: Id)
    requires DbInv(db) && Legal(db, op) && !op.Finalize? && id in Exec(db, op).db.tasks
    requires Working(Exec(db, op).db.tasks[id])
    ensures id in db.tasks && Working(db.tasks[id])
    ensures Exec(db, op).db.tasks[id].expiresAt == db.tasks[id].expiresAt
  {
    if id !in db.tasks {
      NewRow(db, op, id);
    } else {
      Projection(db, op, id);
      RowsKept(db, op);
      assert Evolves(db.tasks[id], Exec(db, op).db.tasks[id]);
    }
  }

  lemma TransactionKeeps(s: Server, op: Op)
    requires ServerInv(s) && Allowed(s, Transaction(op))
    ensures ServerInv(After(s, Transaction(op)))
  {
    var after := After(s, Transaction(op));
    InvStep(s.db, op);
    ArtifactsShrink(s.db, op);
    AgesKeeps(s, after);
    forall path <- after.unlinking
      ensures Doomed(after, path)
    {
      if path !in s.unlinking {
        ReleasedIsDoomed(s, op, path);
      }
    }
    forall id <- after.db.tasks | Working(after.db.tasks[id]) && after.db.tasks[id].expiresAt > after.clock
      ensures HasInput(after.db, id)
    {
      WorkingWasWorking(s.db, op, id);
      assert HasInput(s.db, id);
      InputKept(s.db, op, id);
    }
  }

  lemma InputKept(db: Db, op: Op, id: Id)
    requires Legal(db, op) && !op.Finalize? && !op.Purge? && HasInput(db, id)
    requires id in db.tasks && !db.tasks[id].status.Succeeded?
    ensures HasInput(Exec(db, op).db, id)
  {
    ArtifactsShrink(db, op);
    var a :| a in db.artifacts && db.artifacts[a].taskId == id;
    assert a in Exec(db, op).db.artifacts;
  }

  lemma ReleasedIsDoomed(s: Server, op: Op, path: string)
    requires ServerInv(s) && Allowed(s, Transaction(op))
    requires Exec(s.db, op).reply.Paths? && path in Exec(s.db, op).reply.paths
    ensures Doomed(After(s, Transaction(op)), path)
  {
  }

  lemma PurgeKeeps(s: Server, pid: nat)
    requires ServerInv(s) && Allowed(s, DeleteRows(pid))
    ensures ServerInv(After(s, DeleteRows(pid)))
  {
    var op := Purge(s.cleaners[pid].cutoff);
    InvStep(s.db, op);
    ArtifactsShrink(s.db, op);
    AgesKeeps(s, After(s, DeleteRows(pid)));
    PurgeSparesInputs(s, s.cleaners[pid]);
  }

  lemma PurgeSparesInputs(s: Server, c: Cleaner)
    requires ServerInv(s) && c.cutoff <= s.clock
    ensures forall id <- s.db.tasks | Working(s.db.tasks[id]) && s.db.tasks[id].expiresAt > s.clock
              :: HasInput(AfterPurge(s.db, c.cutoff).db, id)
  {
    forall id <- s.db.tasks | Working(s.db.tasks[id]) && s.db.tasks[id].expiresAt > s.clock
      ensures HasInput(AfterPurge(s.db, c.cutoff).db, id)
    {
      assert HasInput(s.db, id);
      var a :| a in s.db.artifacts && s.db.artifacts[a].taskId == id;
      assert ArtifactInv(s.db, s.db.artifacts[a]);
      assert a in AfterPurge(s.db, c.cutoff).db.artifacts;
    }
  }

  /** A new row takes its upload's path, which nobody is about to unlink, and expires later than
      any cutoff in use. */
  ghost predicate Inserts(s: Server, after: Server, path: string) {
    && s.clock <= after.clock && path in s.uploads
    && after.files == s.files && after.used == s.used && after.uploads == s.uploads - {path}
    && after.unlinking == s.unlinking && after.cleaners == s.cleaners
    && forall a <- after.db.artifacts ::
         || (a in s.db.artifacts && after.db.artifacts[a] == s.db.artifacts[a])
         || (after.db.artifacts[a].path == path && after.db.artifacts[a].expiresAt > after.clock)
  }

  lemma InsertsKeeps(s: Server, after: Server, path: string)
    requires ServerInv(s) && Inserts(s, after, path)
    ensures ArtifactFiles(after)
    ensures forall p <- s.unlinking :: Doomed(after, p)
    ensures forall pid <- s.cleaners :: CleanerInv(after, s.cleaners[pid])
  {
  }

  lemma UploadKeeps(s: Server, path: string, op: Op)
    requires ServerInv(s) && Allowed(s, FinishUpload(path, op))
    ensures ServerInv(After(s, FinishUpload(path, op)))
  {
    var after := After(s, FinishUpload(path, op));
    InvStep(s.db, op);
    UploadInserts(s, path, op);
    InsertsKeeps(s, after, path);
    forall id <- after.db.tasks | Working(after.db.tasks[id]) && after.db.tasks[id].expiresAt > after.clock
      ensures HasInput(after.db, id)
    {
      UploadInput(s, path, op, id);
    }
  }

  lemma UploadInserts(s: Server, path: string, op: Op)
    requires ServerInv(s) && Allowed(s, FinishUpload(path, op))
    ensures Inserts(s, After(s, FinishUpload(path, op)), path)
  {
    UploadAddsOneRow(s.db, op);
    assert StoredPath(op) == path;
  }

  /** Either the upload enqueues its own task, with its input row, or it enqueues nothing. */
  lemma UploadShape(db: Db, op: Op, id: Id)
    requires op.Finalize? && id in Exec(db, op).db.tasks && Working(Exec(db, op).db.tasks[id])
    ensures var after := Exec(db, op).db;
            || (id == op.id && ArtifactKey(op) in after.artifacts && after.artifacts[ArtifactKey(op)].taskId == id)
            || (id in db.tasks && after.tasks[id] == db.tasks[id])
    ensures forall a <- db.artifacts :: a in Exec(db, op).db.artifacts && Exec(db, op).db.artifacts[a] == db.artifacts[a]
  {
  }

  lemma UploadInput(s: Server, path: string, op: Op, id: Id)
    requires ServerInv(s) && Allowed(s, FinishUpload(path, op))
    requires var after := After(s, FinishUpload(path, op));
             id in after.db.tasks && Working(after.db.tasks[id]) && after.db.tasks[id].expiresAt > after.clock
    ensures HasInput(Exec(s.db, op).db, id)
  {
    UploadShape(s.db, op, id);
    var after := Exec(s.db, op).db;
    if id == op.id && ArtifactKey(op) in after.artifacts && after.artifacts[ArtifactKey(op)].taskId == id {
    } else {
      assert HasInput(s.db, id);
      var a :| a in s.db.artifacts && s.db.artifacts[a].taskId == id;
      assert after.artifacts[a] == s.db.artifacts[a];
    }
  }

  lemma StepKeeps(s: Server, a: Action)
    requires ServerInv(s) && Allowed(s, a)
    ensures ServerInv(After(s, a))
  {
    match a
    case Transaction(op) => TransactionKeeps(s, op);
    case WriteFile(path, task) => WriteKeeps(s, path, task);
    case FinishUpload(path, op) => UploadKeeps(s, path, op);
    case SelectExpired(pid, now) => SelectKeeps(s, pid, now);
    case UnlinkExpired(pid, path) => UnlinkKeeps(s, pid, path);
    case DeleteRows(pid) => PurgeKeeps(s, pid);
    case UnlinkReleased(path) => UnlinkReleasedKeeps(s, path);
    case Crash =>
  }

  lemma WriteKeeps(s: Server, path: string, task: Id)
    requires ServerInv(s) && Allowed(s, WriteFile(path, task))
    ensures ServerInv(After(s, WriteFile(path, task)))
  {
    var after := After(s, WriteFile(path, task));
    forall p | Doomed(s, p)
      ensures Doomed(after, p)
    {
    }
    forall pid <- s.cleaners
      ensures CleanerInv(after, s.cleaners[pid])
    {
      assert CleanerInv(s, s.cleaners[pid]);
    }
  }

  /** Unlinking a doomed path takes no file anybody still needs. */
  lemma UnlinkSpares(s: Server, after: Server, path: string)
    requires ServerInv(s) && Doomed(s, path)
    requires after.db == s.db && after.files == s.files - {path} && after.used == s.used
    requires after.uploads == s.uploads && after.clock == s.clock
    ensures ArtifactFiles(after)
    ensures forall p <- after.uploads :: p in after.files
    ensures forall p | Doomed(s, p) :: Doomed(after, p)
    ensures forall c | CleanerInv(s, c) :: CleanerInv(after, c)
  {
  }

  lemma UnlinkReleasedKeeps(s: Server, path: string)
    requires ServerInv(s) && Allowed(s, UnlinkReleased(path))
    ensures ServerInv(After(s, UnlinkReleased(path)))
  {
    UnlinkSpares(s, After(s, UnlinkReleased(path)), path);
  }

  lemma SelectKeeps(s: Server, pid: nat, now: Time)
    requires ServerInv(s) && Allowed(s, SelectExpired(pid, now))
    ensures ServerInv(After(s, SelectExpired(pid, now)))
  {
    var after := After(s, SelectExpired(pid, now));
    AgesKeeps(s, after);
    var c := after.cleaners[pid];
    forall path <- c.batch.Values
      ensures Doomed(after, path)
    {
      var a :| a in c.batch && c.batch[a] == path;
      assert ArtifactInv(s.db, s.db.artifacts[a]);
    }
    assert CleanerInv(after, c);
  }

  lemma UnlinkKeeps(s: Server, pid: nat, path: string)
    requires ServerInv(s) && Allowed(s, UnlinkExpired(pid, path))
    ensures ServerInv(After(s, UnlinkExpired(pid, path)))
  {
    var c := s.cleaners[pid];
    var after := After(s, UnlinkExpired(pid, path));
    assert CleanerInv(s, c) && Doomed(s, path);
    UnlinkSpares(s, after, path);
    assert CleanerInv(after, c);
    assert CleanerInv(after, c.(todo := c.todo - {path}));
  }

  lemma {:induction false} TraceInv(s: seq<Server>, acts: seq<Action>, i: nat)
    requires Trace(s, acts) && SteadyClock(s, acts) && i < |s|
    ensures ServerInv(s[i])
  {
    if i == 0 {
      EmptyInv();
    } else {
      TraceInv(s, acts, i - 1);
      assert Moves(s[i - 1], acts[i - 1], s[i]) && InOrder(s[i - 1], acts[i - 1]);
      StepKeeps(s[i - 1], acts[i - 1]);
    }
  }

  // ---------- what it promises ----------

  /** As long as a Worker's lease is good, the input it was leased for is there: its row is in
      the database and its file in the store, whatever cleanups, releases, uploads and crashes
      go on beside it, provided times read do not decrease in commit order. */
  lemma InputsOutliveLeases(s: seq<Server>, acts: seq<Action>, i: nat, lease: Lease, now: Time)
    requires Trace(s, acts) && SteadyClock(s, acts) && i < |s|
    requires Accepts(s[i].db, lease, now) && s[i].clock <= now
    ensures exists a <- s[i].db.artifacts ::
              s[i].db.artifacts[a].taskId == lease.taskId && s[i].db.artifacts[a].path in s[i].files
  {
    TraceInv(s, acts, i);
    var t := s[i].db.tasks[lease.taskId];
    assert RowInv(t) && HasInput(s[i].db, lease.taskId);
    var a :| a in s[i].db.artifacts && s[i].db.artifacts[a].taskId == lease.taskId;
    assert ArtifactInv(s[i].db, s[i].db.artifacts[a]);
  }

  /** The two transactions of a cleanup agree: every row the second one deletes was selected by
      the first, with the same path, and its file has been unlinked and is gone; provided times
      read do not decrease in commit order. */
  lemma CleanupAgrees(s: seq<Server>, acts: seq<Action>, i: nat, a: Id)
    requires Trace(s, acts) && SteadyClock(s, acts) && i < |acts| && acts[i].DeleteRows?
    requires a in s[i].db.artifacts && a !in s[i + 1].db.artifacts
    ensures var c := s[i].cleaners[acts[i].pid];
            && a in c.batch && c.batch[a] == s[i].db.artifacts[a].path
            && s[i].db.artifacts[a].path !in s[i].files
  {
    TraceInv(s, acts, i);
    assert Moves(s[i], acts[i], s[i + 1]);
    var c := s[i].cleaners[acts[i].pid];
    assert CleanerInv(s[i], c) && ArtifactInv(s[i].db, s[i].db.artifacts[a]);
    assert c.batch[a] in c.batch.Values;
  }

  /** The path of a released input is on its way out: still to be unlinked, or gone from the store
      and never to be used again. */
  predicate OnItsWay(s: Server, path: string) {
    path in s.used && (path in s.unlinking || path !in s.files)
  }

  lemma OnItsWayStep(s: Server, a: Action, path: string)
    requires PathsApart(s) && Enabled(s, a) && !a.Crash? && OnItsWay(s, path)
    ensures OnItsWay(After(s, a), path)
  {
  }

  lemma ReleasePutsOnItsWay(s: Server, op: Op, path: string)
    requires PathsApart(s) && Enabled(s, Transaction(op))
    requires Exec(s.db, op).reply.Paths? && path in Exec(s.db, op).reply.paths
    ensures OnItsWay(After(s, Transaction(op)), path)
  {
    var a :| a in s.db.artifacts && s.db.artifacts[a].path == path;
  }

  lemma {:induction false} StaysOnItsWay(s: seq<Server>, acts: seq<Action>, i: nat, j: nat, path: string)
    requires Trace(s, acts) && i <= j < |s| && OnItsWay(s[i], path)
    requires forall m | i <= m < j :: !acts[m].Crash?
    ensures OnItsWay(s[j], path)
    decreases j
  {
    if i < j {
      StaysOnItsWay(s, acts, i, j - 1, path);
      PathsApartAlways(s, acts, j - 1);
      assert Moves(s[j - 1], acts[j - 1], s[j]);
      OnItsWayStep(s[j - 1], acts[j - 1], path);
    }
  }

  /** Released inputs go. Unless the server crashes in between, the file of every path that a release
      answered with is still waiting to be unlinked or is gone for good; in particular it is gone
      once nothing is waiting. */
  lemma ReleasedFilesGo(s: seq<Server>, acts: seq<Action>, i: nat, j: nat, path: string)
    requires Trace(s, acts) && i < |acts| && i < j < |s| && acts[i].Transaction? && acts[i].op.Release?
    requires Exec(s[i].db, acts[i].op).reply.Paths? && path in Exec(s[i].db, acts[i].op).reply.paths
    requires forall m | i <= m < j :: !acts[m].Crash?
    ensures path in s[j].unlinking || path !in s[j].files
  {
    PathsApartAlways(s, acts, i);
    assert Moves(s[i], acts[i], s[i + 1]);
    ReleasePutsOnItsWay(s[i], acts[i].op, path);
    StaysOnItsWay(s, acts, i + 1, j, path);
  }

  /** Each step of a cleanup or a release takes something off what is left to do, until it is over. */
  lemma CleanupAdvances(s: Server, pid: nat, path: string)
    ensures Enabled(s, UnlinkExpired(pid, path)) ==>
              var after := After(s, UnlinkExpired(pid, path));
              && path !in after.files && pid in after.cleaners
              && after.cleaners[pid].todo < s.cleaners[pid].todo && path !in after.cleaners[pid].todo
    ensures Enabled(s, DeleteRows(pid)) ==> pid !in After(s, DeleteRows(pid)).cleaners
    ensures Enabled(s, UnlinkReleased(path)) ==>
              var after := After(s, UnlinkReleased(path));
              path !in after.files && path !in after.unlinking
  {
  }

  /** A crash loses what was in memory and nothing on disk. */
  lemma CrashForgets(s: Server)
    ensures var after := After(s, Crash);
            && after.db == s.db && after.files == s.files && after.used == s.used && after.clock == s.clock
            && |after.uploads| == 0 && |after.cleaners| == 0 && |after.unlinking| == 0
  {
  }

  // ---------- without the clock assumption ----------

  lemma {:induction false} DbInvAlways(s: seq<Server>, acts: seq<Action>, i: nat)
    requires Trace(s, acts) && i < |s|
    ensures DbInv(s[i].db)
  {
    if i == 0 {
      EmptyInv();
    } else {
      DbInvAlways(s, acts, i - 1);
      assert Moves(s[i - 1], acts[i - 1], s[i]);
      match acts[i - 1]
      case Transaction(op) => InvStep(s[i - 1].db, op);
      case FinishUpload(_, op) => InvStep(s[i - 1].db, op);
      case DeleteRows(pid) => InvStep(s[i - 1].db, Purge(s[i - 1].cleaners[pid].cutoff));
      case _ =>
    }
  }

  /** A step that brings in a row is an upload whose task had not expired at the time it read. */
  lemma RowComesByUpload(s: Server, a: Action, id: Id)
    requires Enabled(s, a) && id in After(s, a).db.artifacts && id !in s.db.artifacts
    ensures a.FinishUpload? && a.op.now < After(s, a).db.artifacts[id].expiresAt
  {
    match a
    case Transaction(op) => ArtifactsShrink(s.db, op);
    case FinishUpload(_, op) => UploadAddsOneRow(s.db, op);
    case _ =>
  }

  lemma RowStaysSame(s: Server, a: Action, id: Id)
    requires Enabled(s, a) && id in After(s, a).db.artifacts && id in s.db.artifacts
    ensures After(s, a).db.artifacts[id] == s.db.artifacts[id]
  {
    match a
    case Transaction(op) => ArtifactsShrink(s.db, op);
    case FinishUpload(_, op) => UploadAddsOneRow(s.db, op);
    case _ =>
  }

  /** The upload at step `m` that brought in the row which is there at `j`. */
  ghost predicate CameAt(s: seq<Server>, acts: seq<Action>, m: nat, j: nat, id: Id)
    requires |s| == |acts| + 1 && m < |acts| && j < |s| && id in s[j].db.artifacts
  {
    && acts[m].FinishUpload? && acts[m].op.Finalize?
    && id !in s[m].db.artifacts && id in s[m + 1].db.artifacts
    && s[m + 1].db.artifacts[id] == s[j].db.artifacts[id]
    && acts[m].op.now < s[j].db.artifacts[id].expiresAt
  }

  lemma {:induction false} ThereOrCame(s: seq<Server>, acts: seq<Action>, i: nat, j: nat, id: Id)
    requires Trace(s, acts) && i <= j < |s| && id in s[j].db.artifacts
    ensures || (id in s[i].db.artifacts && s[i].db.artifacts[id] == s[j].db.artifacts[id])
            || exists m | i <= m < j :: CameAt(s, acts, m, j, id)
    decreases j
  {
    if i < j {
      var k := j - 1;
      assert Moves(s[k], acts[k], s[j]);
      if id in s[k].db.artifacts {
        RowStaysSame(s[k], acts[k], id);
        ThereOrCame(s, acts, i, k, id);
        if m :| i <= m < k && CameAt(s, acts, m, k, id) {
          assert CameAt(s, acts, m, j, id);
        }
      } else {
        RowComesByUpload(s[k], acts[k], id);
        assert CameAt(s, acts, k, j, id);
      }
    }
  }

  /** A cleanup that selects in step `i` is still going in state `j`. */
  ghost predicate Lasts(s: seq<Server>, acts: seq<Action>, pid: nat, i: nat, j: nat) {
    && i < |acts| && i < j < |s| && acts[i].SelectExpired? && acts[i].pid == pid
    && forall m | i < m <= j :: pid in s[m].cleaners
  }

  lemma {:induction false} CleanerKeepsBatch(s: seq<Server>, acts: seq<Action>, pid: nat, i: nat, j: nat)
    requires Trace(s, acts) && Lasts(s, acts, pid, i, j)
    ensures s[j].cleaners[pid].cutoff == acts[i].now
    ensures s[j].cleaners[pid].batch == Selected(s[i].db, acts[i].now)
    decreases j
  {
    assert Moves(s[j - 1], acts[j - 1], s[j]);
    if i + 1 < j {
      CleanerKeepsBatch(s, acts, pid, i, j - 1);
    }
  }

  /** What holds of paths whatever the clocks do: a path in a row or in a batch is no upload's. */
  ghost predicate PathsApart(s: Server) {
    && (forall path <- s.uploads :: path in s.used && path != "")
    && (forall a <- s.db.artifacts :: s.db.artifacts[a].path in s.used && s.db.artifacts[a].path !in s.uploads)
    && forall pid <- s.cleaners :: BatchApart(s, s.cleaners[pid])
  }

  ghost predicate BatchApart(s: Server, c: Cleaner) {
    forall path <- c.batch.Values :: path in s.used && path !in s.uploads
  }

  lemma PathsApartStep(s: Server, a: Action)
    requires PathsApart(s) && Enabled(s, a)
    ensures PathsApart(After(s, a))
  {
    match a
    case Transaction(op) => ArtifactsShrink(s.db, op);
    case FinishUpload(path, op) =>
      UploadAddsOneRow(s.db, op);
      assert StoredPath(op) == path;
    case _ =>
  }

  lemma {:induction false} PathsApartAlways(s: seq<Server>, acts: seq<Action>, i: nat)
    requires Trace(s, acts) && i < |s|
    ensures PathsApart(s[i])
  {
    if i > 0 {
      PathsApartAlways(s, acts, i - 1);
      assert Moves(s[i - 1], acts[i - 1], s[i]);
      PathsApartStep(s[i - 1], acts[i - 1]);
    }
  }

  /** A row that came in while a cleanup was going on has a path outside its batch. */
  lemma NewPathOutsideBatch(s: seq<Server>, acts: seq<Action>, pid: nat, i: nat, j: nat, id: Id, m: nat)
    requires Trace(s, acts) && Lasts(s, acts, pid, i, j) && i < m < j
    requires id in s[j].db.artifacts && CameAt(s, acts, m, j, id)
    ensures s[j].db.artifacts[id].path !in s[j].cleaners[pid].batch.Values
  {
    PathsApartAlways(s, acts, m);
    assert Moves(s[m], acts[m], s[m + 1]);
    UploadAddsOneRow(s[m].db, acts[m].op);
    assert StoredPath(acts[m].op) == acts[m].path;
    CleanerKeepsBatch(s, acts, pid, i, m);
    CleanerKeepsBatch(s, acts, pid, i, j);
    assert BatchApart(s[m], s[m].cleaners[pid]);
  }

  /** A row that was there when the cleanup selected, and has expired by its cutoff, was selected. */
  lemma OldRowInBatch(s: seq<Server>, acts: seq<Action>, pid: nat, i: nat, j: nat, id: Id)
    requires Trace(s, acts) && Lasts(s, acts, pid, i, j) && id in s[j].db.artifacts
    requires id in s[i].db.artifacts && s[i].db.artifacts[id] == s[j].db.artifacts[id]
    requires s[j].db.artifacts[id].expiresAt <= acts[i].now
    ensures id in s[j].cleaners[pid].batch && s[j].cleaners[pid].batch[id] == s[j].db.artifacts[id].path
  {
    CleanerKeepsBatch(s, acts, pid, i, j);
  }

  /** The second transaction deletes exactly the rows that have expired by the cutoff. */
  lemma DeletedIffExpired(s: seq<Server>, acts: seq<Action>, pid: nat, i: nat, j: nat, id: Id)
    requires Trace(s, acts) && Lasts(s, acts, pid, i, j)
    requires j < |acts| && acts[j] == DeleteRows(pid) && id in s[j].db.artifacts
    ensures id !in s[j + 1].db.artifacts <==> s[j].db.artifacts[id].expiresAt <= acts[i].now
  {
    assert Moves(s[j], acts[j], s[j + 1]);
    DbInvAlways(s, acts, j);
    CleanerKeepsBatch(s, acts, pid, i, j);
    assert ArtifactInv(s[j].db, s[j].db.artifacts[id]);
  }

  /** Exactly which rows a cleanup deletes without having visited their files, whatever the clocks
      do: those whose upload committed between its two transactions, with its own clock behind the
      cutoff, and whose task expires by the cutoff. */
  lemma UnvisitedRowCameLate(s: seq<Server>, acts: seq<Action>, pid: nat, i: nat, j: nat, id: Id)
    requires Trace(s, acts) && Lasts(s, acts, pid, i, j)
    requires j < |acts| && acts[j] == DeleteRows(pid) && id in s[j].db.artifacts
    ensures var batch := s[j].cleaners[pid].batch;
            var row := s[j].db.artifacts[id];
            (id !in s[j + 1].db.artifacts && !(id in batch && batch[id] == row.path))
            <==> && row.expiresAt <= acts[i].now
                 && exists m | i < m < j :: CameAt(s, acts, m, j, id) && acts[m].op.now < acts[i].now
  {
    DeletedIffExpired(s, acts, pid, i, j, id);
    if s[j].db.artifacts[id].expiresAt <= acts[i].now {
      if m :| i < m < j && CameAt(s, acts, m, j, id) {
        NewPathOutsideBatch(s, acts, pid, i, j, id, m);
      } else {
        assert Moves(s[i], acts[i], s[i + 1]);
        ThereOrCame(s, acts, i + 1, j, id);
        assert s[i + 1].db == s[i].db;
        OldRowInBatch(s, acts, pid, i, j, id);
      }
    }
  }

  lemma Then(s: seq<Server>, acts: seq<Action>, a: Action) returns (s': seq<Server>, acts': seq<Action>)
    requires Trace(s, acts) && Enabled(s[|acts|], a)
    ensures Trace(s', acts') && acts' == acts + [a] && s' == s + [After(s[|acts|], a)]
  {
    s', acts' := s + [After(s[|acts|], a)], acts + [a];
    forall i | 0 <= i < |acts'|
      ensures Moves(s'[i], acts'[i], s'[i + 1])
    {
      if i < |acts| {
        assert Moves(s[i], acts[i], s[i + 1]);
      }
    }
  }

  /** The row of an input whose task expires five seconds into the run. */
  function ShortLived(id: Id): Artifact {
    Artifact(id, 0, "file", true, 5.0)
  }

  function ShortRequest(id: Id): Op {
    Create("owner", "device", VisionRequest(id, 4), "digest", id, 1.0)
  }

  function LateUpload(id: Id): Op {
    Finalize(id, ArtifactRef(None, Some(0), Some("sha256")), "digest", Some("file"), "input", 1.0)
  }

  function FirstClaim(id: Id): Op {
    Claim("worker", [Capability("vision", "vision.detect.v1", "provider", None, [], [])], "token", [id], 1.0)
  }

  /** The upload has read its clock, 1, and a cleanup then selects at 10, when nothing is there. */
  lemma SelectsTooEarly(id: Id) returns (s: seq<Server>, acts: seq<Action>)
    ensures Trace(s, acts) && |acts| == 3
    ensures s[3].db.tasks == map[id := NewTask("owner", "device", VisionRequest(id, 4), "digest", 1.0)]
    ensures s[3].db.artifacts == map[] && s[3].files == {"file"} && s[3].uploads == map["file" := id]
    ensures s[3].cleaners == map[0 := Cleaner(10.0, map[], {})]
  {
    s, acts := Then([BOOT], [], Transaction(ShortRequest(id)));
    s, acts := Then(s, acts, WriteFile("file", id));
    var none: map<Id, string> := map[];
    assert Selected(s[2].db, 10.0) == none && none.Values == {};
    s, acts := Then(s, acts, SelectExpired(0, 10.0));
  }

  /** The upload commits, and a Worker is given the task. */
  lemma UploadsTooLate(id: Id) returns (s: seq<Server>, acts: seq<Action>, lease: Lease)
    ensures Trace(s, acts) && |acts| == 5
    ensures s[5].db.artifacts == map["input" := ShortLived(id)] && "file" in s[5].files
    ensures s[5].cleaners == map[0 := Cleaner(10.0, map[], {})]
    ensures lease.taskId == id && Accepts(s[5].db, lease, 1.0) && s[5].clock == 1.0
  {
    s, acts := SelectsTooEarly(id);
    s, acts := Then(s, acts, FinishUpload("file", LateUpload(id)));
    var t := Enqueue(NewTask("owner", "device", VisionRequest(id, 4), "digest", 1.0), 1.0);
    assert s[4].db.tasks == map[id := t] && s[4].db.artifacts == map["input" := ShortLived(id)];
    lease := ClaimsIt(s[4].db, id, t);
    s, acts := Then(s, acts, Transaction(FirstClaim(id)));
  }

  /** Without the assumption both promises fail. A cleanup selects at 10; an upload that had read its
      clock at 1 then commits a row that expires at 5, and a Worker is given the task; the cleanup
      deletes the row, which it never selected, and leaves the file. The lease is still accepted at
      the time last read, and its input is gone. */
  lemma DisorderDropsUnvisitedRow(id: Id) returns (s: seq<Server>, acts: seq<Action>, lease: Lease)
    requires Acceptable(VisionRequest(id, 4))
    ensures Trace(s, acts) && |acts| == 6 && acts[5] == DeleteRows(0)
    ensures s[5].db.artifacts == map["input" := ShortLived(id)]
    ensures 0 in s[5].cleaners && s[5].cleaners[0].batch == map[]
    ensures s[6].db.artifacts == map[] && "file" in s[6].files
    ensures lease.taskId == id && Accepts(s[6].db, lease, s[6].clock)
  {
    s, acts, lease := UploadsTooLate(id);
    s, acts := Then(s, acts, DeleteRows(0));
  }

  lemma ClaimsIt(db: Db, id: Id, t: Task) returns (lease: Lease)
    requires db.tasks == map[id := t]
    requires t == Enqueue(NewTask("owner", "device", VisionRequest(id, 4), "digest", 1.0), 1.0)
    ensures Legal(db, FirstClaim(id)) && lease.taskId == id
    ensures var after := Exec(db, FirstClaim(id)).db; Accepts(after, lease, 1.0) && after.artifacts == db.artifacts
  {
    var c := FirstClaim(id).capabilities[0];
    assert Fits(t, c) && FirstFit(t, [c]) == Some(c);
    assert Pick(db, [c], [id]) == Some(id);
    lease := LeaseFor(id, t, "worker", "token", "vision", 1.0);
  }
}
