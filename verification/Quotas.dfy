/** Task quotas under races. `reserve` counts on one connection; the task is inserted later on
    another. What limit survives when several requests are between the two. */
module Quotas {
  import opened Records
  import opened TaskTable
  import opened RowProtocol
  import opened Invariant
  import opened Runs
  import JsonText

  const MAX_DEVICE_ACTIVE: nat := 10
  const MAX_INSTANCE_ACTIVE: nat := 100
  const MAX_ARTIFACT_BYTES: int := 10 * 1024 * 1024 * 1024
  const MIN_FREE_BYTES: int := 5 * 1024 * 1024 * 1024

  datatype Refusal = NegativeSize | DiskReserve | DeviceTasks | InstanceTasks | ArtifactBudget

  // ---------- the check ----------

  ghost function ActiveTasks(db: Db): set<Id> {
    set id | id in db.tasks && !Terminal(db.tasks[id].status)
  }

  ghost function ActiveOf(db: Db, owner: Id, device: Id): set<Id> {
    set id | id in ActiveTasks(db) && db.tasks[id].owner == owner && db.tasks[id].device == device
  }

  /** `reserve`, in the order of its tests, given the counts its queries return. */
  function Reserve(size: int, freeBytes: int, device: nat, instance: nat, usedBytes: int): (r: Option<Refusal>)
    ensures r.None? <==>
            && 0 <= size <= freeBytes - MIN_FREE_BYTES
            && device < MAX_DEVICE_ACTIVE && instance < MAX_INSTANCE_ACTIVE
            && usedBytes + size <= MAX_ARTIFACT_BYTES
    ensures r == Some(NegativeSize) <==> size < 0
    ensures r == Some(DiskReserve) <==> size >= 0 && freeBytes - (if size > 0 then size else 0) < 5368709120
    ensures r == Some(DeviceTasks) ==> device >= 10
    ensures r == Some(InstanceTasks) ==> device < 10 && instance >= 100
    ensures r == Some(ArtifactBudget) ==> device < 10 && instance < 100 && usedBytes + size > 10737418240
    ensures device >= 10 || instance >= 100 || usedBytes + size > 10737418240 ==> r.Some?
  {
    if size < 0 then Some(NegativeSize)
    else if freeBytes < MIN_FREE_BYTES || size > freeBytes - MIN_FREE_BYTES then Some(DiskReserve)
    else if device >= MAX_DEVICE_ACTIVE then Some(DeviceTasks)
    else if instance >= MAX_INSTANCE_ACTIVE then Some(InstanceTasks)
    else if usedBytes + size > MAX_ARTIFACT_BYTES then Some(ArtifactBudget)
    else None
  }

  // ---------- requests in flight ----------

  datatype Request = Request(owner: Id, device: Id)

  /** A create request on its way: the device count it saw, and whether it has passed. The
      instance is counted by a second query, which may see a later state. */
  datatype Ticket = Ticket(request: Request, size: int, freeBytes: int, deviceCount: nat, passed: bool)

  /** The database, and the create requests between their first count and their insert. */
  datatype Desk = Desk(db: Db, inFlight: map<nat, Ticket>)

  datatype Action =
    | CountDevice(rid: nat, request: Request, size: int, freeBytes: int)
    | CountInstance(rid: nat, usedBytes: int)
    | Insert(rid: nat, op: Op)
    | Abandon(rid: nat)
    | Other(op: Op)

  ghost predicate Enabled(s: Desk, a: Action) {
    match a
    case CountDevice(rid, _, _, _) => rid !in s.inFlight
    case CountInstance(rid, usedBytes) =>
      && rid in s.inFlight
      && var t := s.inFlight[rid];
      !t.passed && Reserve(t.size, t.freeBytes, t.deviceCount, |ActiveTasks(s.db)|, usedBytes).None?
    case Insert(rid, op) =>
      && rid in s.inFlight && s.inFlight[rid].passed
      && op.Create? && op.owner == s.inFlight[rid].request.owner && op.device == s.inFlight[rid].request.device
    case Abandon(rid) => rid in s.inFlight
    case Other(op) => Legal(s.db, op) && !op.Create?
  }

  ghost function After(s: Desk, a: Action): Desk
    requires Enabled(s, a)
  {
    match a
    case CountDevice(rid, request, size, freeBytes) =>
      var count := |ActiveOf(s.db, request.owner, request.device)|;
      s.(inFlight := s.inFlight[rid := Ticket(request, size, freeBytes, count, false)])
    case CountInstance(rid, _) => s.(inFlight := s.inFlight[rid := s.inFlight[rid].(passed := true)])
    case Insert(rid, op) => Desk(Exec(s.db, op).db, s.inFlight - {rid})
    case Abandon(rid) => s.(inFlight := s.inFlight - {rid})
    case Other(op) => s.(db := Exec(s.db, op).db)
  }

  /** A run in which no more than `k` requests are ever between their first count and their
      insert. */
  ghost predicate Trace(s: seq<Desk>, acts: seq<Action>, k: nat) {
    && |s| == |acts| + 1
    && s[0] == Desk(EMPTY, map[])
    && (forall i | 0 <= i < |s| :: |s[i].inFlight| <= k)
    && forall i | 0 <= i < |acts| :: Moves(s[i], acts[i], s[i + 1])
  }

  ghost predicate Moves(before: Desk, a: Action, after: Desk) {
    Enabled(before, a) && after == After(before, a)
  }

  /** The requests for a device that counted fewer than the limit. */
  predicate Hopeful(t: Ticket, request: Request) {
    t.request == request && t.deviceCount < MAX_DEVICE_ACTIVE
  }

  ghost function WaitingFor(inFlight: map<nat, Ticket>, request: Request): set<nat> {
    set rid | rid in inFlight && Hopeful(inFlight[rid], request)
  }

  ghost function Passed(inFlight: map<nat, Ticket>): set<nat> {
    set rid | rid in inFlight && inFlight[rid].passed
  }

  /** Requests in flight spend the margin above the limit before they use it. */
  ghost predicate WithinMargin(s: Desk, k: nat) {
    && DbInv(s.db)
    && (forall rid <- s.inFlight :: s.inFlight[rid].passed ==> s.inFlight[rid].deviceCount < MAX_DEVICE_ACTIVE)
    && |ActiveTasks(s.db)| + |Passed(s.inFlight)| <= MAX_INSTANCE_ACTIVE - 1 + k
    && forall request: Request ::
         |ActiveOf(s.db, request.owner, request.device)| + |WaitingFor(s.inFlight, request)|
         <= MAX_DEVICE_ACTIVE - 1 + k
  }

  // ---------- active tasks only come from creates ----------

  /** Terminal tasks stay terminal, so no transaction but a create adds to the active tasks. */
  lemma ActiveOnlyShrinks(db: Db, op: Op)
    requires DbInv(db) && Legal(db, op) && !op.Create?
    ensures ActiveTasks(Exec(db, op).db) <= ActiveTasks(db)
    ensures forall owner, device :: ActiveOf(Exec(db, op).db, owner, device) <= ActiveOf(db, owner, device)
  {
    RowsKept(db, op);
    forall id <- Exec(db, op).db.tasks
      ensures id in db.tasks && Evolves(db.tasks[id], Exec(db, op).db.tasks[id])
    {
      if id !in db.tasks {
        NewRow(db, op, id);
      }
    }
  }

  lemma CreateAddsOne(db: Db, op: Op)
    requires op.Create?
    ensures ActiveTasks(Exec(db, op).db) <= ActiveTasks(db) + {op.freshId}
    ensures ActiveOf(Exec(db, op).db, op.owner, op.device) <= ActiveOf(db, op.owner, op.device) + {op.freshId}
    ensures forall owner, device | owner != op.owner || device != op.device ::
              ActiveOf(Exec(db, op).db, owner, device) <= ActiveOf(db, owner, device)
  {
  }

  lemma PassedRemoved(inFlight: map<nat, Ticket>, rid: nat)
    requires rid in inFlight
    ensures |Passed(inFlight - {rid})| == |Passed(inFlight)| - if inFlight[rid].passed then 1 else 0
  {
    assert Passed(inFlight - {rid}) == Passed(inFlight) - {rid};
  }

  lemma WaitingRemoved(inFlight: map<nat, Ticket>, rid: nat, request: Request)
    requires rid in inFlight
    ensures |WaitingFor(inFlight - {rid}, request)|
         == |WaitingFor(inFlight, request)| - if Hopeful(inFlight[rid], request) then 1 else 0
  {
    assert WaitingFor(inFlight - {rid}, request) == WaitingFor(inFlight, request) - {rid};
  }

  lemma InsertKeeps(s: Desk, rid: nat, op: Op, k: nat)
    requires WithinMargin(s, k) && Enabled(s, Insert(rid, op))
    ensures WithinMargin(After(s, Insert(rid, op)), k)
  {
    var after := After(s, Insert(rid, op));
    InvStep(s.db, op);
    CreateAddsOne(s.db, op);
    SubsetSmaller(ActiveTasks(after.db), ActiveTasks(s.db) + {op.freshId});
    PassedRemoved(s.inFlight, rid);
    forall request: Request
      ensures |ActiveOf(after.db, request.owner, request.device)| + |WaitingFor(after.inFlight, request)|
              <= MAX_DEVICE_ACTIVE - 1 + k
    {
      WaitingRemoved(s.inFlight, rid, request);
      var extra: set<Id> := if request == s.inFlight[rid].request then {op.freshId} else {};
      SubsetSmaller(ActiveOf(after.db, request.owner, request.device),
                    ActiveOf(s.db, request.owner, request.device) + extra);
    }
  }

  lemma CountedWithin(inFlight: map<nat, Ticket>, request: Request)
    ensures |WaitingFor(inFlight, request)| <= |inFlight| && |Passed(inFlight)| <= |inFlight|
  {
    SubsetSmaller(WaitingFor(inFlight, request), inFlight.Keys);
    SubsetSmaller(Passed(inFlight), inFlight.Keys);
    assert |inFlight.Keys| == |inFlight|;
  }

  /** A new ticket for one device, seen from a device. */
  lemma CountDeviceMargin(inFlight: map<nat, Ticket>, rid: nat, t: Ticket, request: Request, active: nat, k: nat)
    requires |inFlight[rid := t]| <= k
    requires t.request == request ==> t.deviceCount == active
    requires active + |WaitingFor(inFlight, request)| <= MAX_DEVICE_ACTIVE - 1 + k && rid !in inFlight
    ensures active + |WaitingFor(inFlight[rid := t], request)| <= MAX_DEVICE_ACTIVE - 1 + k
  {
    CountedWithin(inFlight[rid := t], request);
    if !Hopeful(t, request) {
      assert WaitingFor(inFlight[rid := t], request) == WaitingFor(inFlight, request);
    }
  }

  lemma CountDeviceKeeps(s: Desk, a: Action, k: nat)
    requires WithinMargin(s, k) && a.CountDevice? && Enabled(s, a) && |After(s, a).inFlight| <= k
    ensures WithinMargin(After(s, a), k)
  {
    var after := After(s, a);
    assert Passed(after.inFlight) == Passed(s.inFlight);
    forall request: Request
      ensures |ActiveOf(s.db, request.owner, request.device)| + |WaitingFor(after.inFlight, request)|
              <= MAX_DEVICE_ACTIVE - 1 + k
    {
      CountDeviceMargin(s.inFlight, a.rid, after.inFlight[a.rid], request,
                        |ActiveOf(s.db, request.owner, request.device)|, k);
    }
  }

  lemma WaitingUnchanged(inFlight: map<nat, Ticket>, rid: nat, request: Request)
    requires rid in inFlight
    ensures WaitingFor(inFlight[rid := inFlight[rid].(passed := true)], request) == WaitingFor(inFlight, request)
  {
  }

  lemma CountInstanceKeeps(s: Desk, a: Action, k: nat)
    requires WithinMargin(s, k) && a.CountInstance? && Enabled(s, a) && |After(s, a).inFlight| <= k
    ensures WithinMargin(After(s, a), k)
  {
    CountedWithin(After(s, a).inFlight, s.inFlight[a.rid].request);
    forall request: Request
      ensures WaitingFor(After(s, a).inFlight, request) == WaitingFor(s.inFlight, request)
    {
      WaitingUnchanged(s.inFlight, a.rid, request);
    }
  }

  lemma AbandonKeeps(s: Desk, rid: nat, k: nat)
    requires WithinMargin(s, k) && Enabled(s, Abandon(rid))
    ensures WithinMargin(After(s, Abandon(rid)), k)
  {
    forall request: Request
      ensures |WaitingFor(s.inFlight - {rid}, request)| <= |WaitingFor(s.inFlight, request)|
    {
      WaitingRemoved(s.inFlight, rid, request);
    }
    PassedRemoved(s.inFlight, rid);
  }

  lemma OtherKeeps(s: Desk, op: Op, k: nat)
    requires WithinMargin(s, k) && Enabled(s, Other(op))
    ensures WithinMargin(After(s, Other(op)), k)
  {
    var after := After(s, Other(op));
    InvStep(s.db, op);
    ActiveOnlyShrinks(s.db, op);
    SubsetSmaller(ActiveTasks(after.db), ActiveTasks(s.db));
    forall request: Request
      ensures |ActiveOf(after.db, request.owner, request.device)| <= |ActiveOf(s.db, request.owner, request.device)|
    {
      SubsetSmaller(ActiveOf(after.db, request.owner, request.device),
                    ActiveOf(s.db, request.owner, request.device));
    }
  }

  lemma StepKeeps(s: Desk, a: Action, k: nat)
    requires WithinMargin(s, k) && Enabled(s, a) && |After(s, a).inFlight| <= k
    ensures WithinMargin(After(s, a), k)
  {
    match a
    case CountDevice(_, _, _, _) => CountDeviceKeeps(s, a, k);
    case CountInstance(_, _) => CountInstanceKeeps(s, a, k);
    case Insert(rid, op) => InsertKeeps(s, rid, op, k);
    case Abandon(rid) => AbandonKeeps(s, rid, k);
    case Other(op) => OtherKeeps(s, op, k);
  }

  lemma StepAtKeeps(s: seq<Desk>, acts: seq<Action>, k: nat, i: nat)
    requires Trace(s, acts, k) && i < |acts| && WithinMargin(s[i], k)
    ensures WithinMargin(s[i + 1], k)
  {
    assert Moves(s[i], acts[i], s[i + 1]);
    StepKeeps(s[i], acts[i], k);
  }

  lemma NothingYet(k: nat)
    ensures WithinMargin(Desk(EMPTY, map[]), k)
  {
    EmptyInv();
    assert ActiveTasks(EMPTY) == {};
    assert Passed(map[]) == {};
    forall request: Request
      ensures ActiveOf(EMPTY, request.owner, request.device) == {} && WaitingFor(map[], request) == {}
    {
    }
  }

  lemma {:induction false} TraceWithinMargin(s: seq<Desk>, acts: seq<Action>, k: nat, i: nat)
    requires Trace(s, acts, k) && i < |s|
    ensures WithinMargin(s[i], k)
  {
    if i == 0 {
      NothingYet(k);
    } else {
      TraceWithinMargin(s, acts, k, i - 1);
      StepAtKeeps(s, acts, k, i - 1);
    }
  }

  /** With at most `k` requests between their first count and their insert, a device never has more than
      10 + (k - 1) tasks that are not over, and the whole server never more than 100 + (k - 1). */
  lemma QuotaUnderRaces(s: seq<Desk>, acts: seq<Action>, k: nat, i: nat, owner: Id, device: Id)
    requires Trace(s, acts, k) && i < |s|
    ensures |ActiveOf(s[i].db, owner, device)| <= MAX_DEVICE_ACTIVE + k - 1
    ensures |ActiveTasks(s[i].db)| <= MAX_INSTANCE_ACTIVE + k - 1
  {
    TraceWithinMargin(s, acts, k, i);
    assert |ActiveOf(s[i].db, Request(owner, device).owner, Request(owner, device).device)|
        + |WaitingFor(s[i].inFlight, Request(owner, device))| <= MAX_DEVICE_ACTIVE - 1 + k;
  }

  // ---------- both bounds are attained ----------

  /** Tasks of one owner, spread over devices: `n` active tasks in all, of which `c` belong to
      device number `d`, the last one used so far. */
  datatype Fill = Fill(owner: Id, first: Id, d: nat, n: nat, c: nat)

  function Device(f: Fill): Id {
    f.first + seq(f.d, _ => '+')
  }

  function RequestOf(f: Fill): Request {
    Request(f.owner, Device(f))
  }

  function NthEnvelope(n: nat): Envelope {
    VisionRequest(JsonText.Digits(n), 86400)
  }

  /** The create that makes task number `n`. */
  function NthCreate(f: Fill): Op {
    Create(f.owner, Device(f), NthEnvelope(f.n), "", JsonText.Digits(f.n), 0.0)
  }

  ghost predicate HasActive(db: Db, f: Fill) {
    && |ActiveTasks(db)| == f.n && |ActiveOf(db, f.owner, Device(f))| == f.c
    && forall id <- db.tasks ::
         && JsonText.DigitsValue(id) < f.n
         && JsonText.DigitsValue(db.tasks[id].envelope.idempotencyKey) < f.n
         && |db.tasks[id].device| <= |f.first| + f.d
  }

  ghost predicate HasPassed(inFlight: map<nat, Ticket>, request: Request, p: nat) {
    && (forall rid: nat :: rid in inFlight <==> rid < p)
    && |inFlight| == p
    && forall rid <- inFlight :: inFlight[rid].passed && inFlight[rid].request == request
  }

  ghost predicate Sends(acts: seq<Action>, n: nat) {
    forall a <- acts | a.Insert? :: a.op.Create? && exists j: nat :: j < n && a.op.envelope == NthEnvelope(j)
  }

  /** A run that has made these tasks, and in which `p` requests of the last device have passed
      the check and not inserted yet. */
  ghost predicate Crowded(s: seq<Desk>, acts: seq<Action>, k: nat, f: Fill, p: nat) {
    && Trace(s, acts, k) && Sends(acts, f.n)
    && HasActive(s[|acts|].db, f)
    && HasPassed(s[|acts|].inFlight, RequestOf(f), p)
  }

  lemma {:induction false} ShorterDigits(j: nat, n: nat)
    requires j <= n
    ensures |JsonText.Digits(j)| <= |JsonText.Digits(n)|
  {
    if j >= 10 {
      ShorterDigits(j / 10, n / 10);
    }
  }

  predicate AllAcceptable(acts: seq<Action>) {
    forall a <- acts | a.Insert? :: a.op.Create? && Acceptable(a.op.envelope)
  }

  lemma NthIsAcceptable(j: nat)
    requires |JsonText.Digits(j)| <= 128
    ensures Acceptable(NthEnvelope(j))
  {
    JsonText.DigitsBack(j);
    assert forall c | JsonText.IsDigit(c) :: KeyChar(c);
  }

  /** The schema lets these requests in as long as their keys are not too long. */
  lemma SentIsAcceptable(acts: seq<Action>, n: nat)
    requires Sends(acts, n) && |JsonText.Digits(n)| <= 128
    ensures AllAcceptable(acts)
  {
    forall a <- acts | a.Insert?
      ensures a.op.Create? && Acceptable(a.op.envelope)
    {
      var j: nat :| j < n && a.op.envelope == NthEnvelope(j);
      ShorterDigits(j, n);
      NthIsAcceptable(j);
    }
  }

  lemma Then(s: seq<Desk>, acts: seq<Action>, k: nat, a: Action) returns (s': seq<Desk>, acts': seq<Action>)
    requires Trace(s, acts, k) && Enabled(s[|acts|], a) && |After(s[|acts|], a).inFlight| <= k
    ensures Trace(s', acts', k) && s' == s + [After(s[|acts|], a)] && acts' == acts + [a]
  {
    s', acts' := s + [After(s[|acts|], a)], acts + [a];
    forall i | 0 <= i < |acts'|
      ensures Moves(s'[i], acts'[i], s'[i + 1])
    {
      if i < |acts| {
        assert Moves(s[i], acts[i], s[i + 1]);
      }
    }
  }

  /** One more request counts its device, then the instance, and passes. */
  lemma RacerPasses(s: seq<Desk>, acts: seq<Action>, k: nat, f: Fill, p: nat)
    returns (s': seq<Desk>, acts': seq<Action>)
    requires Crowded(s, acts, k, f, p) && f.c < MAX_DEVICE_ACTIVE && f.n < MAX_INSTANCE_ACTIVE && p < k
    ensures Crowded(s', acts', k, f, p + 1)
  {
    s', acts' := Then(s, acts, k, CountDevice(p, RequestOf(f), 0, MIN_FREE_BYTES));
    s', acts' := Then(s', acts', k, CountInstance(p, 0));
  }

  lemma OneLess(inFlight: map<nat, Ticket>, request: Request, p: nat)
    requires HasPassed(inFlight, request, p) && p > 0
    ensures HasPassed(inFlight - {p - 1}, request, p - 1)
  {
  }

  /** One of the requests that have passed inserts its task. */
  lemma RacerInserts(s: seq<Desk>, acts: seq<Action>, k: nat, f: Fill, p: nat)
    returns (s': seq<Desk>, acts': seq<Action>)
    requires Crowded(s, acts, k, f, p) && p > 0
    ensures Crowded(s', acts', k, f.(n := f.n + 1, c := f.c + 1), p - 1)
  {
    NewTaskIsActive(s[|acts|].db, f);
    OneLess(s[|acts|].inFlight, RequestOf(f), p);
    s', acts' := Then(s, acts, k, Insert(p - 1, NthCreate(f)));
    assert NthCreate(f).envelope == NthEnvelope(f.n);
  }

  lemma ActiveAfterInsert(db: Db, after: Db, id: Id, t: Task)
    requires id !in db.tasks && after.tasks == db.tasks[id := t] && !Terminal(t.status)
    ensures ActiveTasks(after) == ActiveTasks(db) + {id}
    ensures ActiveOf(after, t.owner, t.device) == ActiveOf(db, t.owner, t.device) + {id}
  {
    assert forall other <- db.tasks :: after.tasks[other] == db.tasks[other];
    assert ActiveTasks(after) == ActiveTasks(db) + {id};
  }

  lemma NthIsNew(db: Db, f: Fill)
    requires HasActive(db, f)
    ensures var op := NthCreate(f);
            && op.freshId !in db.tasks && JsonText.DigitsValue(op.freshId) == f.n
            && !KeyTaken(db, op.owner, op.device, op.envelope.idempotencyKey)
            && JsonText.DigitsValue(op.envelope.idempotencyKey) == f.n
  {
    JsonText.DigitsBack(f.n);
  }

  lemma NthActive(db: Db, after: Db, f: Fill, id: Id, t: Task)
    requires HasActive(db, f) && id !in db.tasks && after.tasks == db.tasks[id := t] && !Terminal(t.status)
    requires t.owner == f.owner && t.device == Device(f)
    requires JsonText.DigitsValue(id) == f.n && JsonText.DigitsValue(t.envelope.idempotencyKey) == f.n
    ensures HasActive(after, f.(n := f.n + 1, c := f.c + 1))
  {
    ActiveAfterInsert(db, after, id, t);
    assert id !in ActiveTasks(db) && id !in ActiveOf(db, f.owner, Device(f));
  }

  lemma NewTaskIsActive(db: Db, f: Fill)
    requires HasActive(db, f)
    ensures HasActive(Exec(db, NthCreate(f)).db, f.(n := f.n + 1, c := f.c + 1))
  {
    var op := NthCreate(f);
    NthIsNew(db, f);
    NthActive(db, AfterCreate(db, op).db, f, op.freshId,
              NewTask(op.owner, op.device, op.envelope, op.digest, op.now));
  }

  /** A device that nobody has used yet. */
  lemma NextDevice(db: Db, f: Fill)
    requires HasActive(db, f)
    ensures HasActive(db, f.(d := f.d + 1, c := 0))
  {
    assert ActiveOf(db, f.owner, Device(f.(d := f.d + 1, c := 0))) == {};
  }

  /** Nine tasks on each of `d` devices, and `c` on the next. */
  lemma {:induction false} Filled(k: nat, owner: Id, first: Id, d: nat, c: nat)
    returns (s: seq<Desk>, acts: seq<Action>)
    requires k > 0 && c < MAX_DEVICE_ACTIVE && 9 * d + c < MAX_INSTANCE_ACTIVE
    ensures Crowded(s, acts, k, Fill(owner, first, d, 9 * d + c, c), 0)
    decreases d, c
  {
    if c > 0 {
      var f := Fill(owner, first, d, 9 * d + (c - 1), c - 1);
      s, acts := Filled(k, owner, first, d, c - 1);
      s, acts := RacerPasses(s, acts, k, f, 0);
      s, acts := RacerInserts(s, acts, k, f, 1);
    } else if d > 0 {
      s, acts := Filled(k, owner, first, d - 1, 9);
      NextDevice(s[|acts|].db, Fill(owner, first, d - 1, 9 * d, 9));
    } else {
      s, acts := [Desk(EMPTY, map[])], [];
      assert ActiveTasks(EMPTY) == {} && ActiveOf(EMPTY, owner, Device(Fill(owner, first, 0, 0, 0))) == {};
    }
  }

  lemma {:induction false} AllPass(k: nat, owner: Id, first: Id, d: nat, c: nat, p: nat)
    returns (s: seq<Desk>, acts: seq<Action>)
    requires 0 < k && p <= k && c < MAX_DEVICE_ACTIVE && 9 * d + c < MAX_INSTANCE_ACTIVE
    ensures Crowded(s, acts, k, Fill(owner, first, d, 9 * d + c, c), p)
    decreases p
  {
    if p == 0 {
      s, acts := Filled(k, owner, first, d, c);
    } else {
      s, acts := AllPass(k, owner, first, d, c, p - 1);
      s, acts := RacerPasses(s, acts, k, Fill(owner, first, d, 9 * d + c, c), p - 1);
    }
  }

  lemma {:induction false} AllInsert(s: seq<Desk>, acts: seq<Action>, k: nat, f: Fill, p: nat)
    returns (s': seq<Desk>, acts': seq<Action>)
    requires Crowded(s, acts, k, f, p)
    ensures Crowded(s', acts', k, f.(n := f.n + p, c := f.c + p), 0)
    decreases p
  {
    if p == 0 {
      s', acts' := s, acts;
    } else {
      s', acts' := RacerInserts(s, acts, k, f, p);
      s', acts' := AllInsert(s', acts', k, f.(n := f.n + 1, c := f.c + 1), p - 1);
    }
  }

  /** The device's bound is exact, and the margin above the limit is real: for every `k` and every
      device there is a run with no more than `k` requests in flight after which the device has
      10 + (k - 1) active tasks. All `k` count nine, and all pass. The schema lets every request in
      (up to the length of its key, which counts the tasks). */
  lemma BoundIsAttained(k: nat, owner: Id, device: Id) returns (s: seq<Desk>, acts: seq<Action>)
    requires k > 0
    ensures Trace(s, acts, k)
    ensures |ActiveOf(s[|acts|].db, owner, device)| == MAX_DEVICE_ACTIVE + k - 1
    ensures |JsonText.Digits(MAX_DEVICE_ACTIVE + k)| <= 128 ==> AllAcceptable(acts)
  {
    var f := Fill(owner, device, 0, 9, 9);
    s, acts := AllPass(k, owner, device, 0, 9, k);
    s, acts := AllInsert(s, acts, k, f, k);
    assert Device(f) == device;
    ShorterDigits(9 + k, MAX_DEVICE_ACTIVE + k);
    if |JsonText.Digits(MAX_DEVICE_ACTIVE + k)| <= 128 {
      SentIsAcceptable(acts, 9 + k);
    }
  }

  /** So is the bound of the instance: with nine tasks on each of eleven devices, `k` requests of a
      twelfth all count 99, and all pass. */
  lemma InstanceBoundIsAttained(k: nat, owner: Id, device: Id) returns (s: seq<Desk>, acts: seq<Action>)
    requires k > 0
    ensures Trace(s, acts, k)
    ensures |ActiveTasks(s[|acts|].db)| == MAX_INSTANCE_ACTIVE + k - 1
    ensures |JsonText.Digits(MAX_INSTANCE_ACTIVE + k)| <= 128 ==> AllAcceptable(acts)
  {
    s, acts := AllPass(k, owner, device, 11, 0, k);
    s, acts := AllInsert(s, acts, k, Fill(owner, device, 11, 99, 0), k);
    ShorterDigits(99 + k, MAX_INSTANCE_ACTIVE + k);
    if |JsonText.Digits(MAX_INSTANCE_ACTIVE + k)| <= 128 {
      SentIsAcceptable(acts, 99 + k);
    }
  }

  // ---------- the whole endpoint ----------

  datatype Answer = Refused(why: Refusal) | Replied(reply: Reply)

  /** What a create request is answered with when nothing comes between its check and its insert. */
  ghost function CreateAnswer(db: Db, op: Op, size: int, freeBytes: int, usedBytes: int): Answer
    requires op.Create?
  {
    var check := Reserve(size, freeBytes, |ActiveOf(db, op.owner, op.device)|, |ActiveTasks(db)|, usedBytes);
    if check.Some? then Refused(check.value) else Replied(Exec(db, op).reply)
  }

  /** Exactly when a repeated create gets its task back. The check comes first and counts the task
      itself, as long as it is not over: a device at its limit, or a server at its limit or short of
      space, refuses the replay of a request that it has already accepted. Nothing is changed either
      way. */
  lemma ReplayAnsweredIff(s: seq<Db>, ops: seq<Op>, i: nat, op: Op, size: int, freeBytes: int, usedBytes: int)
    requires Behavior(s, ops) && i < |ops| && ops[i].Create? && Exec(s[i], ops[i]).reply.Row?
    requires op.Create? && op.owner == ops[i].owner && op.device == ops[i].device
    requires op.envelope.idempotencyKey == ops[i].envelope.idempotencyKey && op.digest == ops[i].digest
    ensures var db := s[|ops|];
            && KeyTaken(db, op.owner, op.device, op.envelope.idempotencyKey)
            && Exec(db, op).db == db
            && var id := KeyHolder(db, op.owner, op.device, op.envelope.idempotencyKey);
            && (CreateAnswer(db, op, size, freeBytes, usedBytes) == Replied(Row(db.tasks[id]))
                <==> && 0 <= size <= freeBytes - MIN_FREE_BYTES
                     && |ActiveOf(db, op.owner, op.device)| < MAX_DEVICE_ACTIVE
                     && |ActiveTasks(db)| < MAX_INSTANCE_ACTIVE
                     && usedBytes + size <= MAX_ARTIFACT_BYTES)
  {
    var s', ops' := Extended(s, ops, op);
    assert s'[i] == s[i] && ops'[i] == ops[i] && s'[i + 1] == s[i + 1] && s'[|ops|] == s[|ops|];
    CreateIsIdempotent(s', ops', i, |ops|);
  }

  /** Such a refusal happens to every device: it creates ten tasks, one after the other, and repeats
      the last request. */
  lemma ReplayRefusedAtLimit(owner: Id, device: Id) returns (s: seq<Desk>, acts: seq<Action>, op: Op)
    ensures Trace(s, acts, 1) && AllAcceptable(acts)
    ensures acts != [] && acts[|acts| - 1] == Insert(0, op) && op.Create? && op.owner == owner && op.device == device
    ensures Exec(s[|acts| - 1].db, op).reply.Row?
    ensures Exec(s[|acts|].db, op) == Outcome(s[|acts|].db, Exec(s[|acts| - 1].db, op).reply)
    ensures CreateAnswer(s[|acts|].db, op, 0, MIN_FREE_BYTES, 0) == Refused(DeviceTasks)
  {
    s, acts, op := TenthInserts(owner, device);
    RepeatAtLimit(s[|acts| - 1].db, Nine(owner, device));
  }

  lemma TenthInserts(owner: Id, device: Id) returns (s: seq<Desk>, acts: seq<Action>, op: Op)
    ensures Trace(s, acts, 1) && AllAcceptable(acts)
    ensures acts != [] && acts[|acts| - 1] == Insert(0, op) && op == NthCreate(Nine(owner, device))
    ensures Device(Nine(owner, device)) == device && HasActive(s[|acts| - 1].db, Nine(owner, device))
    ensures s[|acts|].db == Exec(s[|acts| - 1].db, op).db
  {
    op := NthCreate(Nine(owner, device));
    var s0, acts0 := TenthPasses(owner, device);
    s, acts := Then(s0, acts0, 1, Insert(0, op));
    assert s[|acts0|] == s0[|acts0|];
  }

  function Nine(owner: Id, device: Id): Fill {
    Fill(owner, device, 0, 9, 9)
  }

  lemma TenthPasses(owner: Id, device: Id) returns (s: seq<Desk>, acts: seq<Action>)
    ensures Trace(s, acts, 1) && AllAcceptable(acts)
    ensures Enabled(s[|acts|], Insert(0, NthCreate(Nine(owner, device)))) && s[|acts|].inFlight.Keys == {0}
    ensures Acceptable(NthCreate(Nine(owner, device)).envelope) && Device(Nine(owner, device)) == device
    ensures HasActive(s[|acts|].db, Nine(owner, device))
  {
    var f := Nine(owner, device);
    s, acts := Filled(1, owner, device, 0, 9);
    s, acts := RacerPasses(s, acts, 1, f, 0);
    assert Device(f) == device;
    assert 0 in s[|acts|].inFlight;
    NineAcceptable(acts, f);
  }

  lemma NineAcceptable(acts: seq<Action>, f: Fill)
    requires Sends(acts, 9) && f.n == 9
    ensures AllAcceptable(acts) && Acceptable(NthCreate(f).envelope)
  {
    NthIsAcceptable(9);
    SentIsAcceptable(acts, 9);
  }

  lemma RepeatAtLimit(db: Db, f: Fill)
    requires HasActive(db, f) && f.c == MAX_DEVICE_ACTIVE - 1
    ensures var op := NthCreate(f); var out := Exec(db, op);
            && out.reply.Row? && Exec(out.db, op) == out
            && CreateAnswer(out.db, op, 0, MIN_FREE_BYTES, 0) == Refused(DeviceTasks)
  {
    NthRepeats(db, f);
    NewTaskIsActive(db, f);
  }

  /** Sent again at once, a create finds its own row. */
  lemma NthRepeats(db: Db, f: Fill)
    requires HasActive(db, f)
    ensures Exec(db, NthCreate(f)).reply.Row?
    ensures var out := Exec(db, NthCreate(f)); Exec(out.db, NthCreate(f)) == out
  {
    var op := NthCreate(f);
    NthIsNew(db, f);
    var after := Exec(db, op).db;
    assert SameKey(after.tasks[op.freshId], op.owner, op.device, op.envelope.idempotencyKey);
    assert KeyHolder(after, op.owner, op.device, op.envelope.idempotencyKey) == op.freshId;
  }
}
