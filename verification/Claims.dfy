/** The claim query sees 32 rows. What a Worker that keeps polling at one instant receives, and
    exactly when the window hides a task it could run. */
module Claims {
  import opened Records
  import opened TaskTable
  import opened RowProtocol
  import opened Runs

  ghost function EligibleSet(db: Db, now: Time): set<Id> {
    set id | id in db.tasks && Eligible(db.tasks[id], now)
  }

  /** The eligible tasks that these capabilities can run. */
  ghost function Runnable(db: Db, capabilities: seq<Capability>, now: Time): set<Id> {
    set id | id in EligibleSet(db, now) && FirstFit(db.tasks[id], capabilities).Some?
  }

  /** The eligible tasks that only take up room in the window. */
  ghost function Clutter(db: Db, capabilities: seq<Capability>, now: Time): set<Id> {
    EligibleSet(db, now) - Runnable(db, capabilities, now)
  }

  /** Clutter at least as old as a given task. */
  ghost function ClutterBefore(db: Db, capabilities: seq<Capability>, now: Time, id: Id): set<Id>
    requires id in db.tasks
  {
    set e | e in Clutter(db, capabilities, now) && db.tasks[e].createdAt <= db.tasks[id].createdAt
  }

  lemma {:induction false} DistinctFit(w: seq<Id>, room: set<Id>)
    requires forall i, j | 0 <= i < j < |w| :: w[i] != w[j]
    requires forall id <- w :: id in room
    ensures |w| <= |room|
  {
    if w != [] {
      assert forall id <- w[1..] :: id in room - {w[0]};
      DistinctFit(w[1..], room - {w[0]});
    }
  }

  lemma {:induction false} DistinctCover(w: seq<Id>, part: set<Id>)
    requires forall id <- part :: id in w
    ensures |part| <= |w|
  {
    if w == [] {
      assert part == {};
    } else {
      DistinctCover(w[1..], part - {w[0]});
    }
  }

  // ---------- one claim ----------

  /** "No task" means exactly that nothing in the window can be run, and changes nothing. */
  lemma NoTaskMeansNoneInWindow(db: Db, op: Op)
    requires op.Claim? && Legal(db, op)
    ensures Exec(db, op).reply.NoTask? <==> forall id <- op.window :: id !in Runnable(db, op.capabilities, op.now)
    ensures Exec(db, op).reply.NoTask? ==> Exec(db, op).db == db
  {
    PickIsFirst(db, op.capabilities, op.window);
  }

  /** A grant goes to an oldest runnable task. */
  lemma GrantGoesToOldest(db: Db, op: Op)
    requires op.Claim? && Legal(db, op) && Exec(db, op).reply.Granted?
    ensures var id := Exec(db, op).reply.lease.taskId;
            && id in Runnable(db, op.capabilities, op.now)
            && forall other <- Runnable(db, op.capabilities, op.now) ::
                 db.tasks[id].createdAt <= db.tasks[other].createdAt
  {
    PickIsFirst(db, op.capabilities, op.window);
    var id := Exec(db, op).reply.lease.taskId;
    var k :| 0 <= k < |op.window| && op.window[k] == id
      && forall j | 0 <= j < k :: FirstFit(db.tasks[op.window[j]], op.capabilities).None?;
    forall other <- Runnable(db, op.capabilities, op.now)
      ensures db.tasks[id].createdAt <= db.tasks[other].createdAt
    {
      if other in op.window {
        var m :| 0 <= m < |op.window| && op.window[m] == other;
        assert k <= m;
      }
    }
  }

  /** The rows after a grant. */
  lemma GrantedRow(db: Db, op: Op)
    requires op.Claim? && Legal(db, op) && Exec(db, op).reply.Granted?
    ensures var id := Exec(db, op).reply.lease.taskId;
            && id in Runnable(db, op.capabilities, op.now)
            && var u := Exec(db, op).db.tasks[id];
            && Exec(db, op).db.tasks == db.tasks[id := u]
            && u.status.Leased? && u.createdAt == db.tasks[id].createdAt
  {
    PickIsFirst(db, op.capabilities, op.window);
  }

  lemma PoolAfterGrant(db: Db, after: Db, capabilities: seq<Capability>, now: Time, id: Id, u: Task)
    requires id in Runnable(db, capabilities, now) && !u.status.Queued?
    requires after.tasks == db.tasks[id := u]
    ensures Runnable(after, capabilities, now) == Runnable(db, capabilities, now) - {id}
    ensures Clutter(after, capabilities, now) == Clutter(db, capabilities, now)
  {
  }

  /** A grant takes its task out of the pool and leaves every other row alone. */
  lemma GrantTakesOne(db: Db, op: Op)
    requires op.Claim? && Legal(db, op) && Exec(db, op).reply.Granted?
    ensures var id := Exec(db, op).reply.lease.taskId;
            var after := Exec(db, op).db;
            && id in after.tasks
            && Runnable(after, op.capabilities, op.now) == Runnable(db, op.capabilities, op.now) - {id}
            && Clutter(after, op.capabilities, op.now) == Clutter(db, op.capabilities, op.now)
            && after.tasks.Keys == db.tasks.Keys
            && (forall other <- db.tasks | other != id :: after.tasks[other] == db.tasks[other])
            && after.tasks[id].createdAt == db.tasks[id].createdAt
  {
    GrantedRow(db, op);
    var id := Exec(db, op).reply.lease.taskId;
    var after := Exec(db, op).db;
    PoolAfterGrant(db, after, op.capabilities, op.now, id, after.tasks[id]);
  }

  /** With at most 31 rows of clutter in the way of some runnable task, a claim succeeds. */
  lemma LittleClutterMeansGrant(db: Db, op: Op, id: Id)
    requires op.Claim? && Legal(db, op) && id in Runnable(db, op.capabilities, op.now)
    requires |ClutterBefore(db, op.capabilities, op.now, id)| < CLAIM_WINDOW
    ensures Exec(db, op).reply.Granted?
  {
    NoTaskMeansNoneInWindow(db, op);
    PickIsFirst(db, op.capabilities, op.window);
    if Exec(db, op).reply.NoTask? {
      assert id !in op.window && id in db.tasks && Eligible(db.tasks[id], op.now);
      assert forall e <- op.window :: e in ClutterBefore(db, op.capabilities, op.now, id);
      DistinctFit(op.window, ClutterBefore(db, op.capabilities, op.now, id));
    }
  }

  // ---------- draining the queue ----------

  /** What a poll does to the pool of runnable tasks: it takes out an oldest one, or finds none. */
  ghost predicate PollEffect(before: Db, after: Db, answer: Option<Id>, capabilities: seq<Capability>, now: Time) {
    var pool := Runnable(before, capabilities, now);
    && Clutter(after, capabilities, now) == Clutter(before, capabilities, now)
    && (forall id <- pool :: id in after.tasks && after.tasks[id].createdAt == before.tasks[id].createdAt)
    && match answer
       case None => pool == {} && Runnable(after, capabilities, now) == {}
       case Some(id) =>
         && id in pool && Runnable(after, capabilities, now) == pool - {id}
         && forall other <- pool :: before.tasks[id].createdAt <= before.tasks[other].createdAt
  }

  /** The task a claim hands out, if any. */
  ghost function Answer(db: Db, op: Op): Option<Id>
    requires op.Claim? && Legal(db, op)
  {
    var reply := Exec(db, op).reply;
    if reply.Granted? then Some(reply.lease.taskId) else None
  }

  lemma NoTaskMeansDrained(db: Db, op: Op)
    requires op.Claim? && Legal(db, op) && |Clutter(db, op.capabilities, op.now)| < CLAIM_WINDOW
    requires Exec(db, op).reply.NoTask?
    ensures Runnable(db, op.capabilities, op.now) == {}
  {
    if id :| id in Runnable(db, op.capabilities, op.now) {
      SubsetSmaller(ClutterBefore(db, op.capabilities, op.now, id), Clutter(db, op.capabilities, op.now));
      LittleClutterMeansGrant(db, op, id);
    }
  }

  lemma PollHasEffect(db: Db, op: Op)
    requires op.Claim? && Legal(db, op) && |Clutter(db, op.capabilities, op.now)| < CLAIM_WINDOW
    ensures PollEffect(db, Exec(db, op).db, Answer(db, op), op.capabilities, op.now)
  {
    NoTaskMeansNoneInWindow(db, op);
    if Exec(db, op).reply.Granted? {
      GrantEffect(db, op);
    } else {
      NoTaskMeansDrained(db, op);
    }
  }

  lemma GrantEffect(db: Db, op: Op)
    requires op.Claim? && Legal(db, op) && Exec(db, op).reply.Granted?
    ensures PollEffect(db, Exec(db, op).db, Some(Exec(db, op).reply.lease.taskId), op.capabilities, op.now)
  {
    GrantGoesToOldest(db, op);
    GrantTakesOne(db, op);
  }

  /** A Worker polling again and again at one instant, nothing else happening, and the task each
      poll is answered with. */
  ghost predicate Polling(s: seq<Db>, answers: seq<Option<Id>>, capabilities: seq<Capability>, now: Time) {
    && |s| == |answers| + 1
    && forall i | 0 <= i < |answers| :: Poll(s[i], s[i + 1], answers[i], capabilities, now)
  }

  ghost predicate Poll(before: Db, after: Db, answer: Option<Id>, capabilities: seq<Capability>, now: Time) {
    exists worker, token, window ::
      var op := Claim(worker, capabilities, token, window, now);
      Step(before, op, after) && answer == Answer(before, op)
  }

  /** A pool from which the oldest member is taken, one at a time, until it is empty. */
  ghost predicate Takes(pools: seq<set<Id>>, answers: seq<Option<Id>>, age: map<Id, Time>) {
    && |pools| == |answers| + 1
    && pools[0] == age.Keys
    && forall i | 0 <= i < |answers| :: TakesOne(pools[i], pools[i + 1], answers[i], age)
  }

  ghost predicate TakesOne(pool: set<Id>, rest: set<Id>, answer: Option<Id>, age: map<Id, Time>) {
    match answer
    case None => pool == {} && rest == {}
    case Some(id) =>
      && id in pool && rest == pool - {id} && pool <= age.Keys
      && forall other <- pool :: age[id] <= age[other]
  }

  lemma {:induction false} TakenCount(pools: seq<set<Id>>, answers: seq<Option<Id>>, age: map<Id, Time>, i: nat)
    requires Takes(pools, answers, age) && i <= |answers|
    ensures |pools[i]| == if i <= |age| then |age| - i else 0
    ensures forall j | 0 <= j < i :: answers[j].Some? <==> j < |age|
  {
    if i > 0 {
      TakenCount(pools, answers, age, i - 1);
      assert TakesOne(pools[i - 1], pools[i], answers[i - 1], age);
    } else {
      assert |pools[0]| == |age|;
    }
  }

  lemma {:induction false} Taken(pools: seq<set<Id>>, answers: seq<Option<Id>>, age: map<Id, Time>, i: nat)
    requires Takes(pools, answers, age) && i <= |answers|
    ensures pools[i] <= age.Keys
    ensures forall id <- age :: id in pools[i] <==> Some(id) !in answers[..i]
    ensures forall j | 0 <= j < i && answers[j].Some? :: answers[j].value in age
    ensures forall j | 0 <= j < i && answers[j].Some? ::
              forall id <- pools[i] :: age[answers[j].value] <= age[id]
  {
    if i > 0 {
      Taken(pools, answers, age, i - 1);
      assert TakesOne(pools[i - 1], pools[i], answers[i - 1], age);
      assert answers[..i] == answers[..i - 1] + [answers[i - 1]];
    }
  }

  lemma EffectAt(s: seq<Db>, answers: seq<Option<Id>>, capabilities: seq<Capability>, now: Time, i: nat)
    requires Polling(s, answers, capabilities, now) && i < |answers|
    requires |Clutter(s[i], capabilities, now)| < CLAIM_WINDOW
    ensures PollEffect(s[i], s[i + 1], answers[i], capabilities, now)
  {
    assert Poll(s[i], s[i + 1], answers[i], capabilities, now);
    var worker, token, window :|
      var op := Claim(worker, capabilities, token, window, now);
      Step(s[i], op, s[i + 1]) && answers[i] == Answer(s[i], op);
    PollHasEffect(s[i], Claim(worker, capabilities, token, window, now));
  }

  lemma {:induction false} DrainFrame(s: seq<Db>, answers: seq<Option<Id>>, capabilities: seq<Capability>,
                                      now: Time, i: nat)
    requires Polling(s, answers, capabilities, now) && i <= |answers|
    requires |Clutter(s[0], capabilities, now)| < CLAIM_WINDOW
    ensures Clutter(s[i], capabilities, now) == Clutter(s[0], capabilities, now)
    ensures forall id <- Runnable(s[i], capabilities, now) ::
              id in Runnable(s[0], capabilities, now) && s[i].tasks[id].createdAt == s[0].tasks[id].createdAt
  {
    if i > 0 {
      DrainFrame(s, answers, capabilities, now, i - 1);
      EffectAt(s, answers, capabilities, now, i - 1);
    }
  }

  ghost function Ages(db: Db, capabilities: seq<Capability>, now: Time): map<Id, Time> {
    map id | id in Runnable(db, capabilities, now) :: db.tasks[id].createdAt
  }

  lemma DrainTakes(s: seq<Db>, answers: seq<Option<Id>>, capabilities: seq<Capability>, now: Time)
    requires Polling(s, answers, capabilities, now)
    requires |Clutter(s[0], capabilities, now)| < CLAIM_WINDOW
    ensures Takes(seq(|s|, i requires 0 <= i < |s| => Runnable(s[i], capabilities, now)), answers,
                  Ages(s[0], capabilities, now))
  {
    forall i | 0 <= i < |answers|
      ensures TakesOne(Runnable(s[i], capabilities, now), Runnable(s[i + 1], capabilities, now), answers[i],
                       Ages(s[0], capabilities, now))
    {
      DrainFrame(s, answers, capabilities, now, i);
      EffectAt(s, answers, capabilities, now, i);
    }
  }

  /** Draining. With at most 31 rows of clutter, repeated polls hand out every runnable task
      exactly once, oldest first, and only then answer that there is no task. */
  lemma Drain(s: seq<Db>, answers: seq<Option<Id>>, capabilities: seq<Capability>, now: Time)
    requires Polling(s, answers, capabilities, now)
    requires |Clutter(s[0], capabilities, now)| < CLAIM_WINDOW
    ensures forall i | 0 <= i < |answers| :: answers[i].Some? <==> i < |Runnable(s[0], capabilities, now)|
    ensures forall i | 0 <= i < |answers| && answers[i].Some? ::
              answers[i].value in Runnable(s[0], capabilities, now)
    ensures forall i, j | 0 <= i < j < |answers| && answers[i].Some? && answers[j].Some? ::
              && answers[i] != answers[j]
              && s[0].tasks[answers[i].value].createdAt <= s[0].tasks[answers[j].value].createdAt
    ensures |Runnable(s[0], capabilities, now)| <= |answers| ==>
              forall id <- Runnable(s[0], capabilities, now) :: Some(id) in answers
  {
    var age := Ages(s[0], capabilities, now);
    var pools := seq(|s|, i requires 0 <= i < |s| => Runnable(s[i], capabilities, now));
    DrainTakes(s, answers, capabilities, now);
    assert age.Keys == Runnable(s[0], capabilities, now);
    TakenCount(pools, answers, age, |answers|);
    Taken(pools, answers, age, |answers|);
    assert answers[..|answers|] == answers;
    forall i, j | 0 <= i < j < |answers| && answers[i].Some? && answers[j].Some?
      ensures answers[i] != answers[j] && age[answers[i].value] <= age[answers[j].value]
    {
      Taken(pools, answers, age, j);
      assert TakesOne(pools[j], pools[j + 1], answers[j], age);
      assert answers[..j][i] == answers[i];
    }
  }

  // ---------- starvation ----------

  /** A window restricted to some of the eligible rows exists, of any size up to 32. */
  lemma {:induction false} Selection(db: Db, pool: set<Id>, n: nat) returns (w: seq<Id>)
    requires pool <= db.tasks.Keys && n <= |pool|
    ensures |w| == n && forall id <- w :: id in pool
    ensures forall i, j | 0 <= i < j < n :: w[i] != w[j] && db.tasks[w[i]].createdAt <= db.tasks[w[j]].createdAt
    ensures forall e <- w, id <- pool | id !in w :: db.tasks[e].createdAt <= db.tasks[id].createdAt
  {
    if n == 0 {
      w := [];
    } else {
      var v := Selection(db, pool, n - 1);
      var rest := set id | id in pool && id !in v;
      if rest == {} {
        forall id <- pool
          ensures id in v
        {
          assert id !in rest;
        }
        DistinctCover(v, pool);
      } else {
        var oldest := Oldest(db, rest);
        w := v + [oldest];
      }
    }
  }

  lemma {:induction false} Oldest(db: Db, pool: set<Id>) returns (oldest: Id)
    requires pool != {} && pool <= db.tasks.Keys
    ensures oldest in pool && forall id <- pool :: db.tasks[oldest].createdAt <= db.tasks[id].createdAt
    decreases |pool|
  {
    var first :| first in pool;
    oldest := first;
    if pool != {first} {
      var other := Oldest(db, pool - {first});
      if db.tasks[other].createdAt < db.tasks[first].createdAt {
        oldest := other;
      }
      assert forall id <- pool :: id == first || id in pool - {first};
    }
  }

  /** When every runnable task has at least 32 rows of clutter as old as itself, the query may
      return a window without any of them. */
  lemma ClutterFillsWindow(db: Db, capabilities: seq<Capability>, now: Time) returns (w: seq<Id>)
    requires forall id <- Runnable(db, capabilities, now) ::
               |ClutterBefore(db, capabilities, now, id)| >= CLAIM_WINDOW
    ensures IsWindow(db, now, w) && Pick(db, capabilities, w).None?
  {
    var clutter := Clutter(db, capabilities, now);
    w := Selection(db, clutter, if |clutter| < CLAIM_WINDOW then |clutter| else CLAIM_WINDOW);
    forall id <- db.tasks | Eligible(db.tasks[id], now) && id !in w
      ensures |w| == CLAIM_WINDOW && forall e <- w :: db.tasks[e].createdAt <= db.tasks[id].createdAt
    {
      if id in clutter {
        DistinctCoverStrict(w, clutter, id);
      } else {
        var before := ClutterBefore(db, capabilities, now, id);
        assert id in Runnable(db, capabilities, now);
        SubsetSmaller(before, clutter);
        forall e <- w
          ensures db.tasks[e].createdAt <= db.tasks[id].createdAt
        {
          if e !in before && forall x <- before :: x in w {
            DistinctCover(w, before + {e});
          }
        }
      }
    }
    PickIsFirst(db, capabilities, w);
  }

  lemma DistinctCoverStrict(w: seq<Id>, pool: set<Id>, id: Id)
    requires forall i, j | 0 <= i < j < |w| :: w[i] != w[j]
    requires forall e <- w :: e in pool
    requires id in pool && id !in w
    ensures |w| < |pool|
  {
    DistinctFit(w, pool - {id});
  }

  /** Exactly when the window cannot hide the work: a claim by these capabilities is granted
      whatever rows SQLite returns among equally old ones, if and only if some runnable task has
      at most 31 rows of clutter that are as old as it. */
  lemma SureGrantIff(db: Db, capabilities: seq<Capability>, now: Time)
    ensures (forall w | IsWindow(db, now, w) :: Pick(db, capabilities, w).Some?)
            <==> exists id <- Runnable(db, capabilities, now) ::
                   |ClutterBefore(db, capabilities, now, id)| < CLAIM_WINDOW
  {
    if id :| id in Runnable(db, capabilities, now) && |ClutterBefore(db, capabilities, now, id)| < CLAIM_WINDOW {
      forall w | IsWindow(db, now, w)
        ensures Pick(db, capabilities, w).Some?
      {
        LittleClutterMeansGrant(db, Claim("", capabilities, "", w, now), id);
      }
    } else {
      var w := ClutterFillsWindow(db, capabilities, now);
    }
  }

  /** One poll. Behind 32 strictly older rows of clutter no runnable task is handed out, whatever
      the order of ties, and nothing changes. */
  lemma Starvation(db: Db, op: Op, blockers: set<Id>)
    requires op.Claim? && Legal(db, op)
    requires blockers <= Clutter(db, op.capabilities, op.now) && |blockers| >= CLAIM_WINDOW
    requires forall b <- blockers, id <- Runnable(db, op.capabilities, op.now) ::
               db.tasks[b].createdAt < db.tasks[id].createdAt
    ensures Exec(db, op) == Outcome(db, NoTask)
  {
    NoTaskMeansNoneInWindow(db, op);
    forall id <- op.window
      ensures id !in Runnable(db, op.capabilities, op.now)
    {
      if id in Runnable(db, op.capabilities, op.now) {
        forall b <- blockers
          ensures b in op.window
        {
          assert b in db.tasks && Eligible(db.tasks[b], op.now);
        }
        DistinctCover(op.window, blockers + {id});
      }
    }
  }

  // ---------- starvation over a run ----------

  /** What the waiting task has in front of it at a given time: 32 queued and unexpired tasks, all
      older, none of which fits. */
  ghost predicate Blocked(db: Db, capabilities: seq<Capability>, now: Time, blockers: set<Id>, id: Id) {
    && id in db.tasks && |blockers| >= CLAIM_WINDOW
    && forall b <- blockers ::
         && b in db.tasks && Eligible(db.tasks[b], now)
         && db.tasks[b].createdAt < db.tasks[id].createdAt
         && FirstFit(db.tasks[b], capabilities).None?
  }

  lemma BlockersFillWindow(db: Db, op: Op, blockers: set<Id>, id: Id)
    requires op.Claim? && Legal(db, op) && Blocked(db, op.capabilities, op.now, blockers, id)
    ensures id !in op.window
  {
    if id in op.window {
      forall b <- blockers
        ensures b in op.window
      {
        assert b in db.tasks && Eligible(db.tasks[b], op.now);
      }
      DistinctCover(op.window, blockers + {id});
    }
  }

  /** A claim does not touch a task outside its window. */
  lemma OutsideWindow(db: Db, op: Op, id: Id)
    requires op.Claim? && Legal(db, op) && id in db.tasks && id !in op.window
    ensures Exec(db, op).db.tasks[id] == db.tasks[id]
  {
    PickIsFirst(db, op.capabilities, op.window);
  }

  /** The step leaves queued tasks in the way: a claim whose capabilities fit none of them, at a
      time when all of them are eligible; a sweep before any of them expires; any cancellation but
      theirs; anything else. */
  ghost predicate Spares(op: Op, blockers: map<Id, Task>) {
    match op
    case Claim(_, capabilities, _, _, now) =>
      forall b <- blockers :: FirstFit(blockers[b], capabilities).None? && Eligible(blockers[b], now)
    case Sweep(now) => forall b <- blockers :: blockers[b].expiresAt > now
    case Cancel(_, id, _) => id !in blockers
    case _ => true
  }

  /** A queued row stays as it is through everything else. */
  lemma QueuedStays(db: Db, op: Op, blockers: map<Id, Task>, b: Id)
    requires Legal(db, op) && Spares(op, blockers)
    requires b in blockers && b in db.tasks && db.tasks[b] == blockers[b] && blockers[b].status.Queued?
    ensures b in Exec(db, op).db.tasks && Exec(db, op).db.tasks[b] == blockers[b]
  {
    if op.Claim? {
      PickIsFirst(db, op.capabilities, op.window);
    }
  }

  /** The rows in the way are the same ones throughout. */
  lemma {:induction false} BlockersStay(s: seq<Db>, ops: seq<Op>, i: nat, j: nat, blockers: map<Id, Task>)
    requires Behavior(s, ops) && i <= j < |s|
    requires forall b <- blockers :: b in s[i].tasks && s[i].tasks[b] == blockers[b] && blockers[b].status.Queued?
    requires forall m | i <= m < j :: Spares(ops[m], blockers)
    ensures forall b <- blockers :: b in s[j].tasks && s[j].tasks[b] == blockers[b]
    decreases j
  {
    if i < j {
      BlockersStay(s, ops, i, j - 1, blockers);
      assert Step(s[j - 1], ops[j - 1], s[j]);
      forall b <- blockers
        ensures b in s[j].tasks && s[j].tasks[b] == blockers[b]
      {
        QueuedStays(s[j - 1], ops[j - 1], blockers, b);
      }
    }
  }

  /** Starvation over a run. As long as no Worker that polls can serve any of 32 older queued tasks,
      and none of those expires or is cancelled, the task behind them is not leased, whatever else
      happens and however many Workers that could run it keep polling. */
  lemma {:induction false} StarvedBehindBlockers(s: seq<Db>, ops: seq<Op>, i: nat, j: nat,
                                                 blockers: map<Id, Task>, id: Id)
    requires Behavior(s, ops) && i <= j < |s|
    requires id in s[i].tasks && s[i].tasks[id].status.Queued? && |blockers| >= CLAIM_WINDOW
    requires forall b <- blockers :: b in s[i].tasks && s[i].tasks[b] == blockers[b]
               && blockers[b].status.Queued? && blockers[b].createdAt < s[i].tasks[id].createdAt
    requires forall m | i <= m < j :: Spares(ops[m], blockers)
    ensures id in s[j].tasks && s[j].tasks[id].leaseGeneration == s[i].tasks[id].leaseGeneration
    ensures !Held(s[j].tasks[id].status)
    decreases j
  {
    if i < j {
      StarvedBehindBlockers(s, ops, i, j - 1, blockers, id);
      BlockersStay(s, ops, i, j - 1, blockers);
      RowsEvolve(s, ops, i, j - 1, id);
      RowAt(s, ops, j - 1, id);
      StarvedStep(s[j - 1], ops[j - 1], s[j], blockers, id);
    }
  }

  lemma StarvedStep(before: Db, op: Op, after: Db, blockers: map<Id, Task>, id: Id)
    requires Step(before, op, after) && Spares(op, blockers) && |blockers| >= CLAIM_WINDOW
    requires id in before.tasks && RowInv(before.tasks[id]) && !Held(before.tasks[id].status)
    requires forall b <- blockers :: b in before.tasks && before.tasks[b] == blockers[b]
               && blockers[b].createdAt < before.tasks[id].createdAt
    ensures id in after.tasks && after.tasks[id].leaseGeneration == before.tasks[id].leaseGeneration
    ensures !Held(after.tasks[id].status)
  {
    if op.Claim? {
      assert |blockers.Keys| == |blockers|;
      BlockersFillWindow(before, op, blockers.Keys, id);
      OutsideWindow(before, op, id);
    } else {
      Projection(before, op, id);
      UnclaimedStep(before, op, id);
    }
  }

  /** Only a claim leases. */
  lemma UnclaimedStep(db: Db, op: Op, id: Id)
    requires Legal(db, op) && !op.Claim? && id in db.tasks && !Held(db.tasks[id].status)
    ensures id in Exec(db, op).db.tasks
    ensures Exec(db, op).db.tasks[id].leaseGeneration == db.tasks[id].leaseGeneration
    ensures !Held(Exec(db, op).db.tasks[id].status)
  {
  }

  /** Older tasks that do not fit and have not expired yet, in whatever status. */
  ghost function Standing(db: Db, capabilities: seq<Capability>, now: Time, id: Id): set<Id>
    requires id in db.tasks
  {
    set e | && e in db.tasks && db.tasks[e].createdAt <= db.tasks[id].createdAt && db.tasks[e].expiresAt > now
            && FirstFit(db.tasks[e], capabilities).None?
  }

  /** The refusals end: as soon as fewer than 32 tasks that are as old and do not fit are unexpired,
      a poll is granted, if the waiting task has lived to see it. */
  lemma RefusalEnds(db: Db, op: Op, id: Id)
    requires op.Claim? && Legal(db, op) && id in Runnable(db, op.capabilities, op.now)
    requires |Standing(db, op.capabilities, op.now, id)| < CLAIM_WINDOW
    ensures Exec(db, op).reply.Granted?
  {
    SubsetSmaller(ClutterBefore(db, op.capabilities, op.now, id), Standing(db, op.capabilities, op.now, id));
    LittleClutterMeansGrant(db, op, id);
  }

  /** The claim query always has an answer. */
  lemma WindowExists(db: Db, now: Time) returns (w: seq<Id>)
    ensures IsWindow(db, now, w)
  {
    var pool := EligibleSet(db, now);
    w := Selection(db, pool, if |pool| < CLAIM_WINDOW then |pool| else CLAIM_WINDOW);
    forall id <- pool | id !in w
      ensures |w| == CLAIM_WINDOW
    {
      DistinctCoverStrict(w, pool, id);
    }
  }
}
