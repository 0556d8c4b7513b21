/** Verifying a model binding on the desktop Agent while others save it. `verify_model` reads the
    binding, reads its digest, clears the mark, runs a test inference, and then marks the binding
    as verified with an optimistic check of digest and stored text. Every database statement is
    a step of its own and any number of calls interleave.

    The protocol only compares stored texts and their digests, so it is modelled over any way of
    computing digests from texts; `VerifiedBindings` puts the JSON encoding in its place. */
module Verification {
  import opened Records
  import opened BindingTable

  /** Which texts can be stored, and the digest of a stored text. */
  datatype Codec = Codec(stored: string -> bool, digestOf: string -> string)

  ghost predicate Separates(codec: Codec) {
    forall x, y | codec.stored(x) && codec.stored(y) && codec.digestOf(x) == codec.digestOf(y) :: x == y
  }

  /** Where one `verify_model` call stands. `binding` is the text the call has read; the binding
      it tests is the one that text stands for. */
  datatype Phase =
    | HaveBinding(binding: string)
    | HaveDigest(binding: string, digest: string)
    | Unmarked(binding: string, digest: string)
    | Inferred(binding: string, digest: string)
    | Compared(binding: string, digest: string, text: string)

  datatype Call = Call(id: Id, phase: Phase)

  /** The store, the calls in progress, and the history of successful test inferences. */
  datatype Agent = Agent(rows: map<Id, BindingRow>, calls: map<nat, Call>, tested: set<(Id, string)>)

  const IDLE: Agent := Agent(map[], map[], {})

  datatype Action =
    | Save(id: Id, text: string)
    | ReadBinding(pid: nat, id: Id)
    | ReadDigest(pid: nat)
    | ClearMark(pid: nat)
    | Infer(pid: nat, succeeds: bool)
    | SelectRow(pid: nat)
    | UpdateRow(pid: nat)
    | GiveUp(pid: nat)

  predicate Enabled(codec: Codec, s: Agent, a: Action) {
    match a
    case Save(_, text) => codec.stored(text)
    case ReadBinding(pid, id) => pid !in s.calls && id in s.rows
    case ReadDigest(pid) => pid in s.calls && s.calls[pid].phase.HaveBinding? && s.calls[pid].id in s.rows
    case ClearMark(pid) => pid in s.calls && s.calls[pid].phase.HaveDigest? && s.calls[pid].id in s.rows
    case Infer(pid, _) => pid in s.calls && s.calls[pid].phase.Unmarked?
    case SelectRow(pid) => pid in s.calls && s.calls[pid].phase.Inferred? && s.calls[pid].id in s.rows
    case UpdateRow(pid) => pid in s.calls && s.calls[pid].phase.Compared? && s.calls[pid].id in s.rows
    case GiveUp(pid) => pid in s.calls
  }

  function SetPhase(s: Agent, pid: nat, phase: Phase): Agent
    requires pid in s.calls
  {
    s.(calls := s.calls[pid := s.calls[pid].(phase := phase)])
  }

  function After(codec: Codec, s: Agent, a: Action): Agent
    requires Enabled(codec, s, a)
  {
    match a
    case Save(id, text) => s.(rows := Saved(s.rows, id, text))
    case ReadBinding(pid, id) => s.(calls := s.calls[pid := Call(id, HaveBinding(s.rows[id].text))])
    case ReadDigest(pid) =>
      var c := s.calls[pid];
      SetPhase(s, pid, HaveDigest(c.phase.binding, codec.digestOf(s.rows[c.id].text)))
    case ClearMark(pid) =>
      var c := s.calls[pid];
      SetPhase(s, pid, Unmarked(c.phase.binding, c.phase.digest)).(rows := Cleared(s.rows, c.id))
    case Infer(pid, succeeds) =>
      var c := s.calls[pid];
      if succeeds then
        SetPhase(s, pid, Inferred(c.phase.binding, c.phase.digest)).(tested := s.tested + {(c.id, c.phase.binding)})
      else s.(calls := s.calls - {pid})
    case SelectRow(pid) =>
      var c := s.calls[pid];
      var text := s.rows[c.id].text;
      if codec.digestOf(text) == c.phase.digest
      then SetPhase(s, pid, Compared(c.phase.binding, c.phase.digest, text))
      else s.(calls := s.calls - {pid})
    case UpdateRow(pid) =>
      var c := s.calls[pid];
      s.(calls := s.calls - {pid}, rows := Marked(s.rows, c.id, c.phase.text, codec.digestOf(c.phase.text)))
    case GiveUp(pid) => s.(calls := s.calls - {pid})
  }

  ghost predicate Moves(codec: Codec, before: Agent, a: Action, after: Agent) {
    Enabled(codec, before, a) && after == After(codec, before, a)
  }

  ghost predicate Trace(codec: Codec, s: seq<Agent>, acts: seq<Action>) {
    && |s| == |acts| + 1
    && s[0] == IDLE
    && forall i | 0 <= i < |acts| :: Moves(codec, s[i], acts[i], s[i + 1])
  }

  /** The two reads at the start of a verification, of the binding and then of its digest, see
      the same stored text. */
  ghost predicate ConsistentRead(codec: Codec, s: Agent, a: Action) {
    a.ReadDigest? && Enabled(codec, s, a) ==> s.rows[s.calls[a.pid].id].text == s.calls[a.pid].phase.binding
  }

  ghost predicate ConsistentReads(codec: Codec, s: seq<Agent>, acts: seq<Action>)
    requires |s| == |acts| + 1
  {
    forall i | 0 <= i < |acts| :: ConsistentRead(codec, s[i], acts[i])
  }

  // ---------- the invariant ----------

  /** A mark carries the digest of the text beside it, and was earned by that text. */
  predicate RowInv(codec: Codec, row: BindingRow, id: Id, tested: set<(Id, string)>) {
    && codec.stored(row.text)
    && (row.verified ==> row.digest == Some(codec.digestOf(row.text)) && (id, row.text) in tested)
    && (!row.verified ==> row.digest == None)
  }

  predicate CallInv(codec: Codec, c: Call, tested: set<(Id, string)>) {
    && codec.stored(c.phase.binding)
    && (!c.phase.HaveBinding? ==> c.phase.digest == codec.digestOf(c.phase.binding))
    && (c.phase.Inferred? || c.phase.Compared? ==> (c.id, c.phase.binding) in tested)
    && (c.phase.Compared? ==> c.phase.text == c.phase.binding)
  }

  ghost predicate AgentInv(codec: Codec, s: Agent) {
    && (forall id <- s.rows :: RowInv(codec, s.rows[id], id, s.tested))
    && (forall pid <- s.calls :: CallInv(codec, s.calls[pid], s.tested))
  }

  /** Every step keeps the invariant but one: the second read, when it sees another text. */
  lemma StepKeepsIffConsistent(codec: Codec, s: Agent, a: Action)
    requires Separates(codec) && AgentInv(codec, s) && Enabled(codec, s, a)
    ensures AgentInv(codec, After(codec, s, a)) <==> ConsistentRead(codec, s, a)
  {
    if a.ReadDigest? {
      var c := s.calls[a.pid];
      assert RowInv(codec, s.rows[c.id], c.id, s.tested);
      assert After(codec, s, a).calls[a.pid].phase.digest == codec.digestOf(s.rows[c.id].text);
    }
    if !a.Save? && a.pid in s.calls {
      assert CallInv(codec, s.calls[a.pid], s.tested);
    }
  }

  lemma {:induction false} TraceInv(codec: Codec, s: seq<Agent>, acts: seq<Action>, i: nat)
    requires Separates(codec) && Trace(codec, s, acts) && ConsistentReads(codec, s, acts) && i < |s|
    ensures AgentInv(codec, s[i])
  {
    if i > 0 {
      TraceInv(codec, s, acts, i - 1);
      assert Moves(codec, s[i - 1], acts[i - 1], s[i]);
      assert ConsistentRead(codec, s[i - 1], acts[i - 1]);
      StepKeepsIffConsistent(codec, s[i - 1], acts[i - 1]);
    }
  }

  // ---------- what it promises ----------

  /** A mark is only ever found beside the text it was earned by, on which a test has succeeded,
      and with its digest. */
  lemma MarkedMeansTested(codec: Codec, s: seq<Agent>, acts: seq<Action>, i: nat, id: Id)
    requires Separates(codec) && Trace(codec, s, acts) && ConsistentReads(codec, s, acts) && i < |s|
    requires id in s[i].rows && s[i].rows[id].verified
    ensures (id, s[i].rows[id].text) in s[i].tested
    ensures s[i].rows[id].digest == Some(codec.digestOf(s[i].rows[id].text))
  {
    TraceInv(codec, s, acts, i);
    assert RowInv(codec, s[i].rows[id], id, s[i].tested);
  }

  // ---------- one call followed through a run ----------

  lemma {:induction false} RowsStored(codec: Codec, s: seq<Agent>, acts: seq<Action>, i: nat)
    requires Trace(codec, s, acts) && i < |s|
    ensures forall id <- s[i].rows :: codec.stored(s[i].rows[id].text)
    ensures forall pid <- s[i].calls :: codec.stored(s[i].calls[pid].phase.binding)
  {
    if i > 0 {
      RowsStored(codec, s, acts, i - 1);
      assert Moves(codec, s[i - 1], acts[i - 1], s[i]);
    }
  }

  /** A call that has read both, and compares stored texts with the digest it read. */
  predicate Carries(codec: Codec, c: Call, id: Id, binding: string, digest: string) {
    && c.id == id && !c.phase.HaveBinding? && c.phase.binding == binding && c.phase.digest == digest
    && (c.phase.Compared? ==> codec.stored(c.phase.text) && codec.digestOf(c.phase.text) == digest)
  }

  /** This call reads its digest in step `i` and is still going in state `j`. */
  ghost predicate Lasts(s: seq<Agent>, acts: seq<Action>, pid: nat, i: nat, j: nat) {
    && i < |acts| && i < j < |s| && acts[i] == ReadDigest(pid)
    && forall m | i <= m <= j :: pid in s[m].calls
  }

  lemma {:induction false} CallCarries(codec: Codec, s: seq<Agent>, acts: seq<Action>, pid: nat, i: nat, j: nat)
    requires Trace(codec, s, acts) && Lasts(s, acts, pid, i, j)
    ensures var c := s[i].calls[pid];
            && c.id in s[i].rows
            && Carries(codec, s[j].calls[pid], c.id, c.phase.binding, codec.digestOf(s[i].rows[c.id].text))
    decreases j
  {
    assert Moves(codec, s[i], acts[i], s[i + 1]);
    if i + 1 < j {
      CallCarries(codec, s, acts, pid, i, j - 1);
      RowsStored(codec, s, acts, j - 1);
      assert Moves(codec, s[j - 1], acts[j - 1], s[j]);
    }
  }

  /** Exactly what a call that succeeds in marking has marked, with no assumption about its two
      reads: the stored binding, whose digest the mark carries, is the binding it tested if and
      only if the two reads saw the same text. */
  lemma MarkEarnedIffReadsAgree(codec: Codec, s: seq<Agent>, acts: seq<Action>, pid: nat, i: nat, j: nat)
    requires Separates(codec) && Trace(codec, s, acts) && Lasts(s, acts, pid, i, j)
    requires j < |acts| && acts[j] == UpdateRow(pid) && Enabled(codec, s[j], acts[j])
    requires s[j].rows[s[j].calls[pid].id].text == s[j].calls[pid].phase.text
    ensures var c := s[i].calls[pid];
            && c.id in s[j + 1].rows
            && var row := s[j + 1].rows[c.id];
            && row.verified && row.digest == Some(codec.digestOf(row.text))
            && (row.text == c.phase.binding <==> ConsistentRead(codec, s[i], acts[i]))
  {
    CallCarries(codec, s, acts, pid, i, j);
    RowsStored(codec, s, acts, i);
    assert Moves(codec, s[i], acts[i], s[i + 1]);
    assert Moves(codec, s[j], acts[j], s[j + 1]);
  }

  lemma Then(codec: Codec, s: seq<Agent>, acts: seq<Action>, a: Action) returns (s': seq<Agent>, acts': seq<Action>)
    requires Trace(codec, s, acts) && Enabled(codec, s[|acts|], a)
    ensures Trace(codec, s', acts') && acts' == acts + [a] && s'[|acts'|] == After(codec, s[|acts|], a)
  {
    s', acts' := s + [After(codec, s[|acts|], a)], acts + [a];
    forall i | 0 <= i < |acts'|
      ensures Moves(codec, s'[i], acts'[i], s'[i + 1])
    {
      if i < |acts| {
        assert Moves(codec, s[i], acts[i], s[i + 1]);
      }
    }
  }

  /** The consistency of the two reads is needed. If a save falls between them, the new binding
      ends up marked by an inference that ran on the old one; for any two bindings. */
  lemma TornReadMarksUntested(codec: Codec, id: Id, tested: string, untested: string)
    returns (s: seq<Agent>, acts: seq<Action>)
    requires codec.stored(tested) && codec.stored(untested) && tested != untested
    ensures Trace(codec, s, acts)
    ensures var end := s[|acts|];
            && id in end.rows
            && end.rows[id] == BindingRow(untested, true, Some(codec.digestOf(untested)))
            && end.tested == {(id, tested)}
  {
    s, acts := [IDLE], [];
    s, acts := Then(codec, s, acts, Save(id, tested));
    s, acts := Then(codec, s, acts, ReadBinding(0, id));
    s, acts := Then(codec, s, acts, Save(id, untested));
    s, acts := Then(codec, s, acts, ReadDigest(0));
    s, acts := Then(codec, s, acts, ClearMark(0));
    s, acts := Then(codec, s, acts, Infer(0, true));
    s, acts := Then(codec, s, acts, SelectRow(0));
    s, acts := Then(codec, s, acts, UpdateRow(0));
  }

  /** The history of tests holds nothing but successful inferences, each on the binding that its
      call had read. */
  lemma {:induction false} TestedMeansInferred(codec: Codec, s: seq<Agent>, acts: seq<Action>, i: nat, id: Id,
                                               text: string)
    requires Trace(codec, s, acts) && i < |s| && (id, text) in s[i].tested
    ensures exists k: nat, pid: nat :: k < i && InferredAt(s, acts, k, pid, id, text)
  {
    var j := i - 1;
    assert Moves(codec, s[j], acts[j], s[i]);
    if (id, text) in s[j].tested {
      TestedMeansInferred(codec, s, acts, j, id, text);
    } else {
      assert InferredAt(s, acts, j, acts[j].pid, id, text);
    }
  }

  ghost predicate InferredAt(s: seq<Agent>, acts: seq<Action>, k: nat, pid: nat, id: Id, text: string) {
    && k < |acts| && k < |s| && acts[k] == Infer(pid, true)
    && pid in s[k].calls && s[k].calls[pid].id == id && s[k].calls[pid].phase.binding == text
  }

  /** And a verification that nobody disturbs does mark the binding: from any reachable state, for
      any binding that is stored. */
  lemma UndisturbedMarks(codec: Codec, s: seq<Agent>, acts: seq<Action>, id: Id, pid: nat)
    returns (s': seq<Agent>, acts': seq<Action>)
    requires Trace(codec, s, acts) && id in s[|acts|].rows && pid !in s[|acts|].calls
    ensures Trace(codec, s', acts') && acts' == acts + Undisturbed(id, pid)
    ensures var text := s[|acts|].rows[id].text;
            id in s'[|acts'|].rows && s'[|acts'|].rows[id] == BindingRow(text, true, Some(codec.digestOf(text)))
    ensures s'[|acts'|].calls == s[|acts|].calls
  {
    s', acts' := Then(codec, s, acts, ReadBinding(pid, id));
    s', acts' := Then(codec, s', acts', ReadDigest(pid));
    s', acts' := Then(codec, s', acts', ClearMark(pid));
    s', acts' := Then(codec, s', acts', Infer(pid, true));
    s', acts' := Then(codec, s', acts', SelectRow(pid));
    s', acts' := Then(codec, s', acts', UpdateRow(pid));
  }

  /** The statements of one verification, in order. */
  function Undisturbed(id: Id, pid: nat): seq<Action> {
    [ReadBinding(pid, id), ReadDigest(pid), ClearMark(pid), Infer(pid, true), SelectRow(pid), UpdateRow(pid)]
  }
}
