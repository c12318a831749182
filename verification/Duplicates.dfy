/**
 * Task ids are not checked by the in-process runner. This is what repeated ids do to a run: the
 * store and the report can part, and they agree for all task bodies exactly if the ids are distinct.
 */
module Duplicates {
  import opened Wrappers
  import opened Digraph
  import opened Values
  import opened Tasks
  import opened Lineage
  import opened RunPlan

  /** On a fresh run id the rows say what the report says. */
  ghost predicate Agrees(ts: seq<Task>) {
    Play(EMPTY_VIEW, Script(ts)).rows == RowsOf(RunOver(ts))
  }

  /** The rows that the states and outputs stand for when a skipped task has no output. */
  function RowsByState(p: Progress): map<string, Cell> {
    map id | id in p.states ::
      Cell(p.states[id], if p.states[id] != Skipped && id in p.outputs then Some(p.outputs[id]) else None)
  }

  /** Whether or not ids repeat, the rows are those of the last states, without output if skipped. */
  lemma {:induction false} RowsWithoutIdCheck(ts: seq<Task>)
    ensures Play(EMPTY_VIEW, Script(ts)) == RunView(RowsByState(RunOver(ts)), {})
  {
    if |ts| == 0 {
    } else {
      var before, t := ts[..|ts| - 1], ts[|ts| - 1];
      RowsWithoutIdCheck(before);
      PlayAppend(EMPTY_VIEW, Script(before), Chunk(RunOver(before), t));
      ChunkByState(RunOver(before), t);
    }
  }

  lemma {:induction false} OneRowByState(p: Progress, q: Progress, id: string, s: TaskState, out: Option<Json>)
    requires q.states == p.states[id := s] && (s == Skipped <==> out == None)
    requires q.outputs == if out.Some? then p.outputs[id := out.value] else p.outputs
    ensures RowsByState(q) == RowsByState(p)[id := Cell(s, out)]
  {
  }

  lemma {:induction false} ChunkByState(p: Progress, t: Task)
    ensures Play(RunView(RowsByState(p), {}), Chunk(p, t)) == RunView(RowsByState(Advance(p, t)), {})
  {
    var v, c, q := RunView(RowsByState(p), {}), Chunk(p, t), Advance(p, t);
    if p.failed {
      PlayTwo(v, c[0], c[0]);
      OneRowByState(p, q, t.id, Skipped, None);
    } else {
      PlayTwo(v, c[0], c[1]);
      match t.body(p.bag).result
      case Success(out) => OneRowByState(p, q, t.id, Succeeded, Some(AsJson(out)));
      case Failure(message) => OneRowByState(p, q, t.id, Failed, Some(ErrorJson(message)));
    }
  }

  /** The store and the report agree exactly if no id is reported Skipped and given an output. */
  lemma {:induction false} AgreementMeaning(ts: seq<Task>)
    ensures Agrees(ts) <==>
            forall id :: id in RunOver(ts).states && RunOver(ts).states[id] == Skipped ==> id !in RunOver(ts).outputs
  {
    RowsWithoutIdCheck(ts);
    var p := RunOver(ts);
    var a, b := RowsByState(p), RowsOf(p);
    assert forall id :: id in a <==> id in b;
    if id :| id in p.states && p.states[id] == Skipped && id in p.outputs {
      assert a[id] != b[id];
    } else {
      RecordedHaveOutputs(ts);
      assert forall id :: id in a ==> a[id] == b[id];
    }
  }

  lemma {:induction false} RecordedHaveOutputs(ts: seq<Task>)
    ensures forall id :: id in RunOver(ts).states && RunOver(ts).states[id] != Skipped ==> id in RunOver(ts).outputs
  {
    if |ts| == 0 {
    } else {
      RecordedHaveOutputs(ts[..|ts| - 1]);
    }
  }

  // ---------- a run that parts them ----------

  function Quiet(id: string): Task {
    Task(id, (b: Bag) => Effect(map[], Success(NoValue)))
  }

  function Failing(id: string): Task {
    Task(id, (b: Bag) => Effect(map[], Failure("boom")))
  }

  /** Tasks that all succeed except the one at position `bad`. */
  function OneFails(ids: seq<string>, bad: nat): seq<Task> {
    seq(|ids|, i requires 0 <= i < |ids| => if i == bad then Failing(ids[i]) else Quiet(ids[i]))
  }

  lemma {:induction false} QuietUntil(ids: seq<string>, bad: nat, k: nat)
    requires k <= bad < |ids|
    ensures !RunOver(OneFails(ids, bad)[..k]).failed
  {
    if k > 0 {
      QuietUntil(ids, bad, k - 1);
      StepOfRun(OneFails(ids, bad), k - 1);
    }
  }

  lemma {:induction false} AdvanceKeepsOutputs(p: Progress, t: Task)
    ensures p.outputs.Keys <= Advance(p, t).outputs.Keys
  {
  }

  lemma {:induction false} OutputStays(ts: seq<Task>, i: nat, k: nat, id: string)
    requires i <= k <= |ts| && id in RunOver(ts[..i]).outputs
    ensures id in RunOver(ts[..k]).outputs
  {
    if i < k {
      var p := RunOver(ts[..k - 1]);
      OutputStays(ts, i, k - 1, id);
      assert RunOver(ts[..k]) == Advance(p, ts[k - 1]) by { StepOfRun(ts, k - 1); }
      AdvanceKeepsOutputs(p, ts[k - 1]);
    }
  }

  lemma {:induction false} SkipStep(p: Progress, t: Task, id: string)
    requires p.failed && (id == t.id || (id in p.states && p.states[id] == Skipped))
    ensures id in Advance(p, t).states && Advance(p, t).states[id] == Skipped
  {
  }

  lemma {:induction false} SkippedStays(ts: seq<Task>, j: nat, k: nat)
    requires j < k <= |ts| && RunOver(ts[..j]).failed
    ensures ts[j].id in RunOver(ts[..k]).states && RunOver(ts[..k]).states[ts[j].id] == Skipped
  {
    var p, t, id := RunOver(ts[..k - 1]), ts[k - 1], ts[j].id;
    assert p.failed by { FailureIsFinal(ts, j, k - 1); }
    assert RunOver(ts[..k]) == Advance(p, t) by { StepOfRun(ts, k - 1); }
    if j < k - 1 { SkippedStays(ts, j, k - 1); }
    SkipStep(p, t, id);
  }

  /** If an id repeats, a run in which its first task fails ends with a row that contradicts the report. */
  lemma {:induction false} RepeatedIdParts(ids: seq<string>, i: nat, j: nat)
    requires i < j < |ids| && ids[i] == ids[j]
    ensures TaskIdsOf(OneFails(ids, i)) == ids && !Agrees(OneFails(ids, i))
  {
    var ts := OneFails(ids, i);
    assert ts[..|ts|] == ts;
    QuietUntil(ids, i, i);
    StepOfRun(ts, i);
    assert RunOver(ts[..i + 1]).failed && ids[i] in RunOver(ts[..i + 1]).outputs;
    OutputStays(ts, i + 1, |ts|, ids[i]);
    FailureIsFinal(ts, i + 1, j);
    SkippedStays(ts, j, |ts|);
    AgreementMeaning(ts);
    assert ts[j].id == ids[i];
  }

  ghost predicate AlwaysAgrees(ids: seq<string>) {
    forall ts :: TaskIdsOf(ts) == ids ==> Agrees(ts)
  }

  /** The store agrees with the report whatever the tasks do, exactly if their ids are distinct. */
  lemma {:induction false} AgreementNeedsDistinctIds(ids: seq<string>)
    ensures AlwaysAgrees(ids) <==> Distinct(ids)
  {
    if Distinct(ids) {
      forall ts | TaskIdsOf(ts) == ids ensures Agrees(ts) { ScriptWritesReport(ts); }
    } else {
      var i, j :| 0 <= i < j < |ids| && ids[i] == ids[j];
      RepeatedIdParts(ids, i, j);
      assert !Agrees(OneFails(ids, i));
    }
  }
}
