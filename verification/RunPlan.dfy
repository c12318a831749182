/**
 * What a fail-fast run over a list of tasks computes and writes. `RunOver` is the state of the run
 * after the list, `Script` the task rows it writes on the way, one intent per write.
 */
module RunPlan {
  import opened Wrappers
  import opened Digraph
  import opened Values
  import opened Tasks
  import opened Lineage

  datatype RunReport = RunReport(
    runId: string,
    taskStates: map<string, TaskState>,
    taskOutputs: map<string, Json>,
    topoOrder: seq<string>)
  {
    predicate AllSucceeded() {
      taskStates != map[] && forall id | id in taskStates :: taskStates[id] == Succeeded
    }

    function OutputsInOrder(): seq<Json> {
      OutputsAlong(topoOrder, taskOutputs)
    }
  }

  function OutputsAlong(ids: seq<string>, outputs: map<string, Json>): seq<Json> {
    if ids == [] then []
    else (if ids[0] in outputs then [outputs[ids[0]]] else []) + OutputsAlong(ids[1..], outputs)
  }

  datatype Progress = Progress(
    bag: Bag,
    states: map<string, TaskState>,
    outputs: map<string, Json>,
    topo: seq<string>,
    failed: bool)

  const START := Progress(map[], map[], map[], [], false)

  function Advance(p: Progress, t: Task): Progress {
    if p.failed then
      p.(states := p.states[t.id := Skipped], topo := p.topo + [t.id])
    else
      var e := t.body(p.bag);
      match e.result
      case Success(out) =>
        Progress((p.bag + e.puts)[t.id := out], p.states[t.id := Succeeded],
                 p.outputs[t.id := AsJson(out)], p.topo + [t.id], false)
      case Failure(message) =>
        Progress(p.bag + e.puts, p.states[t.id := Failed],
                 p.outputs[t.id := ErrorJson(message)], p.topo + [t.id], true)
  }

  function RunOver(ts: seq<Task>): Progress {
    if |ts| == 0 then START else Advance(RunOver(ts[..|ts| - 1]), ts[|ts| - 1])
  }

  /** The rows written for a task that is executed. */
  function Executed(t: Task, bag: Bag): seq<Intent> {
    match t.body(bag).result
    case Success(out) => [Mark(t.id, Running, None), Mark(t.id, Succeeded, Some(AsJson(out)))]
    case Failure(message) => [Mark(t.id, Running, None), Mark(t.id, Failed, Some(ErrorJson(message)))]
  }

  /** The rows written for one task. */
  function Chunk(p: Progress, t: Task): seq<Intent> {
    if p.failed then [Mark(t.id, Skipped, None)] else Executed(t, p.bag)
  }

  function Script(ts: seq<Task>): seq<Intent> {
    if |ts| == 0 then [] else Script(ts[..|ts| - 1]) + Chunk(RunOver(ts[..|ts| - 1]), ts[|ts| - 1])
  }

  function Links(pairs: seq<(string, string)>): seq<Intent> {
    seq(|pairs|, k requires 0 <= k < |pairs| => Link(pairs[k].0, pairs[k].1))
  }

  function TaskIdsOf(ts: seq<Task>): seq<string> {
    seq(|ts|, i requires 0 <= i < |ts| => ts[i].id)
  }

  /** What a run has written before a task is a prefix of what it will write. */
  lemma {:induction false} ScriptPrefix(ts: seq<Task>, i: nat)
    requires i <= |ts|
    ensures Script(ts[..i]) <= Script(ts)
  {
    if i < |ts| {
      var before := ts[..|ts| - 1];
      ScriptPrefix(before, i);
      assert before[..i] == ts[..i];
    } else {
      assert ts[..i] == ts;
    }
  }

  /** A run records no other states than these; in particular no task is ever Queued. */
  lemma {:induction false} RecordedStates(ts: seq<Task>)
    ensures forall i :: i in Script(ts) ==> i.Mark? && i.state in {Running, Succeeded, Failed, Skipped}
  {
    if |ts| == 0 {
    } else {
      var before, t := ts[..|ts| - 1], ts[|ts| - 1];
      RecordedStates(before);
      assert forall i :: i in Script(ts) ==> i in Script(before) || i in Chunk(RunOver(before), t);
    }
  }

  // ---------- the run, task by task ----------

  lemma {:induction false} StepOfRun(ts: seq<Task>, i: nat)
    requires i < |ts|
    ensures RunOver(ts[..i + 1]) == Advance(RunOver(ts[..i]), ts[i])
    ensures Script(ts[..i + 1]) == Script(ts[..i]) + Chunk(RunOver(ts[..i]), ts[i])
  {
    assert ts[..i + 1][..i] == ts[..i];
  }

  lemma {:induction false} LastStep(ts: seq<Task>)
    requires |ts| > 0
    ensures var before, t := ts[..|ts| - 1], ts[|ts| - 1];
            RunOver(ts) == Advance(RunOver(before), t) && TaskIdsOf(ts) == TaskIdsOf(before) + [t.id]
  {
  }

  lemma {:induction false} RunIds(ts: seq<Task>)
    ensures RunOver(ts).topo == TaskIdsOf(ts)
    ensures forall id :: id in RunOver(ts).states <==> id in TaskIdsOf(ts)
    ensures forall id :: id in RunOver(ts).outputs ==> id in TaskIdsOf(ts)
  {
    if |ts| == 0 {
    } else {
      RunIds(ts[..|ts| - 1]);
      assert TaskIdsOf(ts) == TaskIdsOf(ts[..|ts| - 1]) + [ts[|ts| - 1].id];
    }
  }

  lemma {:induction false} FailureIsFinal(ts: seq<Task>, i: nat, j: nat)
    requires i <= j <= |ts| && RunOver(ts[..i]).failed
    ensures RunOver(ts[..j]).failed
  {
    assert ts[..j][..i] == ts[..i];
    FailedPrefix(ts[..j], i);
  }

  lemma {:induction false} FailedPrefix(ts: seq<Task>, i: nat)
    requires i <= |ts| && RunOver(ts[..i]).failed
    ensures RunOver(ts).failed
  {
    if i == |ts| {
      assert ts[..i] == ts;
    } else {
      var before := ts[..|ts| - 1];
      assert before[..i] == ts[..i];
      FailedPrefix(before, i);
      StaysFailed(RunOver(before), ts[|ts| - 1]);
    }
  }

  lemma {:induction false} StaysFailed(p: Progress, t: Task)
    requires p.failed
    ensures Advance(p, t).failed
  {
  }

  ghost predicate SameRecord(p: Progress, q: Progress, id: string) {
    && id in p.states && id in q.states && p.states[id] == q.states[id]
    && (id in p.outputs <==> id in q.outputs)
    && (id in p.outputs ==> p.outputs[id] == q.outputs[id])
  }

  lemma {:induction false} AdvanceKeepsOthers(p: Progress, t: Task, id: string)
    requires id in p.states && id != t.id
    ensures SameRecord(p, Advance(p, t), id)
  {
  }

  /** Later tasks have other ids, so what a task recorded stays. */
  lemma {:induction false} RecordsStay(ts: seq<Task>, i: nat, j: nat)
    requires Distinct(TaskIdsOf(ts)) && i < j <= |ts|
    ensures SameRecord(RunOver(ts[..i + 1]), RunOver(ts[..j]), ts[i].id)
    decreases j
  {
    if i + 1 == j {
      StepOfRun(ts, i);
    } else {
      RecordsStay(ts, i, j - 1);
      assert TaskIdsOf(ts)[i] != TaskIdsOf(ts)[j - 1];
      var p := RunOver(ts[..j - 1]);
      AdvanceKeepsOthers(p, ts[j - 1], ts[i].id);
      assert RunOver(ts[..j]) == Advance(p, ts[j - 1]) by { StepOfRun(ts, j - 1); }
    }
  }

  /** A task has no record before its turn. */
  lemma {:induction false} FreshId(ts: seq<Task>, i: nat, j: nat)
    requires Distinct(TaskIdsOf(ts)) && i <= j < |ts|
    ensures ts[j].id !in RunOver(ts[..i]).states && ts[j].id !in RunOver(ts[..i]).outputs
  {
    RunIds(ts[..i]);
    var before := TaskIdsOf(ts[..i]);
    forall k | 0 <= k < |before| ensures before[k] != ts[j].id {
      assert before[k] == TaskIdsOf(ts)[k] != TaskIdsOf(ts)[j];
    }
  }

  /** The final state and output of the i-th task are those of its own step. */
  lemma {:induction false} OutcomeOfTask(ts: seq<Task>, i: nat)
    requires Distinct(TaskIdsOf(ts)) && i < |ts|
    ensures var before, end, id := RunOver(ts[..i]), RunOver(ts), ts[i].id;
            && id in end.states
            && if before.failed then end.states[id] == Skipped && id !in end.outputs
               else match ts[i].body(before.bag).result
                 case Success(out) =>
                   end.states[id] == Succeeded && id in end.outputs && end.outputs[id] == AsJson(out)
                 case Failure(m) =>
                   end.states[id] == Failed && id in end.outputs && end.outputs[id] == ErrorJson(m)
  {
    assert ts[..|ts|] == ts;
    RecordsStay(ts, i, |ts|);
    FreshId(ts, i, i);
    StepOfRun(ts, i);
  }

  /** What is reported of a value: null, a number, a string, or the nested JSON itself. */
  lemma {:induction false} ReportedValue(ts: seq<Task>, i: nat, out: TaskOutput)
    requires Distinct(TaskIdsOf(ts)) && i < |ts| && !RunOver(ts[..i]).failed
    requires ts[i].body(RunOver(ts[..i]).bag).result == Success(out)
    ensures ts[i].id in RunOver(ts).outputs
    ensures RunOver(ts).outputs[ts[i].id] ==
            match out
            case NoValue => Null
            case Int(n) => Number(n)
            case Text(s) => Str(s)
            case Nested(json) => json
  {
    OutcomeOfTask(ts, i);
  }

  lemma {:induction false} OutputsFrozen(ts: seq<Task>, i: nat)
    requires i <= |ts| && RunOver(ts[..i]).failed
    ensures RunOver(ts).outputs == RunOver(ts[..i]).outputs
  {
    if i == |ts| {
      assert ts[..i] == ts;
    } else {
      var before := ts[..|ts| - 1];
      assert before[..i] == ts[..i];
      FailedPrefix(before, i);
      OutputsFrozen(before, i);
    }
  }

  /** What is reported of a failure, whether or not ids repeat: an object whose only field is the message. */
  lemma {:induction false} ReportedFailure(ts: seq<Task>, i: nat, message: string)
    requires i < |ts| && !RunOver(ts[..i]).failed
    requires ts[i].body(RunOver(ts[..i]).bag).result == Failure(message)
    ensures ts[i].id in RunOver(ts).outputs
    ensures RunOver(ts).outputs[ts[i].id] == Object(map["error" := Str(message)])
  {
    StepOfRun(ts, i);
    OutputsFrozen(ts, i + 1);
  }

  /** The number of tasks that succeed before the first failure; all of them if none fails. */
  function FirstFailure(ts: seq<Task>): nat {
    if |ts| == 0 then 0
    else if RunOver(ts).failed then FirstFailure(ts[..|ts| - 1])
    else |ts|
  }

  ghost predicate FailsAt(ts: seq<Task>, f: nat) {
    && f <= |ts|
    && (forall i :: 0 <= i <= f ==> !RunOver(ts[..i]).failed)
    && (forall i :: f < i <= |ts| ==> RunOver(ts[..i]).failed)
  }

  lemma {:induction false} FirstFailureMeaning(ts: seq<Task>)
    ensures FailsAt(ts, FirstFailure(ts))
  {
    assert ts[..|ts|] == ts;
    if RunOver(ts).failed {
      var before, f := ts[..|ts| - 1], FirstFailure(ts);
      FirstFailureMeaning(before);
      forall i | 0 <= i <= f ensures !RunOver(ts[..i]).failed { assert ts[..i] == before[..i]; }
      forall i | f < i <= |ts| ensures RunOver(ts[..i]).failed {
        if i < |ts| { assert ts[..i] == before[..i]; }
      }
    } else {
      forall i | 0 <= i <= |ts| ensures !RunOver(ts[..i]).failed {
        if RunOver(ts[..i]).failed { FailureIsFinal(ts, i, |ts|); }
      }
    }
  }

  /** Fail-fast: Succeeded up to the first failure, that task Failed, and Skipped from there on. */
  lemma {:induction false} FailFast(ts: seq<Task>, i: nat)
    requires Distinct(TaskIdsOf(ts)) && i < |ts|
    ensures ts[i].id in RunOver(ts).states
    ensures RunOver(ts).states[ts[i].id] ==
            if i < FirstFailure(ts) then Succeeded else if i == FirstFailure(ts) then Failed else Skipped
    ensures ts[i].id in RunOver(ts).outputs <==> i <= FirstFailure(ts)
  {
    FirstFailureMeaning(ts);
    OutcomeOfTask(ts, i);
    StepOfRun(ts, i);
  }

  /** All recorded states terminal, at most one of them Failed, and all Succeeded if the run has not failed. */
  ghost predicate Settled(p: Progress) {
    && (forall id :: id in p.states ==> Terminal(p.states[id]))
    && (forall a, b :: a in p.states && b in p.states && p.states[a] == Failed == p.states[b] ==> a == b)
    && (!p.failed ==> forall id :: id in p.states ==> p.states[id] == Succeeded)
  }

  lemma {:induction false} AdvanceSettles(p: Progress, t: Task)
    requires Settled(p)
    ensures Settled(Advance(p, t))
    ensures Advance(p, t).failed ==> t.id in Advance(p, t).states && Advance(p, t).states[t.id] != Succeeded
  {
  }

  lemma {:induction false} RunSettles(ts: seq<Task>)
    ensures Settled(RunOver(ts))
  {
    if |ts| == 0 {
    } else {
      RunSettles(ts[..|ts| - 1]);
      AdvanceSettles(RunOver(ts[..|ts| - 1]), ts[|ts| - 1]);
    }
  }

  /** Whether or not ids repeat: every recorded state is terminal, and at most one id is Failed. */
  lemma {:induction false} RunIsSettled(ts: seq<Task>)
    ensures var states := RunOver(ts).states;
            && (forall id :: id in states <==> id in TaskIdsOf(ts))
            && (forall id :: id in states ==> Terminal(states[id]))
            && (forall a, b :: a in states && b in states && states[a] == Failed == states[b] ==> a == b)
  {
    RunIds(ts);
    RunSettles(ts);
  }

  /** Every task has an output exactly if none but the last failed. */
  lemma {:induction false} OutputsReach(ts: seq<Task>)
    requires Distinct(TaskIdsOf(ts))
    ensures RunOver(ts).outputs.Keys == Elements(TaskIdsOf(ts)) <==> FirstFailure(ts) + 1 >= |ts|
  {
    var ids, outputs, f := TaskIdsOf(ts), RunOver(ts).outputs, FirstFailure(ts);
    RunIds(ts);
    forall i | 0 <= i < |ids| ensures ids[i] in outputs <==> i <= f { FailFast(ts, i); }
    assert outputs.Keys <= Elements(ids);
    if f + 1 < |ts| {
      assert ids[f + 1] in Elements(ids) && ids[f + 1] !in outputs;
    } else {
      assert Elements(ids) <= outputs.Keys;
    }
  }

  /** After a failure the last task's state is not Succeeded; without one all states are. */
  lemma {:induction false} LastStateTells(ts: seq<Task>)
    requires |ts| > 0
    ensures var p, id := RunOver(ts), ts[|ts| - 1].id;
            id in p.states && (p.failed ==> p.states[id] != Succeeded)
    ensures !RunOver(ts).failed ==> forall id :: id in RunOver(ts).states ==> RunOver(ts).states[id] == Succeeded
  {
    RunSettles(ts);
    RunSettles(ts[..|ts| - 1]);
    AdvanceSettles(RunOver(ts[..|ts| - 1]), ts[|ts| - 1]);
  }

  /** Whether or not ids repeat: a report is all-succeeded exactly when there is a task and none failed. */
  lemma {:induction false} AllSucceededShape(ts: seq<Task>, r: RunReport)
    requires r.taskStates == RunOver(ts).states
    ensures r.AllSucceeded() <==> |ts| > 0 && FirstFailure(ts) == |ts|
  {
    if |ts| == 0 {
      assert RunOver(ts).states == map[];
    } else {
      LastStateTells(ts);
      FirstFailureMeaning(ts[..|ts| - 1]);
    }
  }

  lemma {:induction false} OutputsOfPrefix(ids: seq<string>, outputs: map<string, Json>, k: nat)
    requires k <= |ids| && forall i :: 0 <= i < |ids| ==> (ids[i] in outputs <==> i < k)
    ensures |OutputsAlong(ids, outputs)| == k
    ensures forall i :: 0 <= i < k ==> OutputsAlong(ids, outputs)[i] == outputs[ids[i]]
  {
    if ids == [] {
    } else {
      var rest, k' := ids[1..], if k == 0 then 0 else k - 1;
      assert forall i :: 0 <= i < |rest| ==> rest[i] == ids[i + 1];
      OutputsOfPrefix(rest, outputs, k');
    }
  }

  /** `outputs_in_order` lists, in order, what the tasks up to and including the failed one returned. */
  lemma {:induction false} OutputsListed(ts: seq<Task>, r: RunReport)
    requires Distinct(TaskIdsOf(ts)) && r.topoOrder == RunOver(ts).topo && r.taskOutputs == RunOver(ts).outputs
    ensures var f, listed := FirstFailure(ts), r.OutputsInOrder();
            && |listed| == (if f < |ts| then f + 1 else |ts|)
            && forall i :: 0 <= i < |listed| ==>
                 i < |ts| && ts[i].id in r.taskOutputs && listed[i] == r.taskOutputs[ts[i].id]
  {
    var f, ids, outputs := FirstFailure(ts), TaskIdsOf(ts), r.taskOutputs;
    assert r.topoOrder == ids by { RunIds(ts); }
    assert f <= |ts| by { FirstFailureMeaning(ts); }
    forall i | 0 <= i < |ids| ensures ids[i] in outputs <==> i <= f { FailFast(ts, i); }
    OutputsOfPrefix(ids, outputs, if f < |ts| then f + 1 else |ts|);
    assert forall i :: 0 <= i < |ids| ==> ids[i] == ts[i].id;
  }

  // ---------- the rows ----------

  /** The rows that a report describes. */
  function RowsOf(p: Progress): map<string, Cell> {
    map id | id in p.states :: Cell(p.states[id], if id in p.outputs then Some(p.outputs[id]) else None)
  }

  /** Written on an empty view, the script's rows are exactly what the report says. */
  lemma {:induction false} ScriptWritesReport(ts: seq<Task>)
    requires Distinct(TaskIdsOf(ts))
    ensures Play(EMPTY_VIEW, Script(ts)) == RunView(RowsOf(RunOver(ts)), {})
  {
    if |ts| == 0 {
    } else {
      var n := |ts| - 1;
      assert ts[..|ts|] == ts;
      assert forall i :: 0 <= i < n ==> TaskIdsOf(ts[..n])[i] == TaskIdsOf(ts)[i];
      ScriptWritesReport(ts[..n]);
      FreshId(ts, n, n);
      ChunkWritesStep(RunOver(ts[..n]), ts[n]);
      PlayAppend(EMPTY_VIEW, Script(ts[..n]), Chunk(RunOver(ts[..n]), ts[n]));
    }
  }

  lemma {:induction false} PlayTwo(v: RunView, a: Intent, b: Intent)
    ensures Play(v, [a]) == PlayOne(v, a)
    ensures Play(v, [a, b]) == PlayOne(PlayOne(v, a), b)
  {
    assert [a][..0] == [];
    assert [a, b][..1] == [a];
  }

  lemma {:induction false} OneRow(p: Progress, q: Progress, id: string, s: TaskState, out: Option<Json>)
    requires q.states == p.states[id := s] && id !in p.outputs
    requires q.outputs == if out.Some? then p.outputs[id := out.value] else p.outputs
    ensures RowsOf(q) == RowsOf(p)[id := Cell(s, out)]
  {
  }

  lemma {:induction false} ChunkWritesStep(p: Progress, t: Task)
    requires t.id !in p.states && t.id !in p.outputs
    ensures Play(RunView(RowsOf(p), {}), Chunk(p, t)) == RunView(RowsOf(Advance(p, t)), {})
  {
    var v, c, q := RunView(RowsOf(p), {}), Chunk(p, t), Advance(p, t);
    if p.failed {
      PlayTwo(v, c[0], c[0]);
      OneRow(p, q, t.id, Skipped, None);
    } else {
      PlayTwo(v, c[0], c[1]);
      match t.body(p.bag).result
      case Success(out) => OneRow(p, q, t.id, Succeeded, Some(AsJson(out)));
      case Failure(message) => OneRow(p, q, t.id, Failed, Some(ErrorJson(message)));
    }
  }

  /** The rows after the first k writes of a script on a fresh run id. */
  function RowsAfter(ts: seq<Task>, k: nat): map<string, Cell>
    requires k <= |Script(ts)|
  {
    Play(EMPTY_VIEW, Script(ts)[..k]).rows
  }

  /**
   * The moment after k writes: i tasks are done and have their final rows, and if one more row has
   * been written it is that of the next task, Running.
   */
  ghost predicate Moment(ts: seq<Task>, i: nat, k: nat)
    requires k <= |Script(ts)|
  {
    && i <= |ts|
    && |Script(ts[..i])| <= k
    && (i < |ts| ==> k < |Script(ts[..i + 1])|)
    && if k == |Script(ts[..i])| then RowsAfter(ts, k) == RowsOf(RunOver(ts[..i]))
       else i < |ts| && !RunOver(ts[..i]).failed
            && RowsAfter(ts, k) == RowsOf(RunOver(ts[..i]))[ts[i].id := Cell(Running, None)]
  }

  lemma {:induction false} EveryMoment(ts: seq<Task>, k: nat)
    requires Distinct(TaskIdsOf(ts)) && k <= |Script(ts)|
    ensures exists i :: Moment(ts, i, k)
  {
    if k == |Script(ts)| {
      assert Script(ts)[..k] == Script(ts) && ts[..|ts|] == ts;
      ScriptWritesReport(ts);
      assert Moment(ts, |ts|, k);
    } else {
      var n := |ts| - 1;
      var before := ts[..n];
      assert forall i :: 0 <= i < n ==> TaskIdsOf(before)[i] == TaskIdsOf(ts)[i];
      if k < |Script(before)| {
        EveryMoment(before, k);
        var i :| Moment(before, i, k);
        MomentExtends(ts, i, k);
      } else {
        LastMoment(ts, k);
      }
    }
  }

  lemma {:induction false} MomentExtends(ts: seq<Task>, i: nat, k: nat)
    requires |ts| > 0
    requires var before := ts[..|ts| - 1]; k < |Script(before)| && Moment(before, i, k)
    ensures k <= |Script(ts)| && Moment(ts, i, k)
  {
    var before := ts[..|ts| - 1];
    assert before[..|before|] == before;
    assert before[..i] == ts[..i] && (i < |before| ==> before[..i + 1] == ts[..i + 1]);
    assert Script(ts)[..k] == Script(before)[..k];
    assert RowsAfter(ts, k) == RowsAfter(before, k);
  }

  lemma {:induction false} LastMoment(ts: seq<Task>, k: nat)
    requires Distinct(TaskIdsOf(ts)) && |ts| > 0
    requires |Script(ts[..|ts| - 1])| <= k < |Script(ts)|
    ensures Moment(ts, |ts| - 1, k)
  {
    var n := |ts| - 1;
    var before, t := ts[..n], ts[n];
    var a, c := Script(before), Chunk(RunOver(before), t);
    assert ts[..n + 1] == ts && Script(ts) == a + c;
    assert Distinct(TaskIdsOf(before)) by {
      assert forall i :: 0 <= i < n ==> TaskIdsOf(before)[i] == TaskIdsOf(ts)[i];
    }
    if k == |a| {
      assert Script(ts)[..k] == a;
      assert RowsAfter(ts, k) == RowsOf(RunOver(before)) by { ScriptWritesReport(before); }
    } else {
      assert !RunOver(before).failed && k == |a| + 1;
      assert Script(ts)[..k] == a + c[..1];
      assert RowsAfter(ts, k) == RowsOf(RunOver(before))[t.id := Cell(Running, None)] by { RunningRow(before, t); }
    }
  }

  lemma {:induction false} RunningRow(before: seq<Task>, t: Task)
    requires Distinct(TaskIdsOf(before)) && !RunOver(before).failed
    ensures Play(EMPTY_VIEW, Script(before) + Chunk(RunOver(before), t)[..1]).rows ==
            RowsOf(RunOver(before))[t.id := Cell(Running, None)]
  {
    var first := Mark(t.id, Running, None);
    assert Chunk(RunOver(before), t)[..1] == [first];
    PlayAppend(EMPTY_VIEW, Script(before), [first]);
    ScriptWritesReport(before);
    PlayTwo(RunView(RowsOf(RunOver(before)), {}), first, first);
  }

  lemma {:induction false} ScriptGrows(ts: seq<Task>, i: nat, j: nat)
    requires i <= j <= |ts|
    ensures |Script(ts[..i])| <= |Script(ts[..j])|
  {
    assert ts[..j][..i] == ts[..i];
    ScriptPrefix(ts[..j], i);
  }

  /** The states in a moment: final in the prefix, at most one Running, no row for the rest. */
  lemma {:induction false} MomentStates(ts: seq<Task>, i: nat, k: nat, j: nat)
    requires Distinct(TaskIdsOf(ts)) && k <= |Script(ts)| && Moment(ts, i, k) && j < |ts|
    ensures var rows, id := RowsAfter(ts, k), ts[j].id;
            && (j < i ==> id in rows && id in RowsOf(RunOver(ts)) && rows[id] == RowsOf(RunOver(ts))[id]
                          && Terminal(rows[id].state))
            && (j == i ==> id in rows ==> rows[id] == Cell(Running, None))
            && (j > i ==> id !in rows)
  {
    assert ts[..|ts|] == ts;
    assert forall m :: 0 <= m < |ts| ==> TaskIdsOf(ts)[m] == ts[m].id;
    if j >= i { FreshId(ts, i, j); }
    if j < i {
      RecordsStay(ts, j, i);
      RecordsStay(ts, j, |ts|);
      OutcomeOfTask(ts, j);
    }
  }

  /** No row ever leaves a terminal state while the run goes on. */
  lemma {:induction false} TerminalRowsStay(ts: seq<Task>, k: nat, m: nat, id: string)
    requires Distinct(TaskIdsOf(ts)) && k <= m <= |Script(ts)|
    requires id in RowsAfter(ts, k) && Terminal(RowsAfter(ts, k)[id].state)
    ensures id in RowsAfter(ts, m) && RowsAfter(ts, m)[id] == RowsAfter(ts, k)[id]
  {
    EveryMoment(ts, k);
    EveryMoment(ts, m);
    var i: nat :| Moment(ts, i, k);
    var j: nat :| Moment(ts, j, m);
    MomentsAdvance(ts, i, k, j, m);
    var at := PlaceInMoment(ts, i, k, id);
    SettledRow(ts, i, k, at);
    SettledRow(ts, j, m, at);
  }

  lemma {:induction false} MomentsAdvance(ts: seq<Task>, i: nat, k: nat, j: nat, m: nat)
    requires k <= m <= |Script(ts)| && Moment(ts, i, k) && Moment(ts, j, m)
    ensures i <= j
  {
    if j < i { ScriptGrows(ts, j + 1, i); }
  }

  /** A row of a moment is terminal exactly for the tasks that are done, and is then the final row. */
  lemma {:induction false} SettledRow(ts: seq<Task>, i: nat, k: nat, at: nat)
    requires Distinct(TaskIdsOf(ts)) && k <= |Script(ts)| && Moment(ts, i, k) && at < |ts|
    ensures var rows, id := RowsAfter(ts, k), ts[at].id;
            && (id in rows && Terminal(rows[id].state) <==> at < i)
            && (at < i ==> id in RowsOf(RunOver(ts)) && rows[id] == RowsOf(RunOver(ts))[id])
  {
    MomentStates(ts, i, k, at);
  }

  lemma {:induction false} PlaceInMoment(ts: seq<Task>, i: nat, k: nat, id: string) returns (at: nat)
    requires Distinct(TaskIdsOf(ts)) && k <= |Script(ts)| && Moment(ts, i, k) && id in RowsAfter(ts, k)
    ensures at <= i && at < |ts| && ts[at].id == id
  {
    RunIds(ts[..i]);
    if id in TaskIdsOf(ts[..i]) {
      at := IndexOf(TaskIdsOf(ts[..i]), id);
    } else {
      at := i;
    }
  }
}
