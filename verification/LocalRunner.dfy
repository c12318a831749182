/** The in-process runner: records the edges, then executes the tasks in topological order, fail-fast. */
module LocalRunner {
  import opened Wrappers
  import opened Digraph
  import opened TopoSort
  import opened Values
  import opened Tasks
  import opened Lineage
  import opened RunPlan
  import opened RunLog
  import DagCore

  function InOrder(nodes: seq<Task>, order: seq<nat>): seq<Task>
    requires forall v :: v in order ==> v < |nodes|
  {
    seq(|order|, i requires 0 <= i < |order| => assert order[i] in order; nodes[order[i]])
  }

  function IdPairs(nodes: seq<Task>, edges: seq<Edge>): seq<(string, string)>
    requires forall e :: e in edges ==> e.0 < |nodes| && e.1 < |nodes|
  {
    seq(|edges|, k requires 0 <= k < |edges| =>
      assert edges[k] in edges; (nodes[edges[k].0].id, nodes[edges[k].1].id))
  }

  /** Every write of a run that completes: the edges first, then the rows. */
  function Plan(nodes: seq<Task>, edges: seq<Edge>, order: seq<nat>): seq<Intent>
    requires forall e :: e in edges ==> e.0 < |nodes| && e.1 < |nodes|
    requires forall v :: v in order ==> v < |nodes|
  {
    Links(IdPairs(nodes, edges)) + Script(InOrder(nodes, order))
  }

  function Report(runId: string, p: Progress): RunReport {
    RunReport(runId, p.states, p.outputs, p.topo)
  }

  class LocalRunner {
    const dag: DagCore.Dag<Task>
    const lineage: LineageStore
    /** Whether the scratch directory of a run can be made, as things stand. */
    var scratch: string -> bool

    constructor (dag: DagCore.Dag<Task>, lineage: LineageStore, scratch: string -> bool)
      ensures this.dag == dag && this.lineage == lineage && this.scratch == scratch
    {
      this.dag, this.lineage, this.scratch := dag, lineage, scratch;
    }

    /** The execution of a task and its terminal row. */
    method FinishTask(runId: string, task: Task, ctx: Context, states: map<string, TaskState>,
                      outputs: map<string, Json>)
      returns (r: Result<DagCore.Unit, RunError>, states': map<string, TaskState>,
               outputs': map<string, Json>, failureSeen: bool)
      requires lineage.Valid()
      modifies lineage, ctx
      ensures lineage.Valid() && (r.Failure? ==> r.error == StoreFailed)
      ensures Wrote(lineage.accepts, old(lineage.Past()), lineage.Past(), runId,
                    if r.Success? then [Executed(task, old(ctx.state))[1]] else [], Refused(r))
      ensures r.Success? ==> match task.body(old(ctx.state)).result
        case Success(out) =>
          && ctx.state == (old(ctx.state) + task.body(old(ctx.state)).puts)[task.id := out]
          && states' == states[task.id := Succeeded] && outputs' == outputs[task.id := AsJson(out)]
          && !failureSeen
        case Failure(message) =>
          && ctx.state == old(ctx.state) + task.body(old(ctx.state)).puts
          && states' == states[task.id := Failed] && outputs' == outputs[task.id := ErrorJson(message)]
          && failureSeen
    {
      states', outputs', failureSeen := states, outputs, false;
      var result := Execute(task, ctx);
      match result {
        case Success(out) =>
          ctx.Put(task.id, out);
          var json := AsJson(out);
          outputs' := outputs'[task.id := json];
          r := PersistState(lineage, runId, task.id, Succeeded, Some(json));
          states' := states'[task.id := Succeeded];
        case Failure(message) =>
          var json := ErrorJson(message);
          r := PersistState(lineage, runId, task.id, Failed, Some(json));
          states' := states'[task.id := Failed];
          outputs' := outputs'[task.id := json];
          failureSeen := true;
      }
    }

    /** Runs one task that is not skipped: Running, the execution, then the terminal row. */
    method ExecuteTask(runId: string, task: Task, ctx: Context, states: map<string, TaskState>,
                       outputs: map<string, Json>)
      returns (r: Result<DagCore.Unit, RunError>, states': map<string, TaskState>,
               outputs': map<string, Json>, failureSeen: bool, ghost written: seq<Intent>)
      requires lineage.Valid()
      modifies lineage, ctx
      ensures lineage.Valid()
      ensures Wrote(lineage.accepts, old(lineage.Past()), lineage.Past(), runId, written, Refused(r))
      ensures var rows := Executed(task, old(ctx.state));
        && written <= rows && (r.Success? ==> written == rows)
        && (r.Failure? ==> r.error == StoreFailed && |written| < |rows|)
      ensures r.Success? ==> match task.body(old(ctx.state)).result
        case Success(out) =>
          && ctx.state == (old(ctx.state) + task.body(old(ctx.state)).puts)[task.id := out]
          && states' == states[task.id := Succeeded] && outputs' == outputs[task.id := AsJson(out)]
          && !failureSeen
        case Failure(message) =>
          && ctx.state == old(ctx.state) + task.body(old(ctx.state)).puts
          && states' == states[task.id := Failed] && outputs' == outputs[task.id := ErrorJson(message)]
          && failureSeen
    {
      states', outputs', failureSeen, written := states, outputs, false, [];
      ghost var rows, before := Executed(task, ctx.state), lineage.Past();
      r := PersistState(lineage, runId, task.id, Running, None);
      if r.Failure? { return; }
      ghost var mid := lineage.Past();
      r, states', outputs', failureSeen := FinishTask(runId, task, ctx, states[task.id := Running], outputs);
      ghost var last := if r.Success? then [rows[1]] else [];
      WroteInTurn(lineage.accepts, before, mid, lineage.Past(), runId, [rows[0]], last, Refused(r));
      written := [rows[0]] + last;
    }

    /** The loop body: a task after a failure is skipped, any other is executed. */
    method RunTask(runId: string, task: Task, ctx: Context, states: map<string, TaskState>,
                   outputs: map<string, Json>, ghost topo: seq<string>, failureSeen: bool)
      returns (r: Result<DagCore.Unit, RunError>, states': map<string, TaskState>,
               outputs': map<string, Json>, failureSeen': bool, ghost written: seq<Intent>)
      requires lineage.Valid()
      modifies lineage, ctx
      ensures lineage.Valid()
      ensures Wrote(lineage.accepts, old(lineage.Past()), lineage.Past(), runId, written, Refused(r))
      ensures var p := Progress(old(ctx.state), states, outputs, topo, failureSeen);
        && written <= Chunk(p, task)
        && (r.Success? ==>
              && written == Chunk(p, task)
              && Advance(p, task) == Progress(ctx.state, states', outputs', topo + [task.id], failureSeen'))
        && (r.Failure? ==> r.error == StoreFailed && |written| < |Chunk(p, task)|)
    {
      if failureSeen {
        states', outputs', failureSeen', written := states, outputs, true, [];
        r := PersistState(lineage, runId, task.id, Skipped, None);
        if r.Failure? { return; }
        states', written := states'[task.id := Skipped], [Mark(task.id, Skipped, None)];
      } else {
        r, states', outputs', failureSeen', written := ExecuteTask(runId, task, ctx, states, outputs);
      }
    }

    /** The walk over the order, after the edges have been recorded. */
    method RunInOrder(runId: string, order: seq<nat>)
      returns (r: Result<RunReport, RunError>, ghost written: seq<Intent>)
      requires dag.Valid() && lineage.Valid()
      requires forall v :: v in order ==> v < |dag.nodes|
      modifies lineage
      ensures dag.Valid() && lineage.Valid()
      ensures Wrote(lineage.accepts, old(lineage.Past()), lineage.Past(), runId, written, Refused(r))
      ensures var ts := InOrder(dag.nodes, order);
        && written <= Script(ts)
        && (r.Success? ==> scratch(runId) && written == Script(ts) && r.value == Report(runId, RunOver(ts)))
        && (r.Failure? ==>
              || (r.error == ScratchFailed && !scratch(runId) && written == [])
              || (r.error == StoreFailed && scratch(runId) && |written| < |Script(ts)|))
    {
      ghost var ts, before := InOrder(dag.nodes, order), lineage.Past();
      written := [];
      if !scratch(runId) { return Failure(ScratchFailed), []; }
      var ctx := new Context(runId);

      var taskStates: map<string, TaskState> := map[];
      var taskOutputs: map<string, Json> := map[];
      var topoIds: seq<string> := [];
      var failureSeen := false;
      for i := 0 to |order|
        invariant dag.Valid() && lineage.Valid() && fresh(ctx)
        invariant Walked(ts, i, Progress(ctx.state, taskStates, taskOutputs, topoIds, failureSeen), written)
        invariant Wrote(lineage.accepts, before, lineage.Past(), runId, written, false)
      {
        assert order[i] in order;
        var task := dag.nodes[order[i]];
        ghost var mid, p := lineage.Past(), Progress(ctx.state, taskStates, taskOutputs, topoIds, failureSeen);
        var ran;
        ghost var more;
        ran, taskStates, taskOutputs, failureSeen, more :=
          RunTask(runId, task, ctx, taskStates, taskOutputs, topoIds, failureSeen);
        WroteInTurn(lineage.accepts, before, mid, lineage.Past(), runId, written, more, Refused(ran));
        WalkStep(ts, i, p, written, more);
        written := written + more;
        if ran.Failure? { return Failure(ran.error), written; }
        topoIds := topoIds + [task.id];
      }
      WalkDone(ts, Progress(ctx.state, taskStates, taskOutputs, topoIds, failureSeen), written);
      r := Success(RunReport(runId, taskStates, taskOutputs, topoIds));
    }

    /**
     * One run. On a cyclic graph nothing is written. Otherwise what is written is a prefix of the
     * plan, all of it if the run completes, and the report is that of the run's specification. The
     * run completes exactly if the graph is acyclic, the scratch directory can be made and the store
     * accepts the plan; a failure says which of these was missing.
     */
    method Run(runId: string) returns (r: Result<RunReport, RunError>, ghost written: seq<Intent>)
      requires dag.Valid() && lineage.Valid()
      modifies lineage
      ensures dag.Valid() && lineage.Valid()
      ensures Wrote(lineage.accepts, old(lineage.Past()), lineage.Past(), runId, written, Refused(r))
      ensures r.Failure? && r.error.Rejected? <==> !Acyclic(dag.AsGraph())
      ensures !Acyclic(dag.AsGraph()) ==>
        && written == []
        && r.error.error.Cycle? && OnCycle(dag.AsGraph(), r.error.error.node)
      ensures Acyclic(dag.AsGraph()) ==>
        && IsTopoOrder(dag.AsGraph(), SortedOrder(dag.AsGraph()))
        && var order := SortedOrder(dag.AsGraph());
           var plan := Plan(dag.nodes, dag.edges, order);
           && written <= plan
           && (r.Success? <==> scratch(runId) && Accepted(lineage.accepts, old(lineage.attempts), |plan|))
           && (r.Success? ==>
                && written == plan
                && r.value == Report(runId, RunOver(InOrder(dag.nodes, order)))
                && r.value.runId == runId)
           && (r.Failure? ==>
                || (r.error == ScratchFailed && !scratch(runId) && |written| == |dag.edges|)
                || (r.error == StoreFailed && |written| < (if scratch(runId) then |plan| else |dag.edges|)))
    {
      ghost var before := lineage.Past();
      written := [];
      var checked := dag.CycleCheck();
      if checked.Failure? { return Failure(Rejected(checked.error)), []; }
      var sorted := dag.TopoSort();
      if sorted.Failure? { assert false; }  // the sort and the check agree
      ghost var plan := Plan(dag.nodes, dag.edges, sorted.value);
      var recorded;
      recorded, written := RecordLinks(lineage, runId, IdPairs(dag.nodes, dag.edges));
      if recorded.Failure? {
        RefusedMeansNotAccepted(lineage.accepts, before, lineage.Past(), runId, written, true, plan);
        return Failure(recorded.error), written;
      }
      ghost var mid := lineage.Past();
      ghost var more;
      r, more := RunInOrder(runId, sorted.value);
      WroteInTurn(lineage.accepts, before, mid, lineage.Past(), runId, written, more, Refused(r));
      written := written + more;
      if scratch(runId) {
        RefusedMeansNotAccepted(lineage.accepts, before, lineage.Past(), runId, written, Refused(r), plan);
      }
    }
  }

  /** The first i tasks have been run and their rows written. */
  ghost predicate Walked(ts: seq<Task>, i: nat, p: Progress, written: seq<Intent>) {
    i <= |ts| && RunOver(ts[..i]) == p && Script(ts[..i]) == written
  }

  lemma {:induction false} WalkStep(ts: seq<Task>, i: nat, p: Progress, written: seq<Intent>, more: seq<Intent>)
    requires Walked(ts, i, p, written) && i < |ts| && more <= Chunk(p, ts[i])
    ensures more == Chunk(p, ts[i]) ==> Walked(ts, i + 1, Advance(p, ts[i]), written + more)
    ensures written + more <= Script(ts)
    ensures |more| < |Chunk(p, ts[i])| ==> |written + more| < |Script(ts)|
  {
    StepOfRun(ts, i);
    assert written + more <= written + Chunk(p, ts[i]);
    ScriptPrefix(ts, i + 1);
  }

  lemma {:induction false} WalkDone(ts: seq<Task>, p: Progress, written: seq<Intent>)
    requires Walked(ts, |ts|, p, written)
    ensures RunOver(ts) == p && Script(ts) == written
  {
    assert ts[..|ts|] == ts;
  }
}
