/** The runner that hands the DAG to the forjar CLI; the CLI is an oracle fixed for the run. */
module ForjarRunner {
  import opened Wrappers
  import opened Digraph
  import opened Values
  import opened Lineage
  import opened RunPlan
  import opened RunLog
  import opened DagSpec
  import DagCore

  /** One entry of the ordered resource map. */
  datatype Resource = Resource(id: string, dependsOn: seq<string>, kind: Option<string>)

  /**
   * How the CLI answers: the version probe succeeds or not; `validate` may not start, or exits with
   * success or failure; `graph` starts or not, and its exit status is ignored.
   */
  datatype Forjar = Forjar(versionOk: bool, validate: Option<bool>, graphStarts: bool)

  function AsTasks(resources: seq<Resource>): seq<TaskSpec> {
    seq(|resources|, i requires 0 <= i < |resources| => TaskSpec(resources[i].id, resources[i].dependsOn))
  }

  function Keys(resources: seq<Resource>): seq<string> {
    Ids(AsTasks(resources))
  }

  function KindOf(resources: seq<Resource>, id: string): string {
    if resources == [] then "unknown"
    else if resources[0].id == id then
      match resources[0].kind { case Some(k) => k case None => "unknown" }
    else KindOf(resources[1..], id)
  }

  /** With distinct keys, the kind of a resource is the declared one, or "unknown". */
  lemma {:induction false} KindOfResource(resources: seq<Resource>, i: nat)
    requires Distinct(Keys(resources)) && i < |resources|
    ensures KindOf(resources, resources[i].id) ==
            match resources[i].kind { case Some(k) => k case None => "unknown" }
  {
    if i > 0 {
      assert Keys(resources)[0] != Keys(resources)[i];
      assert forall k :: 0 <= k < |resources[1..]| ==> Keys(resources[1..])[k] == Keys(resources)[k + 1];
      KindOfResource(resources[1..], i - 1);
    }
  }

  function Payload(resources: seq<Resource>, id: string): Json {
    Object(map["task_id" := Str(id), "kind" := Str(KindOf(resources, id))])
  }

  // ---------- the plan ----------

  function MarkAll(ids: seq<string>, state: TaskState): seq<Intent> {
    seq(|ids|, i requires 0 <= i < |ids| => Mark(ids[i], state, None))
  }

  function MarkDone(resources: seq<Resource>, ids: seq<string>): seq<Intent> {
    seq(|ids|, i requires 0 <= i < |ids| => Mark(ids[i], Succeeded, Some(Payload(resources, ids[i]))))
  }

  function IdsAlong(ids: seq<string>, order: seq<nat>): seq<string>
    requires forall v :: v in order ==> v < |ids|
  {
    seq(|order|, i requires 0 <= i < |order| => assert order[i] in order; ids[order[i]])
  }

  ghost predicate Completes(resources: seq<Resource>, forjar: Forjar) {
    forjar.versionOk && forjar.validate == Some(true) && forjar.graphStarts && Runnable(AsTasks(resources))
  }

  /** The rows after every task is Running, as the CLI's answers and the resources decide, in the sort's order. */
  ghost function LastRows(resources: seq<Resource>, forjar: Forjar, order: seq<nat>): seq<Intent>
    requires forall v :: v in order ==> v < |resources|
  {
    if forjar.validate == Some(false) then MarkAll(Keys(resources), Failed)
    else if forjar.validate == Some(true) && forjar.graphStarts && Runnable(AsTasks(resources)) then
      MarkDone(resources, IdsAlong(Keys(resources), order))
    else []
  }

  /** Every write of a run: the edges, then Running for every task, then the last rows. */
  ghost function Plan(resources: seq<Resource>, forjar: Forjar, order: seq<nat>): seq<Intent>
    requires forall v :: v in order ==> v < |resources|
  {
    var links := Links(Dependencies(AsTasks(resources)));
    if forjar.versionOk then links + MarkAll(Keys(resources), Running) + LastRows(resources, forjar, order)
    else links
  }

  function OutputsOf(resources: seq<Resource>, ids: seq<string>): map<string, Json> {
    map id | id in ids :: Payload(resources, id)
  }

  function StatesOf(ids: seq<string>): map<string, TaskState> {
    map id | id in ids :: Succeeded
  }

  lemma {:induction false} ReportStep(resources: seq<Resource>, ids: seq<string>, i: nat)
    requires i < |ids|
    ensures OutputsOf(resources, ids[..i + 1]) == OutputsOf(resources, ids[..i])[ids[i] := Payload(resources, ids[i])]
    ensures StatesOf(ids[..i + 1]) == StatesOf(ids[..i])[ids[i] := Succeeded]
  {
    assert ids[..i + 1] == ids[..i] + [ids[i]];
  }

  function Report(runId: string, resources: seq<Resource>, order: seq<nat>): RunReport
    requires forall v :: v in order ==> v < |resources|
  {
    var ids := IdsAlong(Keys(resources), order);
    RunReport(runId, StatesOf(ids), OutputsOf(resources, ids), ids)
  }

  // ---------- the order ----------

  /** Builds the graph of the resources and sorts it; accepts exactly what the builders without an id check accept. */
  method TopoOrderFromResources(resources: seq<Resource>) returns (r: Result<seq<string>, BuildError>)
    ensures r.Success? <==> Runnable(AsTasks(resources))
    ensures r.Success? ==> r.value == IdsAlong(Keys(resources), SortOf(AsTasks(resources)))
    ensures r.Failure? ==> !r.error.DuplicateTaskId? && Explains(AsTasks(resources), r.error)
  {
    var tasks := AsTasks(resources);
    var dag, indices := AddResources(resources);
    var connected := Connect(dag, tasks, indices);
    if connected.Failure? { return Failure(connected.error); }
    CircularMeansCyclic(tasks);
    var sorted := dag.TopoSort();
    match sorted
    case Failure(e) => return Failure(BuildError.Rejected(e));
    case Success(order) =>
      var ids := dag.Payloads(order);
      assert ids == IdsAlong(dag.nodes, order);
      return Success(ids);
  }

  /** The first loop of the builder: one node per resource. */
  method AddResources(resources: seq<Resource>) returns (dag: DagCore.Dag<string>, indices: map<string, nat>)
    ensures fresh(dag) && dag.Valid() && dag.edges == []
    ensures dag.nodes == Keys(resources) && indices == IndexTable(AsTasks(resources))
  {
    var tasks := AsTasks(resources);
    dag := new DagCore.Dag<string>();
    indices := map[];
    for j := 0 to |tasks|
      invariant fresh(dag) && dag.Valid() && dag.edges == []
      invariant dag.nodes == Ids(tasks)[..j] && indices == IndexTable(tasks[..j])
    {
      assert tasks[..j + 1][..j] == tasks[..j];
      var idx := dag.AddNode(resources[j].id);
      indices := indices[resources[j].id := idx];
    }
    assert tasks[..|tasks|] == tasks;
    assert Ids(tasks)[..|tasks|] == Ids(tasks);
  }

  lemma {:induction false} PlanInParts(resources: seq<Resource>, forjar: Forjar, order: seq<nat>)
    requires (forall v :: v in order ==> v < |resources|) && forjar.versionOk
    ensures Plan(resources, forjar, order) == Links(Dependencies(AsTasks(resources))) +
              (MarkAll(Keys(resources), Running) + LastRows(resources, forjar, order))
  {
  }

  // ---------- the run ----------

  /** The error of a run that no refused write stopped and that did not complete. */
  ghost predicate StopsWith(resources: seq<Resource>, forjar: Forjar, e: RunError) {
    if !forjar.versionOk then e == BinaryMissing
    else match forjar.validate
      case None => e == ValidateNotRun
      case Some(false) => e == ValidateFailed
      case Some(true) =>
        if !forjar.graphStarts then e == GraphNotRun
        else e.BadResources? && !e.reason.DuplicateTaskId? && Explains(AsTasks(resources), e.reason)
  }

  class ForjarRunner {
    const resources: seq<Resource>
    const lineage: LineageStore
    const forjar: Forjar

    constructor (resources: seq<Resource>, lineage: LineageStore, forjar: Forjar)
      requires Distinct(Keys(resources))
      ensures this.resources == resources && this.lineage == lineage && this.forjar == forjar
    {
      this.resources, this.lineage, this.forjar := resources, lineage, forjar;
    }

    /** The pairs in the shape the in-process runner records, then one edge row each. */
    method RecordEdges(runId: string) returns (r: Result<DagCore.Unit, RunError>, ghost written: seq<Intent>)
      requires lineage.Valid()
      modifies lineage
      ensures lineage.Valid()
      ensures Wrote(lineage.accepts, old(lineage.Past()), lineage.Past(), runId, written, Refused(r))
      ensures var links := Links(Dependencies(AsTasks(resources)));
        && written <= links && (r.Success? ==> written == links)
        && (r.Failure? ==> r.error == StoreFailed && |written| < |links|)
    {
      var tasks := AsTasks(resources);
      var edgePairs: seq<(string, string)> := [];
      for j := 0 to |tasks|
        invariant edgePairs == Dependencies(tasks[..j])
      {
        assert tasks[..j + 1][..j] == tasks[..j];
        edgePairs := edgePairs + DependenciesOf(tasks[j]);
      }
      assert tasks[..|tasks|] == tasks;
      r, written := RecordLinks(lineage, runId, edgePairs);
    }

    /** Records the same state, without output, for every resource. */
    method PersistAll(runId: string, state: TaskState)
      returns (r: Result<DagCore.Unit, RunError>, ghost written: seq<Intent>)
      requires lineage.Valid()
      modifies lineage
      ensures lineage.Valid()
      ensures Wrote(lineage.accepts, old(lineage.Past()), lineage.Past(), runId, written, Refused(r))
      ensures var marks := MarkAll(Keys(resources), state);
        && written <= marks && (r.Success? ==> written == marks)
        && (r.Failure? ==> r.error == StoreFailed && |written| < |marks|)
    {
      ghost var marks, before := MarkAll(Keys(resources), state), lineage.Past();
      NothingWritten(lineage.accepts, before, runId);
      for i := 0 to |resources|
        invariant lineage.Valid() && Wrote(lineage.accepts, before, lineage.Past(), runId, marks[..i], false)
      {
        r := PersistNext(lineage, runId, resources[i].id, state, None, before, marks, i);
        if r.Failure? { return r, marks[..i]; }
      }
      return Success(DagCore.Unit.Unit), marks[..|resources|];
    }

    /** The last loop: every task of the order Succeeded with its payload. */
    method PersistOrder(runId: string, order: seq<string>)
      returns (r: Result<RunReport, RunError>, ghost written: seq<Intent>)
      requires lineage.Valid()
      modifies lineage
      ensures lineage.Valid()
      ensures Wrote(lineage.accepts, old(lineage.Past()), lineage.Past(), runId, written, Refused(r))
      ensures var marks := MarkDone(resources, order);
        && written <= marks && (r.Success? ==> written == marks)
        && (r.Failure? ==> r.error == StoreFailed && |written| < |marks|)
      ensures r.Success? ==> r.value == RunReport(runId, StatesOf(order), OutputsOf(resources, order), order)
    {
      ghost var marks, before := MarkDone(resources, order), lineage.Past();
      NothingWritten(lineage.accepts, before, runId);
      var taskOutputs: map<string, Json> := map[];
      var taskStates: map<string, TaskState> := map[];
      for i := 0 to |order|
        invariant lineage.Valid() && Wrote(lineage.accepts, before, lineage.Past(), runId, marks[..i], false)
        invariant taskOutputs == OutputsOf(resources, order[..i]) && taskStates == StatesOf(order[..i])
      {
        ReportStep(resources, order, i);
        var id := order[i];
        var payload := Payload(resources, id);
        taskOutputs := taskOutputs[id := payload];
        var persisted := PersistNext(lineage, runId, id, Succeeded, Some(payload), before, marks, i);
        if persisted.Failure? { return Failure(persisted.error), marks[..i]; }
        taskStates := taskStates[id := Succeeded];
      }
      assert order[..|order|] == order;
      return Success(RunReport(runId, taskStates, taskOutputs, order)), marks[..|order|];
    }

    /** From the validation on, every task being Running. */
    method ValidateAndFinish(runId: string)
      returns (r: Result<RunReport, RunError>, ghost written: seq<Intent>)
      requires lineage.Valid() && forjar.versionOk
      modifies lineage
      ensures lineage.Valid()
      ensures Wrote(lineage.accepts, old(lineage.Past()), lineage.Past(), runId, written, Refused(r))
      ensures var last := LastRows(resources, forjar, SortOf(AsTasks(resources)));
        if Refused(r) then written <= last && |written| < |last| else written == last
      ensures r.Success? ==>
        Completes(resources, forjar) && r.value == Report(runId, resources, SortOf(AsTasks(resources)))
      ensures r.Failure? && !Refused(r) ==> !Completes(resources, forjar) && StopsWith(resources, forjar, r.error)
    {
      written := [];
      match forjar.validate {
        case None => return Failure(ValidateNotRun), [];
        case Some(valid) =>
          if !valid {
            var failed;
            failed, written := PersistAll(runId, Failed);
            if failed.Failure? { return Failure(failed.error), written; }
            return Failure(ValidateFailed), written;
          }
      }
      if !forjar.graphStarts { return Failure(GraphNotRun), []; }
      var sorted := TopoOrderFromResources(resources);
      if sorted.Failure? { return Failure(BadResources(sorted.error)), []; }
      r, written := PersistOrder(runId, sorted.value);
    }

    /** After the probe: Running for every task, then the rest. */
    method StartAndFinish(runId: string) returns (r: Result<RunReport, RunError>, ghost written: seq<Intent>)
      requires lineage.Valid() && forjar.versionOk
      modifies lineage
      ensures lineage.Valid()
      ensures Wrote(lineage.accepts, old(lineage.Past()), lineage.Past(), runId, written, Refused(r))
      ensures var rows := MarkAll(Keys(resources), Running) + LastRows(resources, forjar, SortOf(AsTasks(resources)));
        if Refused(r) then written <= rows && |written| < |rows| else written == rows
      ensures r.Success? ==>
        Completes(resources, forjar) && r.value == Report(runId, resources, SortOf(AsTasks(resources)))
      ensures r.Failure? && !Refused(r) ==> !Completes(resources, forjar) && StopsWith(resources, forjar, r.error)
    {
      ghost var start := lineage.Past();
      var started;
      started, written := PersistAll(runId, Running);
      if started.Failure? { return Failure(started.error), written; }
      ghost var mid := lineage.Past();
      ghost var more;
      r, more := ValidateAndFinish(runId);
      WroteInTurn(lineage.accepts, start, mid, lineage.Past(), runId, written, more, Refused(r));
      written := written + more;
    }

    /**
     * One run. What is written is a prefix of the plan, and all of the plan unless a write was
     * refused. It completes exactly if the CLI answers well, the resources build and the store accepts
     * the plan. Resources with a cycle leave every task Running when `validate` accepts them.
     */
    method Run(runId: string) returns (r: Result<RunReport, RunError>, ghost written: seq<Intent>)
      requires lineage.Valid()
      modifies lineage
      ensures lineage.Valid()
      ensures Wrote(lineage.accepts, old(lineage.Past()), lineage.Past(), runId, written, Refused(r))
      ensures var plan := Plan(resources, forjar, SortOf(AsTasks(resources)));
        && written <= plan && (!Refused(r) ==> written == plan)
        && (Refused(r) <==> !Accepted(lineage.accepts, old(lineage.attempts), |plan|))
        && (r.Success? <==> Completes(resources, forjar) && Accepted(lineage.accepts, old(lineage.attempts), |plan|))
      ensures r.Success? ==> r.value == Report(runId, resources, SortOf(AsTasks(resources))) && r.value.runId == runId
      ensures r.Failure? && !Refused(r) ==> StopsWith(resources, forjar, r.error)
    {
      ghost var start, plan := lineage.Past(), Plan(resources, forjar, SortOf(AsTasks(resources)));
      var recorded;
      recorded, written := RecordEdges(runId);
      if recorded.Failure? {
        r := Failure(recorded.error);
      } else if !forjar.versionOk {
        r := Failure(BinaryMissing);
      } else {
        ghost var mid := lineage.Past();
        ghost var more;
        r, more := StartAndFinish(runId);
        WroteInTurn(lineage.accepts, start, mid, lineage.Past(), runId, written, more, Refused(r));
        PlanInParts(resources, forjar, SortOf(AsTasks(resources)));
        written := written + more;
      }
      RefusedMeansNotAccepted(lineage.accepts, start, lineage.Past(), runId, written, Refused(r), plan);
    }
  }
}
