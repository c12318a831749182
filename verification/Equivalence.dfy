/** The three builders accept the same specifications up to duplicate ids, and the two runners agree. */
module Equivalence {
  import opened Wrappers
  import opened Digraph
  import opened Values
  import opened Tasks
  import opened Lineage
  import opened RunPlan
  import opened LocalRunner
  import opened DagSpec
  import opened Schedule
  import opened Recovery
  import opened Duplicates
  import DagCore
  import Forjar = ForjarRunner
  import Mermaid

  /** `build` accepts exactly the specifications with distinct ids that the other two builders accept. */
  lemma {:induction false} BuildersAgree(tasks: seq<TaskSpec>)
    ensures DistinctIds(tasks) && KnownDependencies(tasks) && NoRepeatedDependency(tasks)
              && !Circular(Dependencies(tasks))
       <==> DistinctIds(tasks) && Runnable(tasks)
  {
    if DistinctIds(tasks) { RepeatedPairs(tasks); }
  }

  lemma {:induction false} CircleHasPair(pairs: seq<Dependency>)
    ensures Circular(pairs) ==> pairs != []
  {
    if Circular(pairs) {
      var c :| Circle(pairs, c);
      assert (c[0], c[0 + 1]) in pairs;
    }
  }

  /** Without the duplicate-id check the builders accept a specification that `build` rejects. */
  lemma {:induction false} DuplicateIdIsRunnable()
    ensures var tasks := [TaskSpec("a", []), TaskSpec("a", [])];
            Runnable(tasks) && !DistinctIds(tasks)
  {
    var tasks := [TaskSpec("a", []), TaskSpec("a", [])];
    assert tasks[..1] == [TaskSpec("a", [])] && tasks[..1][..0] == [];
    assert Dependencies(tasks) == [];
    assert Ids(tasks)[0] == Ids(tasks)[1];
    CircleHasPair(Dependencies(tasks));
  }

  lemma {:induction false} TwoUnrelatedTasks()
    ensures var tasks := [TaskSpec("a", []), TaskSpec("b", [])];
            Ids(tasks) == ["a", "b"] && DistinctIds(tasks) && Dependencies(tasks) == [] && Runnable(tasks)
  {
    var tasks := [TaskSpec("a", []), TaskSpec("b", [])];
    assert tasks[..1] == [TaskSpec("a", [])] && tasks[..1][..0] == [];
    assert Dependencies(tasks) == [];
    CircleHasPair(Dependencies(tasks));
  }

  /** The documented rejection of orphan tasks is not in `build`: two unrelated tasks are accepted. */
  lemma {:induction false} OrphansAreAccepted()
    ensures var tasks := [TaskSpec("a", []), TaskSpec("b", [])];
            DistinctIds(tasks) && Runnable(tasks) && !DagCore.NoOrphan(SpecGraph(tasks))
  {
    var tasks := [TaskSpec("a", []), TaskSpec("b", [])];
    TwoUnrelatedTasks();
    assert !DagCore.HasNeighbour(SpecGraph(tasks), 0);
  }

  /** An accepted specification has no orphan exactly if every task declares a dependency or is one. */
  lemma {:induction false} OrphanFreeSpecs(tasks: seq<TaskSpec>)
    requires DistinctIds(tasks) && Runnable(tasks)
    ensures DagCore.NoOrphan(SpecGraph(tasks)) <==>
            forall i :: 0 <= i < |tasks| ==>
              tasks[i].dependsOn != [] || exists j :: 0 <= j < |tasks| && tasks[i].id in tasks[j].dependsOn
  {
    forall i: nat | i < |tasks|
      ensures DagCore.HasNeighbour(SpecGraph(tasks), i) <==>
        tasks[i].dependsOn != [] || exists j :: 0 <= j < |tasks| && tasks[i].id in tasks[j].dependsOn
    {
      NeighbourOfTask(tasks, i);
    }
  }

  lemma {:induction false} NeighbourOfTask(tasks: seq<TaskSpec>, i: nat)
    requires DistinctIds(tasks) && Runnable(tasks) && i < |tasks|
    ensures DagCore.HasNeighbour(SpecGraph(tasks), i) <==>
        tasks[i].dependsOn != [] || exists j :: 0 <= j < |tasks| && tasks[i].id in tasks[j].dependsOn
  {
    var g := SpecGraph(tasks);
    if e :| e in g.edges && (e.0 == i || e.1 == i) {
      assert (e.0, e.1) == e;
      EdgeMeaning(tasks, e.0, e.1);
    }
    if tasks[i].dependsOn != [] {
      var dep := tasks[i].dependsOn[0];
      OwnDependencies(tasks, i, dep);
      assert (dep, tasks[i].id) in Dependencies(tasks);
      var d := IndexOf(Ids(tasks), dep);
      EdgeMeaning(tasks, d, i);
      assert (d, i) in g.edges;
    }
    if j :| 0 <= j < |tasks| && tasks[i].id in tasks[j].dependsOn {
      EdgeMeaning(tasks, i, j);
      assert (i, j) in g.edges;
    }
  }

  /** Tasks, under any bodies, on the graph of a specification that the builder without an id check accepts. */
  ghost predicate OnRunnable(tasks: seq<TaskSpec>, nodes: seq<Task>) {
    Runnable(tasks) && TaskIdsOf(nodes) == Ids(tasks)
  }

  /** And on that of one that `build` accepts. */
  ghost predicate OnSpec(tasks: seq<TaskSpec>, nodes: seq<Task>) {
    DistinctIds(tasks) && OnRunnable(tasks, nodes)
  }

  lemma {:induction false} SpecSchedule(tasks: seq<TaskSpec>, nodes: seq<Task>, order: seq<nat>)
    requires OnRunnable(tasks, nodes) && OrderFor(tasks, order)
    ensures Simple(SpecGraph(tasks)) && Acyclic(SpecGraph(tasks)) && Arranged(SpecGraph(tasks), nodes, order)
    ensures DistinctIds(tasks) ==> Scheduled(SpecGraph(tasks), nodes, order)
  {
    assert |nodes| == |TaskIdsOf(nodes)| == |tasks|;
    SpecGraphSimple(tasks);
    CircularMeansCyclic(tasks);
  }

  /** The tasks of an in-process run, in its order. */
  ghost function LocalSequence(tasks: seq<TaskSpec>, nodes: seq<Task>, order: seq<nat>): seq<Task>
    requires OnRunnable(tasks, nodes) && OrderFor(tasks, order)
  {
    SpecSchedule(tasks, nodes, order);
    Sequence(SpecGraph(tasks), nodes, order)
  }

  lemma {:induction false} SameOrder(tasks: seq<TaskSpec>, nodes: seq<Task>, order: seq<nat>)
    requires OnRunnable(tasks, nodes) && OrderFor(tasks, order)
    ensures TaskIdsOf(LocalSequence(tasks, nodes, order)) == Forjar.IdsAlong(Ids(tasks), order)
    ensures DistinctIds(tasks) ==> Distinct(TaskIdsOf(LocalSequence(tasks, nodes, order)))
    ensures forall id :: id in Forjar.IdsAlong(Ids(tasks), order) <==> id in Ids(tasks)
  {
    SpecSchedule(tasks, nodes, order);
    var ts := LocalSequence(tasks, nodes, order);
    forall i | 0 <= i < |ts| ensures TaskIdsOf(ts)[i] == Forjar.IdsAlong(Ids(tasks), order)[i] {
      assert order[i] in order;
      assert TaskIdsOf(nodes)[order[i]] == Ids(tasks)[order[i]];
    }
    SameIds(SpecGraph(tasks), nodes, order);
  }

  /**
   * Completed runs of both runners, over any valid orders, report the same task ids, and the same
   * order if they sorted alike; the same output keys exactly if no task but the last of the
   * in-process run failed; and the same states if it succeeded.
   */
  lemma {:induction false} RunnersAgree(tasks: seq<TaskSpec>, nodes: seq<Task>, x: seq<nat>, a: string,
                                        resources: seq<Forjar.Resource>, y: seq<nat>, b: string)
    requires OnSpec(tasks, nodes) && Forjar.AsTasks(resources) == tasks
    requires OrderFor(tasks, x) && OrderFor(tasks, y)
    ensures var ts := LocalSequence(tasks, nodes, x);
            var l, f := Report(a, RunOver(ts)), Forjar.Report(b, resources, y);
            && (x == y ==> l.topoOrder == f.topoOrder)
            && l.taskStates.Keys == f.taskStates.Keys == Elements(Ids(tasks))
            && (l.taskOutputs.Keys == f.taskOutputs.Keys <==> FirstFailure(ts) + 1 >= |ts|)
            && (l.AllSucceeded() ==> l.taskStates == f.taskStates)
  {
    var ts := LocalSequence(tasks, nodes, x);
    SameOrder(tasks, nodes, x);
    RunIds(ts);
    assert Elements(TaskIdsOf(ts)) == Elements(Ids(tasks));
    assert RunOver(ts).states.Keys == Elements(Ids(tasks));
    OutputsReach(ts);
    ForjarReportKeys(resources, y, b);
    SucceededReports(Report(a, RunOver(ts)), Forjar.Report(b, resources, y));
  }

  /** The exact condition on the tasks: every task but the last of the order evaluates to a value. */
  lemma {:induction false} OutputKeysAgree(tasks: seq<TaskSpec>, nodes: seq<Task>, x: seq<nat>, a: string,
                                           resources: seq<Forjar.Resource>, y: seq<nat>, b: string)
    requires OnSpec(tasks, nodes) && Forjar.AsTasks(resources) == tasks
    requires OrderFor(tasks, x) && OrderFor(tasks, y)
    requires SparesOtherTasks(nodes) && |nodes| == |tasks| && ReadsAncestorsOnly(SpecGraph(tasks), nodes)
    ensures Acyclic(SpecGraph(tasks))
    ensures Report(a, RunOver(LocalSequence(tasks, nodes, x))).taskOutputs.Keys ==
              Forjar.Report(b, resources, y).taskOutputs.Keys
       <==> forall i: nat :: i + 1 < |x| ==> Evaluate(SpecGraph(tasks), nodes, x[i]).Value?
  {
    SpecSchedule(tasks, nodes, x);
    RunnersAgree(tasks, nodes, x, a, resources, y, b);
    ValuesBeforeLast(SpecGraph(tasks), nodes, x);
  }

  /** Where the output keys differ: two tasks, of which the first fails and the second is skipped. */
  lemma {:induction false} OutputKeysCanDiffer(a: string, b: string)
    ensures var resources := [Forjar.Resource("a", [], None), Forjar.Resource("b", [], None)];
            var tasks, nodes := Forjar.AsTasks(resources), OneFails(["a", "b"], 0);
            && OnSpec(tasks, nodes) && OrderFor(tasks, [0, 1])
            && Report(a, RunOver(LocalSequence(tasks, nodes, [0, 1]))).taskOutputs.Keys !=
                 Forjar.Report(b, resources, [0, 1]).taskOutputs.Keys
  {
    var resources := [Forjar.Resource("a", [], None), Forjar.Resource("b", [], None)];
    var tasks, nodes := Forjar.AsTasks(resources), OneFails(["a", "b"], 0);
    assert tasks == [TaskSpec("a", []), TaskSpec("b", [])];
    TwoUnrelatedTasks();
    assert Ids(tasks) == TaskIdsOf(nodes);
    assert IsTopoOrder(SpecGraph(tasks), [0, 1]) by { assert [0, 1][0] == 0 && [0, 1][1] == 1; }
    assert LocalSequence(tasks, nodes, [0, 1]) == nodes by { SpecSchedule(tasks, nodes, [0, 1]); }
    FailsBeforeLast();
    RunnersAgree(tasks, nodes, [0, 1], a, resources, [0, 1], b);
  }

  lemma {:induction false} FailsBeforeLast()
    ensures FirstFailure(OneFails(["a", "b"], 0)) == 0
  {
    var ts := OneFails(["a", "b"], 0);
    assert ts[..1] == [Failing("a")] && ts[..1][..0] == [];
    FirstFailureMeaning(ts);
  }

  lemma {:induction false} SucceededReports(l: RunReport, f: RunReport)
    requires l.taskStates.Keys == f.taskStates.Keys
    requires forall id :: id in f.taskStates ==> f.taskStates[id] == Succeeded
    ensures l.AllSucceeded() ==> l.taskStates == f.taskStates
  {
  }

  lemma {:induction false} ForjarReportKeys(resources: seq<Forjar.Resource>, order: seq<nat>, b: string)
    requires DistinctIds(Forjar.AsTasks(resources)) && Runnable(Forjar.AsTasks(resources))
    requires OrderFor(Forjar.AsTasks(resources), order)
    ensures var f := Forjar.Report(b, resources, order);
            && f.taskStates.Keys == f.taskOutputs.Keys == Elements(Forjar.Keys(resources))
            && forall id :: id in f.taskStates ==> f.taskStates[id] == Succeeded
  {
    OrderHasAllIds(Forjar.AsTasks(resources), order);
  }

  /** Neither runner ever records Queued. */
  lemma {:induction false} NoRunnerQueues(pairs: seq<(string, string)>, ts: seq<Task>,
                                          resources: seq<Forjar.Resource>, forjar: Forjar.Forjar, order: seq<nat>)
    requires forall v :: v in order ==> v < |resources|
    ensures forall i :: i in Links(pairs) + Script(ts) && i.Mark? ==> i.state != Queued
    ensures forall i :: i in Forjar.Plan(resources, forjar, order) && i.Mark? ==> i.state != Queued
  {
    RecordedStates(ts);
    var last := Forjar.LastRows(resources, forjar, order);
    assert forall i :: i in last ==> i.Mark? && i.state != Queued;
  }

  // ---------- what the forjar run leaves ----------

  lemma {:induction false} MarksPlay(v: RunView, ids: seq<string>, marks: seq<Intent>, cell: string -> Cell)
    requires |marks| == |ids|
    requires forall i :: 0 <= i < |ids| ==> marks[i] == Mark(ids[i], cell(ids[i]).state, cell(ids[i]).output)
    ensures Play(v, marks) == RunView(v.rows + CellsOf(ids, cell), v.edges)
  {
    if ids == [] {
      assert v.rows + CellsOf(ids, cell) == v.rows;
    } else {
      var n := |ids| - 1;
      MarksPlay(v, ids[..n], marks[..n], cell);
      OneMoreCell(v.rows, ids, cell);
    }
  }

  /** Marks for all the ids of the rows leave nothing else in them. */
  lemma {:induction false} MarksOverwrite(w: RunView, keys: seq<string>, ids: seq<string>, marks: seq<Intent>,
                                          cell: string -> Cell)
    requires (forall id :: id in w.rows <==> id in keys) && (forall id :: id in ids <==> id in keys)
    requires |marks| == |ids|
    requires forall i :: 0 <= i < |ids| ==> marks[i] == Mark(ids[i], cell(ids[i]).state, cell(ids[i]).output)
    ensures Play(w, marks).edges == w.edges
    ensures forall id :: id in Play(w, marks).rows <==> id in keys
    ensures forall id :: id in Play(w, marks).rows ==> Play(w, marks).rows[id] == cell(id)
  {
    MarksPlay(w, ids, marks, cell);
  }

  ghost function CellsOf(ids: seq<string>, cell: string -> Cell): map<string, Cell> {
    map id | id in ids :: cell(id)
  }

  lemma {:induction false} OneMoreCell(rows: map<string, Cell>, ids: seq<string>, cell: string -> Cell)
    requires ids != []
    ensures var n := |ids| - 1;
            (rows + CellsOf(ids[..n], cell))[ids[n] := cell(ids[n])] == rows + CellsOf(ids, cell)
  {
    assert ids == ids[..|ids| - 1] + [ids[|ids| - 1]];
  }

  /** The state in which a run that reached the CLI leaves every task. */
  ghost function FinalState(resources: seq<Forjar.Resource>, forjar: Forjar.Forjar): TaskState {
    if Forjar.Completes(resources, forjar) then Succeeded
    else if forjar.validate == Some(false) then Failed
    else Running
  }

  /**
   * What a whole plan leaves on a fresh run id. Edges are recorded even when the probe fails; after
   * it, all tasks share one state, which stays Running when the run stops between Running and the end.
   */
  lemma {:induction false} ForjarOutcome(resources: seq<Forjar.Resource>, forjar: Forjar.Forjar, order: seq<nat>)
    requires Distinct(Forjar.Keys(resources)) && OrderFor(Forjar.AsTasks(resources), order)
    ensures var v := Play(EMPTY_VIEW, Forjar.Plan(resources, forjar, order));
            && v.edges == Elements(Dependencies(Forjar.AsTasks(resources)))
            && (!forjar.versionOk ==> v.rows == map[])
            && (forjar.versionOk ==>
                  && (forall id :: id in v.rows <==> id in Forjar.Keys(resources))
                  && (forall id :: id in v.rows ==> v.rows[id].state == FinalState(resources, forjar)))
            && (Forjar.Completes(resources, forjar) ==>
                  forall id :: id in v.rows ==> v.rows[id].output == Some(Forjar.Payload(resources, id)))
  {
    var tasks, keys := Forjar.AsTasks(resources), Forjar.Keys(resources);
    var links, running := Links(Dependencies(tasks)), Forjar.MarkAll(keys, Running);
    var v := RunView(map[], Elements(Dependencies(tasks)));
    assert Play(EMPTY_VIEW, links) == v by { LinksPlay(EMPTY_VIEW, Dependencies(tasks)); }
    if forjar.versionOk {
      PlayAppend(EMPTY_VIEW, links + running, Forjar.LastRows(resources, forjar, order));
      PlayAppend(EMPTY_VIEW, links, running);
      MarksPlay(v, keys, running, id => Cell(Running, None));
      LastRowsPlay(Play(v, running), resources, forjar, order);
    }
  }

  /** The payload that is due to a resource: its id, and the type it declares, or "unknown". */
  lemma {:induction false} PayloadOfResource(resources: seq<Forjar.Resource>, i: nat)
    requires Distinct(Forjar.Keys(resources)) && i < |resources|
    ensures resources[i].id in Forjar.Keys(resources)
    ensures Forjar.Payload(resources, resources[i].id) ==
            Object(map["task_id" := Str(resources[i].id),
                       "kind" := Str(match resources[i].kind { case Some(k) => k case None => "unknown" })])
  {
    assert Forjar.Keys(resources)[i] == resources[i].id;
    Forjar.KindOfResource(resources, i);
  }

  /** A completed forjar run reports and stores, for every resource, its own id and its declared type. */
  lemma {:induction false} ForjarPayloads(resources: seq<Forjar.Resource>, forjar: Forjar.Forjar, order: seq<nat>,
                                          runId: string, i: nat)
    requires Distinct(Forjar.Keys(resources)) && OrderFor(Forjar.AsTasks(resources), order)
    requires Forjar.Completes(resources, forjar) && i < |resources|
    ensures var id := resources[i].id;
            var out := Object(map["task_id" := Str(id),
                                  "kind" := Str(match resources[i].kind { case Some(k) => k case None => "unknown" })]);
            var report := Forjar.Report(runId, resources, order);
            var rows := Play(EMPTY_VIEW, Forjar.Plan(resources, forjar, order)).rows;
            && id in report.taskOutputs && report.taskOutputs[id] == out
            && id in rows && rows[id] == Cell(Succeeded, Some(out))
  {
    PayloadOfResource(resources, i);
    OrderHasAllIds(Forjar.AsTasks(resources), order);
    ForjarOutcome(resources, forjar, order);
  }

  /** A resource that depends on itself, accepted by `validate`, is left Running. */
  lemma {:induction false} CyclicResourcesStayRunning(order: seq<nat>)
    requires forall v :: v in order ==> v < 1
    ensures var resources := [Forjar.Resource("a", ["a"], None)];
            var v := Play(EMPTY_VIEW, Forjar.Plan(resources, Forjar.Forjar(true, Some(true), true), order));
            "a" in v.rows && v.rows["a"].state == Running
  {
    var resources, forjar := [Forjar.Resource("a", ["a"], None)], Forjar.Forjar(true, Some(true), true);
    var tasks := Forjar.AsTasks(resources);
    assert tasks == [TaskSpec("a", ["a"])] && tasks[..0] == [];
    assert Dependencies(tasks) == [("a", "a")];
    assert Dependencies(tasks)[0] == ("a", "a");
    assert Circle(Dependencies(tasks), ["a", "a"]);
    assert Forjar.Keys(resources) == ["a"] && "a" in ["a"];
    ForjarOutcome(resources, forjar, order);
  }

  /** The last rows rewrite every task's state, or leave it as it is. */
  lemma {:induction false} LastRowsPlay(w: RunView, resources: seq<Forjar.Resource>, forjar: Forjar.Forjar,
                                        order: seq<nat>)
    requires Distinct(Forjar.Keys(resources)) && forjar.versionOk && OrderFor(Forjar.AsTasks(resources), order)
    requires forall id :: id in w.rows <==> id in Forjar.Keys(resources)
    requires forall id :: id in w.rows ==> w.rows[id].state == Running
    ensures var v := Play(w, Forjar.LastRows(resources, forjar, order));
            && v.edges == w.edges
            && (forall id :: id in v.rows <==> id in Forjar.Keys(resources))
            && (forall id :: id in v.rows ==> v.rows[id].state == FinalState(resources, forjar))
            && (Forjar.Completes(resources, forjar) ==>
                  forall id :: id in v.rows ==> v.rows[id].output == Some(Forjar.Payload(resources, id)))
  {
    var keys, last := Forjar.Keys(resources), Forjar.LastRows(resources, forjar, order);
    if forjar.validate == Some(false) {
      MarksOverwrite(w, keys, keys, last, id => Cell(Failed, None));
    } else if Forjar.Completes(resources, forjar) {
      OrderHasAllIds(Forjar.AsTasks(resources), order);
      MarksOverwrite(w, keys, Forjar.IdsAlong(keys, order), last,
                     id => Cell(Succeeded, Some(Forjar.Payload(resources, id))));
    } else {
      assert last == [];
    }
  }

  lemma {:induction false} OrderHasAllIds(tasks: seq<TaskSpec>, order: seq<nat>)
    requires Runnable(tasks) && OrderFor(tasks, order)
    ensures forall id :: id in Forjar.IdsAlong(Ids(tasks), order) <==> id in Ids(tasks)
  {
    var nodes := seq(|tasks|, i requires 0 <= i < |tasks| =>
      Task(tasks[i].id, (b: Bag) => Effect(map[], Failure(""))));
    assert TaskIdsOf(nodes) == Ids(tasks);
    SameOrder(tasks, nodes, order);
  }

  /** Two runs under different fresh ids each leave what they would leave alone. */
  lemma {:induction false} TwoRuns(tb: Tables, a: string, pa: seq<Intent>, wa: seq<Write>, b: string, pb: seq<Intent>,
                                   wb: seq<Write>)
    requires a != b && View(tb, a) == EMPTY_VIEW && View(tb, b) == EMPTY_VIEW
    requires Follows(a, pa, wa) && Follows(b, pb, wb)
    ensures View(Replay(tb, wa + wb), a) == Play(EMPTY_VIEW, pa)
    ensures View(Replay(tb, wa + wb), b) == Play(EMPTY_VIEW, pb)
  {
    var mid := Replay(tb, wa);
    ReplayActsOnView(tb, a, pa, wa);
    ReplayActsOnView(mid, b, pb, wb);
    ReplaySparesOtherRuns(tb, a, pa, wa, b);
    ReplaySparesOtherRuns(mid, b, pb, wb, a);
    ReplayAppend(tb, wa, wb);
    ApartRuns(tb, mid, Replay(mid, wb), a, b);
  }

  lemma {:induction false} ApartRuns(tb: Tables, mid: Tables, end: Tables, a: string, b: string)
    requires SameRun(tb, mid, b) && SameRun(mid, end, a)
    ensures View(mid, b) == View(tb, b) && View(end, a) == View(mid, a)
  {
    SameRunSameView(tb, mid, b);
    SameRunSameView(mid, end, a);
  }

  /** Every write of the in-process run on a specification, over an order. */
  ghost function LocalPlan(tasks: seq<TaskSpec>, nodes: seq<Task>, order: seq<nat>): seq<Intent>
    requires OnRunnable(tasks, nodes) && OrderFor(tasks, order)
  {
    SpecSchedule(tasks, nodes, order);
    Plan(nodes, SpecGraph(tasks).edges, order)
  }

  lemma {:induction false} CompletedKeys(pairs: seq<(string, string)>, ts: seq<Task>, ids: seq<string>)
    requires forall id :: id in TaskIdsOf(ts) <==> id in ids
    ensures var v := Play(EMPTY_VIEW, Links(pairs) + Script(ts));
            v.edges == Elements(pairs) && v.rows.Keys == Elements(ids)
  {
    AnyRunView(EMPTY_VIEW, pairs, ts);
    RunIds(ts);
    assert RowsByState(RunOver(ts)).Keys == Elements(ids);
  }

  lemma {:induction false} LocalOutcome(tasks: seq<TaskSpec>, nodes: seq<Task>, order: seq<nat>)
    requires OnRunnable(tasks, nodes) && OrderFor(tasks, order)
    ensures var v := Play(EMPTY_VIEW, LocalPlan(tasks, nodes, order));
            && v.edges == Elements(Dependencies(tasks)) && v.rows.Keys == Elements(Ids(tasks))
            && |v.edges| == |SpecGraph(tasks).edges|
  {
    SpecSchedule(tasks, nodes, order);
    SameOrder(tasks, nodes, order);
    PairsAreDependencies(tasks, nodes);
    CompletedKeys(Dependencies(tasks), LocalSequence(tasks, nodes, order), Ids(tasks));
    assert |Elements(Dependencies(tasks))| == |SpecGraph(tasks).edges| by { DistinctCardinality(Dependencies(tasks)); }
  }

  /** Both runners completed on this specification, each on its own fresh run id and over its own valid order. */
  ghost predicate BothCompleted(tb: Tables, tasks: seq<TaskSpec>, nodes: seq<Task>, x: seq<nat>, a: string,
                                wa: seq<Write>,
                                resources: seq<Forjar.Resource>, forjar: Forjar.Forjar, y: seq<nat>, b: string,
                                wb: seq<Write>)
  {
    && OnSpec(tasks, nodes) && Forjar.AsTasks(resources) == tasks && Forjar.Completes(resources, forjar)
    && OrderFor(tasks, x) && OrderFor(tasks, y)
    && a != b && View(tb, a) == EMPTY_VIEW && View(tb, b) == EMPTY_VIEW
    && Follows(a, LocalPlan(tasks, nodes, x), wa) && Follows(b, Forjar.Plan(resources, forjar, y), wb)
  }

  /** The lineage of both completed runs has the same edges and task ids, whatever their orders. */
  lemma {:induction false} LineageAgrees(tb: Tables, tasks: seq<TaskSpec>, nodes: seq<Task>, x: seq<nat>, a: string,
                                         wa: seq<Write>, resources: seq<Forjar.Resource>, forjar: Forjar.Forjar,
                                         y: seq<nat>, b: string, wb: seq<Write>)
    requires BothCompleted(tb, tasks, nodes, x, a, wa, resources, forjar, y, b, wb)
    ensures var end := Replay(tb, wa + wb);
            && View(end, a).edges == View(end, b).edges == Elements(Dependencies(tasks))
            && View(end, a).rows.Keys == View(end, b).rows.Keys == Elements(Ids(tasks))
            && |EdgeKeys(end, Some(a))| == |EdgeKeys(end, Some(b))| == |SpecGraph(tasks).edges|
  {
    var end, pa, pb := Replay(tb, wa + wb), LocalPlan(tasks, nodes, x), Forjar.Plan(resources, forjar, y);
    assert View(end, a) == Play(EMPTY_VIEW, pa) && View(end, b) == Play(EMPTY_VIEW, pb) by {
      TwoRuns(tb, a, pa, wa, b, pb, wb);
    }
    assert Play(EMPTY_VIEW, pb).rows.Keys == Elements(Ids(tasks))
      && Play(EMPTY_VIEW, pb).edges == Elements(Dependencies(tasks)) by { ForjarOutcome(resources, forjar, y); }
    LocalOutcome(tasks, nodes, x);
    EdgeCountIsViewSize(end, a);
    EdgeCountIsViewSize(end, b);
  }

  /** So the two runs render as the same Mermaid text. */
  lemma {:induction false} RenderingsAgree(tb: Tables, tasks: seq<TaskSpec>, nodes: seq<Task>, x: seq<nat>, a: string,
                                           wa: seq<Write>, resources: seq<Forjar.Resource>, forjar: Forjar.Forjar,
                                           y: seq<nat>, b: string, wb: seq<Write>)
    requires BothCompleted(tb, tasks, nodes, x, a, wa, resources, forjar, y, b, wb)
    ensures var end := Replay(tb, wa + wb);
            Mermaid.Text(Mermaid.Lines(View(end, a))) == Mermaid.Text(Mermaid.Lines(View(end, b)))
  {
    LineageAgrees(tb, tasks, nodes, x, a, wa, resources, forjar, y, b, wb);
    Mermaid.SameLines(View(Replay(tb, wa + wb), a), View(Replay(tb, wa + wb), b));
  }

  /** The edge rows of a run on a specification's graph are the declared pairs, in declaration order. */
  lemma {:induction false} PairsAreDependencies(tasks: seq<TaskSpec>, nodes: seq<Task>)
    requires OnRunnable(tasks, nodes) && |nodes| == SpecGraph(tasks).n
    ensures IdPairs(nodes, SpecGraph(tasks).edges) == Dependencies(tasks)
  {
    var pairs, g := Dependencies(tasks), SpecGraph(tasks);
    DependentsAreTasks(tasks);
    forall k | 0 <= k < |pairs| ensures IdPairs(nodes, g.edges)[k] == pairs[k] {
      assert pairs[k] in pairs;
      assert g.edges[k] in g.edges;
      assert TaskIdsOf(nodes)[g.edges[k].0] == pairs[k].0 && TaskIdsOf(nodes)[g.edges[k].1] == pairs[k].1;
    }
  }
}
