/**
 * What a run means, independently of the schedule: a recursive evaluation of the DAG, which every
 * fail-fast run over every topological order refines.
 */
module Schedule {
  import opened Wrappers
  import opened Digraph
  import opened Values
  import opened Tasks
  import opened RunPlan
  import opened LocalRunner

  /** A graph of tasks and a topological order of it; ids may repeat. */
  ghost predicate Arranged(g: Graph, nodes: seq<Task>, order: seq<nat>) {
    InRange(g) && |nodes| == g.n && IsTopoOrder(g, order)
  }

  /** A graph of tasks with distinct ids, and a topological order of it. */
  ghost predicate Scheduled(g: Graph, nodes: seq<Task>, order: seq<nat>) {
    Arranged(g, nodes, order) && Distinct(TaskIdsOf(nodes))
  }

  /** No body publishes under another task's id; any other key is free. */
  ghost predicate SparesOtherTasks(nodes: seq<Task>) {
    forall u, v :: 0 <= u < |nodes| && 0 <= v < |nodes| ==> SparesKey(nodes[v], nodes[u].id)
  }

  ghost predicate SparesKey(t: Task, id: string) {
    forall b :: id in t.body(b).puts ==> id == t.id
  }

  lemma {:induction false} OrderInRange(g: Graph, nodes: seq<Task>, order: seq<nat>)
    requires Arranged(g, nodes, order)
    ensures |order| == g.n && forall v :: v in order ==> v < |nodes|
    ensures Distinct(TaskIdsOf(nodes)) ==> Distinct(TaskIdsOf(InOrder(nodes, order)))
  {
    TopoOrderLength(g, order);
    var ids, ts := TaskIdsOf(nodes), InOrder(nodes, order);
    if Distinct(ids) {
      forall i, j | 0 <= i < j < |ts| ensures ts[i].id != ts[j].id {
        assert order[i] in order && order[j] in order && order[i] != order[j];
        assert ids[order[i]] != ids[order[j]];
      }
    }
  }

  /** The tasks in the order in which the run takes them. */
  ghost function Sequence(g: Graph, nodes: seq<Task>, order: seq<nat>): (ts: seq<Task>)
    requires Arranged(g, nodes, order)
    ensures |ts| == |order| == g.n && ts == InOrder(nodes, order)
    ensures Distinct(TaskIdsOf(nodes)) ==> Distinct(TaskIdsOf(ts))
    ensures forall i :: 0 <= i < |ts| ==> order[i] < g.n && ts[i] == nodes[order[i]]
  {
    OrderInRange(g, nodes, order);
    assert forall i :: 0 <= i < |order| ==> order[i] in order;
    InOrder(nodes, order)
  }

  /** The position of a node in an order. */
  ghost function Position(g: Graph, order: seq<nat>, v: nat): (i: nat)
    requires IsTopoOrder(g, order) && v < g.n
    ensures i < |order| && order[i] == v
  {
    IndexOf(order, v)
  }

  // ---------- fail-fast on the graph ----------

  /** Ancestors of a task that ran succeeded, and descendants of a failed task are skipped. */
  lemma {:induction false} FailFastOnGraph(g: Graph, nodes: seq<Task>, order: seq<nat>, u: nat, v: nat)
    requires Scheduled(g, nodes, order) && Reaches(g, u, v)
    ensures u < g.n && v < g.n
    ensures var states := RunOver(Sequence(g, nodes, order)).states;
            && nodes[u].id in states && nodes[v].id in states
            && (states[nodes[v].id] in {Succeeded, Failed} ==> states[nodes[u].id] == Succeeded)
            && (states[nodes[u].id] in {Failed, Skipped} ==> states[nodes[v].id] == Skipped)
  {
    ReachesInRange(g, u, v);
    var ts, i, j := Sequence(g, nodes, order), Position(g, order, u), Position(g, order, v);
    ReachesGoesForward(g, order, i, j);
    FailFast(ts, i);
    FailFast(ts, j);
  }

  /** A completed run leaves every task terminal, and at most one of them failed. */
  lemma {:induction false} CompletedRunIsSettled(g: Graph, nodes: seq<Task>, order: seq<nat>)
    requires Arranged(g, nodes, order)
    ensures var states := RunOver(Sequence(g, nodes, order)).states;
            && (forall id :: id in states <==> id in TaskIdsOf(nodes))
            && (forall id :: id in states ==> Terminal(states[id]))
            && (forall a, b :: a in states && b in states && states[a] == Failed == states[b] ==> a == b)
  {
    RunIsSettled(Sequence(g, nodes, order));
    SameIds(g, nodes, order);
  }

  lemma {:induction false} SameIds(g: Graph, nodes: seq<Task>, order: seq<nat>)
    requires Arranged(g, nodes, order)
    ensures forall id :: id in TaskIdsOf(Sequence(g, nodes, order)) <==> id in TaskIdsOf(nodes)
  {
    var ts := Sequence(g, nodes, order);
    forall id ensures id in TaskIdsOf(ts) <==> id in TaskIdsOf(nodes) {
      if id in TaskIdsOf(ts) {
        var i := IndexOf(TaskIdsOf(ts), id);
        assert TaskIdsOf(nodes)[order[i]] == id;
      }
      if id in TaskIdsOf(nodes) {
        var v := IndexOf(TaskIdsOf(nodes), id);
        assert TaskIdsOf(ts)[Position(g, order, v)] == id;
      }
    }
  }

  // ---------- data availability ----------

  /** What the i-th task returns when its turn comes. */
  ghost function ReturnedAt(ts: seq<Task>, i: nat): Result<TaskOutput, string>
    requires i < |ts|
  {
    ts[i].body(RunOver(ts[..i]).bag).result
  }

  lemma {:induction false} PublishedStays(ts: seq<Task>, j: nat, i: nat)
    requires Distinct(TaskIdsOf(ts)) && SparesOtherTasks(ts) && j < i <= |ts| && !RunOver(ts[..i]).failed
    ensures ReturnedAt(ts, j).Success?
    ensures ts[j].id in RunOver(ts[..i]).bag && RunOver(ts[..i]).bag[ts[j].id] == ReturnedAt(ts, j).value
    decreases i
  {
    var before, t := RunOver(ts[..i - 1]), ts[i - 1];
    assert RunOver(ts[..i]) == Advance(before, t) by { StepOfRun(ts, i - 1); }
    assert SparesKey(t, ts[j].id);
    PublishStep(before, t, RunOver(ts[..i]), ts[j].id);
    if j < i - 1 {
      PublishedStays(ts, j, i - 1);
      assert TaskIdsOf(ts)[j] != TaskIdsOf(ts)[i - 1];
    }
  }

  /** A step that does not fail publishes the task's value and leaves other tasks' values alone. */
  lemma {:induction false} PublishStep(p: Progress, t: Task, q: Progress, id: string)
    requires q == Advance(p, t) && !q.failed && SparesKey(t, id)
    ensures !p.failed && t.body(p.bag).result.Success?
    ensures t.id in q.bag && q.bag[t.id] == t.body(p.bag).result.value
    ensures id != t.id && id in p.bag ==> id in q.bag && q.bag[id] == p.bag[id]
  {
  }

  lemma {:induction false} OthersSparedInOrder(g: Graph, nodes: seq<Task>, order: seq<nat>)
    requires Scheduled(g, nodes, order) && SparesOtherTasks(nodes)
    ensures SparesOtherTasks(Sequence(g, nodes, order))
  {
    var ts := Sequence(g, nodes, order);
    forall i, j | 0 <= i < |ts| && 0 <= j < |ts| ensures SparesKey(ts[j], ts[i].id) {
      assert SparesKey(nodes[order[j]], nodes[order[i]].id);
    }
  }

  /** When a task body executes, each transitive ancestor's returned value is in the context. */
  lemma {:induction false} AncestorsArePublished(g: Graph, nodes: seq<Task>, order: seq<nat>, i: nat, u: nat)
    requires Scheduled(g, nodes, order) && SparesOtherTasks(nodes)
    requires i < |order| && !RunOver(Sequence(g, nodes, order)[..i]).failed && Reaches(g, u, order[i])
    ensures u < g.n
    ensures var ts, j, bag := Sequence(g, nodes, order), Position(g, order, u),
                              RunOver(Sequence(g, nodes, order)[..i]).bag;
            && j < i && ReturnedAt(ts, j).Success?
            && nodes[u].id in bag && bag[nodes[u].id] == ReturnedAt(ts, j).value
  {
    ReachesInRange(g, u, order[i]);
    var j := Position(g, order, u);
    ReachesGoesForward(g, order, j, i);
    OthersSparedInOrder(g, nodes, order);
    PublishedStays(Sequence(g, nodes, order), j, i);
  }

  // ---------- recursive evaluation ----------

  ghost function Ancestors(g: Graph, v: nat): set<nat> {
    set u | u in Below(g.n) && Reaches(g, u, v)
  }

  lemma {:induction false} AncestorsShrink(g: Graph, v: nat)
    requires InRange(g) && Acyclic(g)
    ensures forall u :: u in Ancestors(g, v) ==> |Ancestors(g, u)| < |Ancestors(g, v)|
  {
    forall u | u in Ancestors(g, v) ensures |Ancestors(g, u)| < |Ancestors(g, v)| {
      forall w | w in Ancestors(g, u) ensures w in Ancestors(g, v) { ReachesTransitive(g, w, u, v); }
      assert !OnCycle(g, u);
      assert u !in Ancestors(g, u);
      SubsetCardinality(Ancestors(g, u) + {u}, Ancestors(g, v));
    }
  }

  datatype Verdict = Value(out: TaskOutput) | Error(message: string) | Blocked

  ghost function IdsOf(nodes: seq<Task>, us: set<nat>): set<string>
    requires forall u :: u in us ==> u < |nodes|
  {
    set u | u in us :: nodes[u].id
  }

  ghost function NodeNamed(nodes: seq<Task>, us: set<nat>, id: string): (u: nat)
    requires (forall u :: u in us ==> u < |nodes|) && id in IdsOf(nodes, us)
    ensures u in us && nodes[u].id == id
  {
    var u :| u in us && nodes[u].id == id;
    u
  }

  /** The bag that holds a value for each of some nodes, under the node's id. */
  ghost function BagOf(nodes: seq<Task>, values: map<nat, TaskOutput>): Bag
    requires forall u :: u in values ==> u < |nodes|
  {
    map id | id in IdsOf(nodes, values.Keys) :: values[NodeNamed(nodes, values.Keys, id)]
  }

  lemma {:induction false} BagOfNode(nodes: seq<Task>, values: map<nat, TaskOutput>, u: nat)
    requires Distinct(TaskIdsOf(nodes)) && (forall w :: w in values ==> w < |nodes|) && u in values
    ensures nodes[u].id in BagOf(nodes, values) && BagOf(nodes, values)[nodes[u].id] == values[u]
  {
    assert nodes[u].id in IdsOf(nodes, values.Keys);
    var w := NodeNamed(nodes, values.Keys, nodes[u].id);
    assert TaskIdsOf(nodes)[u] == TaskIdsOf(nodes)[w];
  }

  /** A task's verdict: its body applied to its ancestors' values, if they all have one. */
  ghost function Evaluate(g: Graph, nodes: seq<Task>, v: nat): Verdict
    requires InRange(g) && Acyclic(g) && |nodes| == g.n && Distinct(TaskIdsOf(nodes)) && v < g.n
    decreases |Ancestors(g, v)|
  {
    AncestorsShrink(g, v);
    if forall u :: u in Ancestors(g, v) ==> Evaluate(g, nodes, u).Value? then
      var values := map u | u in Ancestors(g, v) :: Evaluate(g, nodes, u).out;
      match nodes[v].body(BagOf(nodes, values)).result
      case Success(out) => Value(out)
      case Failure(message) => Error(message)
    else Blocked
  }

  ghost predicate AgreeOn(b: Bag, c: Bag, ids: set<string>) {
    forall k :: k in ids ==> (k in b <==> k in c) && (k in b ==> b[k] == c[k])
  }

  ghost function AncestorIds(g: Graph, nodes: seq<Task>, v: nat): set<string>
    requires |nodes| == g.n
  {
    IdsOf(nodes, Ancestors(g, v))
  }

  /** The result of a body depends only on the values of its task's transitive ancestors. */
  ghost predicate ReadsAncestorsOnly(g: Graph, nodes: seq<Task>)
    requires |nodes| == g.n
  {
    forall v, b, c :: 0 <= v < |nodes| && AgreeOn(b, c, AncestorIds(g, nodes, v)) ==>
      nodes[v].body(b).result == nodes[v].body(c).result
  }

  function VerdictOf(r: Result<TaskOutput, string>): Verdict {
    match r
    case Success(out) => Value(out)
    case Failure(message) => Error(message)
  }

  /** Evaluation computes with any bag that holds the ancestors' values. */
  lemma {:induction false} EvaluateWith(g: Graph, nodes: seq<Task>, v: nat, bag: Bag)
    requires InRange(g) && Acyclic(g) && |nodes| == g.n && Distinct(TaskIdsOf(nodes)) && v < g.n
    requires ReadsAncestorsOnly(g, nodes)
    requires forall u :: u in Ancestors(g, v) ==>
      nodes[u].id in bag && Evaluate(g, nodes, u) == Value(bag[nodes[u].id])
    ensures Evaluate(g, nodes, v) == VerdictOf(nodes[v].body(bag).result)
  {
    AncestorsShrink(g, v);
    var values := map u | u in Ancestors(g, v) :: Evaluate(g, nodes, u).out;
    var own := BagOf(nodes, values);
    assert AgreeOn(own, bag, AncestorIds(g, nodes, v)) by {
      forall k | k in AncestorIds(g, nodes, v) ensures k in own && k in bag && own[k] == bag[k] {
        var u :| u in Ancestors(g, v) && nodes[u].id == k;
        BagOfNode(nodes, values, u);
        assert values[u] == bag[k];
      }
    }
    assert nodes[v].body(own).result == nodes[v].body(bag).result;
  }

  /** Every task that is executed returns what the evaluation says. */
  lemma {:induction false} StepRefinesEvaluation(g: Graph, nodes: seq<Task>, order: seq<nat>, i: nat)
    requires Scheduled(g, nodes, order) && Acyclic(g) && SparesOtherTasks(nodes) && ReadsAncestorsOnly(g, nodes)
    requires i < |order| && !RunOver(Sequence(g, nodes, order)[..i]).failed
    ensures Evaluate(g, nodes, order[i]) == VerdictOf(ReturnedAt(Sequence(g, nodes, order), i))
    decreases i
  {
    var ts := Sequence(g, nodes, order);
    var bag := RunOver(ts[..i]).bag;
    forall u | u in Ancestors(g, order[i])
      ensures nodes[u].id in bag && Evaluate(g, nodes, u) == Value(bag[nodes[u].id])
    {
      AncestorsArePublished(g, nodes, order, i, u);
      var j := Position(g, order, u);
      if RunOver(ts[..j]).failed { FailureIsFinal(ts, j, i); }
      StepRefinesEvaluation(g, nodes, order, j);
    }
    EvaluateWith(g, nodes, order[i], bag);
  }

  /** A run refines the evaluation: every recorded success or failure is the evaluation's. */
  lemma {:induction false} RunRefinesEvaluation(g: Graph, nodes: seq<Task>, order: seq<nat>, v: nat)
    requires Scheduled(g, nodes, order) && Acyclic(g) && SparesOtherTasks(nodes) && ReadsAncestorsOnly(g, nodes)
    requires v < g.n
    ensures var p, id := RunOver(Sequence(g, nodes, order)), nodes[v].id;
            && id in p.states
            && match p.states[id]
               case Succeeded => id in p.outputs && exists out ::
                 Evaluate(g, nodes, v) == Value(out) && p.outputs[id] == AsJson(out)
               case Failed => id in p.outputs && exists m ::
                 Evaluate(g, nodes, v) == Error(m) && p.outputs[id] == ErrorJson(m)
               case Skipped => id !in p.outputs
               case _ => false
  {
    var ts, i := Sequence(g, nodes, order), Position(g, order, v);
    OutcomeOfTask(ts, i);
    if !RunOver(ts[..i]).failed { StepRefinesEvaluation(g, nodes, order, i); }
  }

  /** Whether everything succeeds is a property of the tasks, not of the order. */
  lemma {:induction false} AllSucceededMeaning(g: Graph, nodes: seq<Task>, order: seq<nat>, runId: string)
    requires Scheduled(g, nodes, order) && Acyclic(g) && SparesOtherTasks(nodes) && ReadsAncestorsOnly(g, nodes)
    ensures Report(runId, RunOver(Sequence(g, nodes, order))).AllSucceeded() <==>
            g.n > 0 && forall v: nat :: v < g.n ==> Evaluate(g, nodes, v).Value?
  {
    var ts := Sequence(g, nodes, order);
    AllSucceededShape(ts, Report(runId, RunOver(ts)));
    FirstFailureMeaning(ts);
    var f := FirstFailure(ts);
    if f < |ts| {
      StepRefinesEvaluation(g, nodes, order, f);
      assert RunOver(ts[..f + 1]).failed;
      StepOfRun(ts, f);
    } else {
      forall v: nat | v < g.n ensures Evaluate(g, nodes, v).Value? {
        var i := Position(g, order, v);
        StepRefinesEvaluation(g, nodes, order, i);
        StepOfRun(ts, i);
      }
    }
  }

  lemma {:induction false} SucceedsIfValued(g: Graph, nodes: seq<Task>, order: seq<nat>, i: nat)
    requires Scheduled(g, nodes, order) && Acyclic(g) && SparesOtherTasks(nodes) && ReadsAncestorsOnly(g, nodes)
    requires i < |order| && !RunOver(Sequence(g, nodes, order)[..i]).failed
    ensures Evaluate(g, nodes, order[i]).Value? <==> !RunOver(Sequence(g, nodes, order)[..i + 1]).failed
  {
    StepRefinesEvaluation(g, nodes, order, i);
    StepOfRun(Sequence(g, nodes, order), i);
  }

  /** No task but the last failed exactly if every task but the last of the order evaluates to a value. */
  lemma {:induction false} ValuesBeforeLast(g: Graph, nodes: seq<Task>, order: seq<nat>)
    requires Scheduled(g, nodes, order) && Acyclic(g) && SparesOtherTasks(nodes) && ReadsAncestorsOnly(g, nodes)
    ensures var ts := Sequence(g, nodes, order);
            FirstFailure(ts) + 1 >= |ts| <==> forall i: nat :: i + 1 < |order| ==> Evaluate(g, nodes, order[i]).Value?
  {
    var ts := Sequence(g, nodes, order);
    var f := FirstFailure(ts);
    FirstFailureMeaning(ts);
    if f + 1 >= |ts| {
      forall i: nat | i + 1 < |order| ensures Evaluate(g, nodes, order[i]).Value? {
        SucceedsIfValued(g, nodes, order, i);
      }
    } else {
      SucceedsIfValued(g, nodes, order, f);
    }
  }

  /** A task that succeeds under two orders has the same output under both. */
  lemma {:induction false} SameOutput(g: Graph, nodes: seq<Task>, a: seq<nat>, b: seq<nat>, v: nat)
    requires Scheduled(g, nodes, a) && Scheduled(g, nodes, b) && Acyclic(g)
    requires SparesOtherTasks(nodes) && ReadsAncestorsOnly(g, nodes) && v < g.n
    ensures var p, q, id := RunOver(Sequence(g, nodes, a)), RunOver(Sequence(g, nodes, b)), nodes[v].id;
            && id in p.states && id in q.states
            && (p.states[id] == Succeeded == q.states[id] ==>
                  id in p.outputs && id in q.outputs && p.outputs[id] == q.outputs[id])
  {
    RunRefinesEvaluation(g, nodes, a, v);
    RunRefinesEvaluation(g, nodes, b, v);
  }

  /** Without a failure every task of the graph has a Succeeded record and an output. */
  lemma {:induction false} AllSucceededRecords(g: Graph, nodes: seq<Task>, order: seq<nat>, runId: string)
    requires Scheduled(g, nodes, order)
    requires Report(runId, RunOver(Sequence(g, nodes, order))).AllSucceeded()
    ensures var p := RunOver(Sequence(g, nodes, order));
            && (forall id :: id in p.states <==> id in TaskIdsOf(nodes))
            && (forall id :: id in p.outputs <==> id in TaskIdsOf(nodes))
            && (forall id :: id in p.states ==> p.states[id] == Succeeded)
  {
    var ts := Sequence(g, nodes, order);
    SameIds(g, nodes, order);
    RunIds(ts);
    AllSucceededShape(ts, Report(runId, RunOver(ts)));
    forall id | id in TaskIdsOf(ts) ensures id in RunOver(ts).outputs {
      FailFast(ts, IndexOf(TaskIdsOf(ts), id));
    }
  }

  /**
   * Schedule independence: two runs over two valid orders agree on whether everything succeeded,
   * and on the output of every task that succeeded in both; if all succeeded, on the whole report
   * but for the order itself.
   */
  lemma {:induction false} ScheduleIndependence(g: Graph, nodes: seq<Task>, a: seq<nat>, b: seq<nat>, runId: string)
    requires Scheduled(g, nodes, a) && Scheduled(g, nodes, b) && Acyclic(g)
    requires SparesOtherTasks(nodes) && ReadsAncestorsOnly(g, nodes)
    ensures var p, q := RunOver(Sequence(g, nodes, a)), RunOver(Sequence(g, nodes, b));
            && (Report(runId, p).AllSucceeded() <==> Report(runId, q).AllSucceeded())
            && (forall v :: 0 <= v < g.n ==> nodes[v].id in p.states && nodes[v].id in q.states)
            && (forall v :: 0 <= v < g.n && p.states[nodes[v].id] == Succeeded == q.states[nodes[v].id] ==>
                  && nodes[v].id in p.outputs && nodes[v].id in q.outputs
                  && p.outputs[nodes[v].id] == q.outputs[nodes[v].id])
            && (Report(runId, p).AllSucceeded() ==> p.states == q.states && p.outputs == q.outputs)
  {
    var p, q := RunOver(Sequence(g, nodes, a)), RunOver(Sequence(g, nodes, b));
    AllSucceededMeaning(g, nodes, a, runId);
    AllSucceededMeaning(g, nodes, b, runId);
    forall v: nat | v < g.n { SameOutput(g, nodes, a, b, v); }
    if Report(runId, p).AllSucceeded() {
      AllSucceededRecords(g, nodes, a, runId);
      AllSucceededRecords(g, nodes, b, runId);
      SameRecords(TaskIdsOf(nodes), p, q);
    }
  }

  lemma {:induction false} SameRecords(ids: seq<string>, p: Progress, q: Progress)
    requires forall id :: (id in p.states <==> id in ids) && (id in q.states <==> id in ids)
    requires forall id :: (id in p.outputs <==> id in ids) && (id in q.outputs <==> id in ids)
    requires forall id :: id in ids ==> p.states[id] == Succeeded == q.states[id]
    requires forall v :: 0 <= v < |ids| ==> p.outputs[ids[v]] == q.outputs[ids[v]]
    ensures p.states == q.states && p.outputs == q.outputs
  {
    forall id | id in p.outputs ensures p.outputs[id] == q.outputs[id] {
      assert ids[IndexOf(ids, id)] == id;
    }
  }
}
