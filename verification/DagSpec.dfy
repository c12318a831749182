/** Specifications of DAGs by task ids, and `DagSpec::build`, which turns one into a graph. */
module DagSpec {
  import opened Wrappers
  import opened Digraph
  import opened DagCore
  import opened TopoSort

  datatype TaskSpec = TaskSpec(id: string, dependsOn: seq<string>)

  datatype BuildError =
    | DuplicateTaskId(id: string)
    | UnknownDependency(task: string, dependency: string)
    | Rejected(error: DagError)

  /** A (dependency, dependent) pair of task ids. */
  type Dependency = (string, string)

  function Ids(tasks: seq<TaskSpec>): seq<string> {
    seq(|tasks|, i requires 0 <= i < |tasks| => tasks[i].id)
  }

  function DependenciesOf(t: TaskSpec): seq<Dependency> {
    seq(|t.dependsOn|, k requires 0 <= k < |t.dependsOn| => (t.dependsOn[k], t.id))
  }

  /** Every declared pair, in declaration order. */
  function Dependencies(tasks: seq<TaskSpec>): seq<Dependency> {
    if tasks == [] then []
    else Dependencies(tasks[..|tasks| - 1]) + DependenciesOf(tasks[|tasks| - 1])
  }

  /** The node of each id; a later task with the same id takes the entry over. */
  function IndexTable(tasks: seq<TaskSpec>): (table: map<string, nat>)
    ensures forall id :: id in table <==> id in Ids(tasks)
    ensures forall id :: id in table ==> table[id] < |tasks| && tasks[table[id]].id == id
  {
    if tasks == [] then map[]
    else
      var before := tasks[..|tasks| - 1];
      assert Ids(tasks) == Ids(before) + [tasks[|tasks| - 1].id];
      IndexTable(before)[tasks[|tasks| - 1].id := |tasks| - 1]
  }

  /** The entry of an id is the node of the last task that has it. */
  lemma {:induction false} LastTaskHasEntry(tasks: seq<TaskSpec>, i: nat)
    requires i < |tasks|
    ensures tasks[i].id in IndexTable(tasks) && IndexTable(tasks)[tasks[i].id] >= i
  {
    if i < |tasks| - 1 { LastTaskHasEntry(tasks[..|tasks| - 1], i); }
  }

  function Resolve(table: map<string, nat>, pairs: seq<Dependency>): seq<Edge>
    requires forall p :: p in pairs ==> p.0 in table && p.1 in table
  {
    seq(|pairs|, k requires 0 <= k < |pairs| => assert pairs[k] in pairs; (table[pairs[k].0], table[pairs[k].1]))
  }

  // ---------- what a specification may declare ----------

  ghost predicate DistinctIds(tasks: seq<TaskSpec>) {
    Distinct(Ids(tasks))
  }

  ghost predicate KnownDependencies(tasks: seq<TaskSpec>) {
    forall p :: p in Dependencies(tasks) ==> p.0 in Ids(tasks)
  }

  ghost predicate NoRepeatedDependency(tasks: seq<TaskSpec>) {
    forall j :: 0 <= j < |tasks| ==> Distinct(tasks[j].dependsOn)
  }

  /** A chain of ids, each a declared dependency of the next, that returns to its start. */
  ghost predicate Circle(pairs: seq<Dependency>, c: seq<string>) {
    |c| >= 2 && c[0] == c[|c| - 1] && forall i :: 0 <= i < |c| - 1 ==> (c[i], c[i + 1]) in pairs
  }

  ghost predicate Circular(pairs: seq<Dependency>) {
    exists c :: Circle(pairs, c)
  }

  /** What the builders without a duplicate-id check accept. */
  ghost predicate Runnable(tasks: seq<TaskSpec>) {
    KnownDependencies(tasks) && Distinct(Dependencies(tasks)) && !Circular(Dependencies(tasks))
  }

  /** Some pair is declared twice, and these are the nodes of its ids. */
  ghost predicate RepeatedEdge(tasks: seq<TaskSpec>, from: nat, to: nat) {
    exists i, j :: 0 <= i < j < |Dependencies(tasks)| && Dependencies(tasks)[i] == Dependencies(tasks)[j]
      && IsNode(tasks, Dependencies(tasks)[i].0, from) && IsNode(tasks, Dependencies(tasks)[i].1, to)
  }

  ghost predicate IsNode(tasks: seq<TaskSpec>, id: string, v: nat) {
    id in IndexTable(tasks) && IndexTable(tasks)[id] == v
  }

  /** The error names something that is really wrong with the specification. */
  ghost predicate Explains(tasks: seq<TaskSpec>, e: BuildError) {
    match e
    case DuplicateTaskId(id) =>
      exists i, j :: 0 <= i < j < |tasks| && tasks[i].id == id && tasks[j].id == id
    case UnknownDependency(t, d) => (d, t) in Dependencies(tasks) && d !in Ids(tasks)
    case Rejected(DuplicateEdge(from, to)) => RepeatedEdge(tasks, from, to)
    case Rejected(Cycle(v)) => KnownDependencies(tasks) && OnCycle(SpecGraph(tasks), v)
    case Rejected(UnknownNode(_)) => false
  }

  /** The graph that a specification describes. */
  function SpecGraph(tasks: seq<TaskSpec>): (g: Graph)
    requires KnownDependencies(tasks)
    ensures InRange(g)
  {
    DependentsAreTasks(tasks);
    Graph(|tasks|, Resolve(IndexTable(tasks), Dependencies(tasks)))
  }

  // ---------- facts about dependencies ----------

  lemma {:induction false} DependencyMeaning(tasks: seq<TaskSpec>, p: Dependency)
    ensures p in Dependencies(tasks) <==>
            exists j :: 0 <= j < |tasks| && tasks[j].id == p.1 && p.0 in tasks[j].dependsOn
  {
    if tasks == [] {
    } else {
      var before, t := tasks[..|tasks| - 1], tasks[|tasks| - 1];
      DependencyMeaning(before, p);
      if p in DependenciesOf(t) {
        var k :| 0 <= k < |t.dependsOn| && DependenciesOf(t)[k] == p;
      }
      if t.id == p.1 && p.0 in t.dependsOn {
        var k :| 0 <= k < |t.dependsOn| && t.dependsOn[k] == p.0;
        assert DependenciesOf(t)[k] == p;
      }
      if j :| 0 <= j < |tasks| && tasks[j].id == p.1 && p.0 in tasks[j].dependsOn {
        assert j < |before| ==> before[j] == tasks[j];
      }
    }
  }

  lemma {:induction false} DependentsAreTasks(tasks: seq<TaskSpec>)
    ensures forall p :: p in Dependencies(tasks) ==> p.1 in Ids(tasks)
  {
    forall p | p in Dependencies(tasks) ensures p.1 in Ids(tasks) {
      DependencyMeaning(tasks, p);
      var j :| 0 <= j < |tasks| && tasks[j].id == p.1 && p.0 in tasks[j].dependsOn;
      assert Ids(tasks)[j] == p.1;
    }
  }

  lemma {:induction false} DependenciesPrefix(tasks: seq<TaskSpec>, j: nat, k: nat)
    requires j < |tasks| && k <= |tasks[j].dependsOn|
    ensures Dependencies(tasks[..j]) + DependenciesOf(tasks[j])[..k] <= Dependencies(tasks)
  {
    var before := tasks[..|tasks| - 1];
    if j < |tasks| - 1 {
      DependenciesPrefix(before, j, k);
      assert before[..j] == tasks[..j];
    } else {
      assert tasks[..j] == before;
    }
  }

  ghost function SumOfLengths(tasks: seq<TaskSpec>): nat {
    if tasks == [] then 0
    else SumOfLengths(tasks[..|tasks| - 1]) + |tasks[|tasks| - 1].dependsOn|
  }

  lemma {:induction false} DependencyCount(tasks: seq<TaskSpec>)
    ensures |Dependencies(tasks)| == SumOfLengths(tasks)
  {
    if tasks == [] {
    } else {
      DependencyCount(tasks[..|tasks| - 1]);
    }
  }

  /** With distinct ids, pairs repeat exactly when some task lists a dependency twice. */
  lemma {:induction false} RepeatedPairs(tasks: seq<TaskSpec>)
    requires DistinctIds(tasks)
    ensures Distinct(Dependencies(tasks)) <==> NoRepeatedDependency(tasks)
  {
    if tasks == [] {
    } else {
      var before, t := tasks[..|tasks| - 1], tasks[|tasks| - 1];
      assert forall i :: 0 <= i < |before| ==> Ids(before)[i] == Ids(tasks)[i];
      RepeatedPairs(before);
      var a, b := Dependencies(before), DependenciesOf(t);
      forall i, k | 0 <= i < |a| && 0 <= k < |b| ensures a[i] != b[k] {
        DependentsAreTasks(before);
        assert a[i] in a;
        var m :| 0 <= m < |before| && Ids(before)[m] == a[i].1;
        assert Ids(tasks)[m] != Ids(tasks)[|before|];
      }
      DistinctConcat(a, b);
      assert Distinct(b) <==> Distinct(t.dependsOn) by {
        forall i, k | 0 <= i < k < |b| ensures b[i] == b[k] <==> t.dependsOn[i] == t.dependsOn[k] {}
      }
      assert forall j :: 0 <= j < |before| ==> before[j] == tasks[j];
    }
  }

  lemma {:induction false} DistinctConcat<T(!new)>(a: seq<T>, b: seq<T>)
    requires forall i, k :: 0 <= i < |a| && 0 <= k < |b| ==> a[i] != b[k]
    ensures Distinct(a + b) <==> Distinct(a) && Distinct(b)
  {
    if Distinct(a + b) {
      forall i, k | 0 <= i < k < |a| ensures a[i] != a[k] {
        assert (a + b)[i] != (a + b)[k];
      }
      forall i, k | 0 <= i < k < |b| ensures b[i] != b[k] {
        assert (a + b)[|a| + i] != (a + b)[|a| + k];
      }
    }
  }

  lemma {:induction false} ResolveAppend(table: map<string, nat>, pairs: seq<Dependency>, p: Dependency)
    requires forall q :: q in pairs + [p] ==> q.0 in table && q.1 in table
    ensures Resolve(table, pairs + [p]) == Resolve(table, pairs) + [(table[p.0], table[p.1])]
  {
  }

  /** Different ids have different nodes, so resolving keeps pairs apart. */
  lemma {:induction false} ResolveInjective(tasks: seq<TaskSpec>, pairs: seq<Dependency>, p: Dependency)
    requires forall q :: q in pairs + [p] ==> q.0 in IndexTable(tasks) && q.1 in IndexTable(tasks)
    ensures var table := IndexTable(tasks);
            (table[p.0], table[p.1]) in Resolve(table, pairs) <==> p in pairs
  {
    var table := IndexTable(tasks);
    var edges := Resolve(table, pairs);
    if k :| 0 <= k < |edges| && edges[k] == (table[p.0], table[p.1]) {
      assert tasks[table[pairs[k].0]].id == pairs[k].0 && tasks[table[pairs[k].1]].id == pairs[k].1;
      assert pairs[k] == p;
    }
    if k :| 0 <= k < |pairs| && pairs[k] == p {
      assert edges[k] == (table[p.0], table[p.1]);
    }
  }

  /** The edges of the described graph are the declared pairs. */
  lemma {:induction false} SpecGraphEdges(tasks: seq<TaskSpec>, a: string, b: string)
    requires KnownDependencies(tasks) && a in Ids(tasks) && b in Ids(tasks)
    ensures (IndexTable(tasks)[a], IndexTable(tasks)[b]) in SpecGraph(tasks).edges <==>
            (a, b) in Dependencies(tasks)
  {
    DependentsAreTasks(tasks);
    ResolveInjective(tasks, Dependencies(tasks), (a, b));
  }

  lemma {:induction false} SpecGraphSimple(tasks: seq<TaskSpec>)
    requires KnownDependencies(tasks)
    ensures Simple(SpecGraph(tasks)) <==> Distinct(Dependencies(tasks))
  {
    var pairs, edges, table := Dependencies(tasks), SpecGraph(tasks).edges, IndexTable(tasks);
    DependentsAreTasks(tasks);
    forall i, k | 0 <= i < k < |pairs| ensures pairs[i] == pairs[k] <==> edges[i] == edges[k] {
      assert pairs[i] in pairs && pairs[k] in pairs;
      if edges[i] == edges[k] {
        assert tasks[table[pairs[i].0]].id == pairs[i].0 && tasks[table[pairs[k].0]].id == pairs[k].0;
        assert tasks[table[pairs[i].1]].id == pairs[i].1 && tasks[table[pairs[k].1]].id == pairs[k].1;
      }
    }
  }

  /** A circular chain of ids is a cycle of the graph whose edges are the pairs' images. */
  lemma {:induction false} CircleIsPath(g: Graph, pairs: seq<Dependency>, table: map<string, nat>, c: seq<string>)
    requires Circle(pairs, c)
    requires forall p :: p in pairs ==> p.0 in table && p.1 in table && (table[p.0], table[p.1]) in g.edges
    ensures !Acyclic(g)
  {
    forall i | 0 <= i < |c| ensures c[i] in table {
      if i < |c| - 1 { assert (c[i], c[i + 1]) in pairs; } else { assert (c[i - 1], c[i - 1 + 1]) in pairs; }
    }
    var p := seq(|c|, i requires 0 <= i < |c| => table[c[i]]);
    forall i | 0 <= i < |p| - 1 ensures (p[i], p[i + 1]) in g.edges {
      assert (c[i], c[i + 1]) in pairs;
    }
    assert Path(g, p, p[0], p[0]);
    assert OnCycle(g, p[0]);
  }

  /** A cycle of a graph whose edges are images of pairs is a circular chain of ids. */
  lemma {:induction false} PathIsCircle(g: Graph, pairs: seq<Dependency>, names: seq<string>, p: seq<nat>, v: nat)
    requires Path(g, p, v, v)
    requires forall e :: e in g.edges ==> e.0 < |names| && e.1 < |names| && (names[e.0], names[e.1]) in pairs
    ensures Circular(pairs)
  {
    forall i | 0 <= i < |p| ensures p[i] < |names| {
      if i < |p| - 1 { assert (p[i], p[i + 1]) in g.edges; } else { assert (p[i - 1], p[i - 1 + 1]) in g.edges; }
    }
    var c := seq(|p|, i requires 0 <= i < |p| => names[p[i]]);
    forall i | 0 <= i < |c| - 1 ensures (c[i], c[i + 1]) in pairs {
      assert (p[i], p[i + 1]) in g.edges;
    }
    assert Circle(pairs, c);
  }

  lemma {:induction false} EdgeIsDeclared(tasks: seq<TaskSpec>, e: Edge)
    requires KnownDependencies(tasks) && e in SpecGraph(tasks).edges
    ensures e.0 < |tasks| && e.1 < |tasks| && (Ids(tasks)[e.0], Ids(tasks)[e.1]) in Dependencies(tasks)
  {
    var edges, pairs := SpecGraph(tasks).edges, Dependencies(tasks);
    DependentsAreTasks(tasks);
    var k :| 0 <= k < |edges| && edges[k] == e;
    assert pairs[k] in pairs;
    assert tasks[e.0].id == pairs[k].0 && tasks[e.1].id == pairs[k].1;
    assert pairs[k] == (Ids(tasks)[e.0], Ids(tasks)[e.1]);
  }

  /** The described graph has a cycle exactly when some chain of ids returns to its start. */
  lemma {:induction false} CircularMeansCyclic(tasks: seq<TaskSpec>)
    requires KnownDependencies(tasks)
    ensures Circular(Dependencies(tasks)) <==> !Acyclic(SpecGraph(tasks))
  {
    var g, pairs, table := SpecGraph(tasks), Dependencies(tasks), IndexTable(tasks);
    forall p | p in pairs ensures p.0 in table && p.1 in table && (table[p.0], table[p.1]) in g.edges {
      DependentsAreTasks(tasks);
      SpecGraphEdges(tasks, p.0, p.1);
      assert (p.0, p.1) == p;
    }
    forall e | e in g.edges
      ensures e.0 < |Ids(tasks)| && e.1 < |Ids(tasks)| && (Ids(tasks)[e.0], Ids(tasks)[e.1]) in pairs
    {
      EdgeIsDeclared(tasks, e);
    }
    if c :| Circle(pairs, c) {
      CircleIsPath(g, pairs, table, c);
    }
    if v: nat, p :| Path(g, p, v, v) {
      PathIsCircle(g, pairs, Ids(tasks), p, v);
    }
  }

  // ---------- orders of the tasks ----------

  /** A list of tasks, and a valid order of the described graph if the builders accept it. */
  ghost predicate OrderFor(tasks: seq<TaskSpec>, order: seq<nat>) {
    && (forall v :: v in order ==> v < |tasks|)
    && (Runnable(tasks) ==> IsTopoOrder(SpecGraph(tasks), order))
  }

  /** The order that the sort gives the tasks. */
  ghost function SortOf(tasks: seq<TaskSpec>): (order: seq<nat>)
    ensures OrderFor(tasks, order)
  {
    if Runnable(tasks) then
      CircularMeansCyclic(tasks);
      SortedOrderIsTopo(SpecGraph(tasks));
      SortedOrder(SpecGraph(tasks))
    else []
  }

  // ---------- building ----------

  /** The edges added so far are those of a prefix of the declared pairs. */
  ghost predicate Linked(tasks: seq<TaskSpec>, edges: seq<Edge>, seen: seq<Dependency>) {
    && seen <= Dependencies(tasks)
    && Distinct(seen)
    && (forall p :: p in seen ==> p.0 in IndexTable(tasks) && p.1 in IndexTable(tasks))
    && edges == Resolve(IndexTable(tasks), seen)
  }

  lemma {:induction false} LinkStep(tasks: seq<TaskSpec>, edges: seq<Edge>, seen: seq<Dependency>, p: Dependency)
    requires Linked(tasks, edges, seen) && seen + [p] <= Dependencies(tasks)
    ensures p in Dependencies(tasks) && p.1 in IndexTable(tasks)
    ensures p in seen ==> exists k :: 0 <= k < |seen| && Dependencies(tasks)[k] == p == Dependencies(tasks)[|seen|]
    ensures var table := IndexTable(tasks);
            p.0 in table ==>
              && ((table[p.0], table[p.1]) in edges <==> p in seen)
              && (p !in seen ==> Linked(tasks, edges + [(table[p.0], table[p.1])], seen + [p]))
  {
    var all := Dependencies(tasks);
    DependentsAreTasks(tasks);
    assert all[|seen|] == p;
    if k :| 0 <= k < |seen| && seen[k] == p { assert all[k] == p == all[|seen|]; }
    if p.0 in IndexTable(tasks) {
      ResolveInjective(tasks, seen, p);
      ResolveAppend(IndexTable(tasks), seen, p);
    }
  }

  lemma {:induction false} LinkDone(tasks: seq<TaskSpec>, edges: seq<Edge>)
    requires Linked(tasks, edges, Dependencies(tasks))
    ensures KnownDependencies(tasks) && Distinct(Dependencies(tasks))
    ensures edges == SpecGraph(tasks).edges
  {
  }

  /** The loop that adds one edge per declared dependency, shared by the three builders. */
  method Connect<T>(dag: Dag<T>, tasks: seq<TaskSpec>, indices: map<string, nat>)
    returns (r: Result<Unit, BuildError>)
    requires dag.Valid() && dag.edges == [] && |dag.nodes| == |tasks| && indices == IndexTable(tasks)
    modifies dag
    ensures dag.Valid() && dag.nodes == old(dag.nodes)
    ensures r.Success? <==> KnownDependencies(tasks) && Distinct(Dependencies(tasks))
    ensures r.Success? ==> dag.AsGraph() == SpecGraph(tasks)
    ensures r.Failure? ==> !r.error.DuplicateTaskId? && Explains(tasks, r.error)
  {
    for j := 0 to |tasks|
      invariant dag.Valid() && dag.nodes == old(dag.nodes)
      invariant Linked(tasks, dag.edges, Dependencies(tasks[..j]))
    {
      r := ConnectTask(dag, tasks, j, indices);
      if r.Failure? { return; }
      assert tasks[..j + 1][..j] == tasks[..j];
    }
    assert tasks[..|tasks|] == tasks;
    LinkDone(tasks, dag.edges);
    return Success(Unit.Unit);
  }

  /** The inner loop: the dependencies of one task. */
  method ConnectTask<T>(dag: Dag<T>, tasks: seq<TaskSpec>, j: nat, indices: map<string, nat>)
    returns (r: Result<Unit, BuildError>)
    requires j < |tasks| && |dag.nodes| == |tasks| && indices == IndexTable(tasks)
    requires dag.Valid() && Linked(tasks, dag.edges, Dependencies(tasks[..j]))
    modifies dag
    ensures dag.Valid() && dag.nodes == old(dag.nodes)
    ensures r.Success? ==> Linked(tasks, dag.edges, Dependencies(tasks[..j]) + DependenciesOf(tasks[j]))
    ensures r.Failure? ==> !r.error.DuplicateTaskId? && Explains(tasks, r.error)
    ensures r.Failure? ==> !KnownDependencies(tasks) || !Distinct(Dependencies(tasks))
  {
    var t := tasks[j];
    assert Ids(tasks)[j] == t.id;
    var to := indices[t.id];
    ghost var before, mine := Dependencies(tasks[..j]), DependenciesOf(t);
    assert before + mine[..0] == before;
    for k := 0 to |t.dependsOn|
      invariant dag.Valid() && dag.nodes == old(dag.nodes)
      invariant Linked(tasks, dag.edges, before + mine[..k])
    {
      var dep := t.dependsOn[k];
      DependenciesPrefix(tasks, j, k + 1);
      assert before + mine[..k + 1] == (before + mine[..k]) + [(dep, t.id)];
      LinkStep(tasks, dag.edges, before + mine[..k], (dep, t.id));
      if dep !in indices {
        return Failure(UnknownDependency(t.id, dep));
      }
      var added := dag.AddEdge(indices[dep], to);
      if added.Failure? {
        return Failure(Rejected(added.error));
      }
    }
    assert mine[..|t.dependsOn|] == mine;
    return Success(Unit.Unit);
  }

  /** The first loop of `build`: one node per task, until an id repeats. */
  method DeclareTasks(tasks: seq<TaskSpec>)
    returns (dag: Dag<string>, indices: map<string, nat>, duplicate: Option<string>)
    ensures fresh(dag)
    ensures duplicate.None? <==> DistinctIds(tasks)
    ensures duplicate.None? ==>
      dag.Valid() && dag.edges == [] && dag.nodes == Ids(tasks) && indices == IndexTable(tasks)
    ensures duplicate.Some? ==>
      exists i, j :: 0 <= i < j < |tasks| && tasks[i].id == duplicate.value && tasks[j].id == duplicate.value
  {
    dag := new Dag<string>();
    indices := map[];
    for j := 0 to |tasks|
      invariant fresh(dag) && dag.Valid() && dag.edges == []
      invariant dag.nodes == Ids(tasks)[..j] && indices == IndexTable(tasks[..j])
      invariant Distinct(Ids(tasks)[..j])
    {
      assert tasks[..j + 1][..j] == tasks[..j];
      assert Ids(tasks[..j]) == Ids(tasks)[..j];
      if tasks[j].id in indices {
        assert tasks[indices[tasks[j].id]].id == tasks[j].id && Ids(tasks)[j] == tasks[j].id;
        assert Ids(tasks)[indices[tasks[j].id]] == Ids(tasks)[j];
        return dag, indices, Some(tasks[j].id);
      }
      var idx := dag.AddNode(tasks[j].id);
      indices := indices[tasks[j].id := idx];
    }
    assert tasks[..|tasks|] == tasks;
    assert Ids(tasks)[..|tasks|] == Ids(tasks);
    duplicate := None;
  }

  /** `DagSpec::build`: accepts exactly the well-formed acyclic specifications. */
  method Build(tasks: seq<TaskSpec>) returns (r: Result<Dag<string>, BuildError>)
    ensures r.Success? <==>
            && DistinctIds(tasks)
            && KnownDependencies(tasks)
            && NoRepeatedDependency(tasks)
            && !Circular(Dependencies(tasks))
    ensures r.Success? ==>
            && fresh(r.value)
            && r.value.Valid()
            && r.value.nodes == Ids(tasks)
            && r.value.AsGraph() == SpecGraph(tasks)
    ensures r.Failure? ==> Explains(tasks, r.error) && (DistinctIds(tasks) <==> !r.error.DuplicateTaskId?)
  {
    var dag, indices, duplicate := DeclareTasks(tasks);
    if duplicate.Some? { return Failure(DuplicateTaskId(duplicate.value)); }
    RepeatedPairs(tasks);
    var connected := Connect(dag, tasks, indices);
    if connected.Failure? {
      return Failure(connected.error);
    }
    CircularMeansCyclic(tasks);
    var checked := dag.CycleCheck();
    if checked.Failure? {
      return Failure(Rejected(checked.error));
    }
    return Success(dag);
  }

  /** What an accepted specification yields: one edge per declared dependency, and no self-loop. */
  lemma {:induction false} AcceptedSpecGraph(tasks: seq<TaskSpec>)
    requires DistinctIds(tasks) && Runnable(tasks)
    ensures Simple(SpecGraph(tasks)) && Acyclic(SpecGraph(tasks))
    ensures |SpecGraph(tasks).edges| == SumOfLengths(tasks)
    ensures forall v: nat :: (v, v) !in SpecGraph(tasks).edges
    ensures forall i: nat, j: nat :: i < |tasks| && j < |tasks| ==>
              ((i, j) in SpecGraph(tasks).edges <==> tasks[i].id in tasks[j].dependsOn)
  {
    var g := SpecGraph(tasks);
    SpecGraphSimple(tasks);
    CircularMeansCyclic(tasks);
    DependencyCount(tasks);
    forall v: nat | (v, v) in g.edges ensures false { EdgeReaches(g, v, v); assert OnCycle(g, v); }
    forall i: nat, j: nat | i < |tasks| && j < |tasks|
      ensures (i, j) in g.edges <==> tasks[i].id in tasks[j].dependsOn
    {
      EdgeMeaning(tasks, i, j);
    }
  }

  /** With distinct ids the table maps the id of the i-th task to node i. */
  lemma {:induction false} OwnIndex(tasks: seq<TaskSpec>, i: nat)
    requires DistinctIds(tasks) && i < |tasks|
    ensures tasks[i].id in IndexTable(tasks) && IndexTable(tasks)[tasks[i].id] == i
  {
    var ids := Ids(tasks);
    assert ids[i] == tasks[i].id;
    assert ids[IndexTable(tasks)[ids[i]]] == ids[i];
  }

  lemma {:induction false} EdgeMeaning(tasks: seq<TaskSpec>, i: nat, j: nat)
    requires DistinctIds(tasks) && KnownDependencies(tasks) && i < |tasks| && j < |tasks|
    ensures (i, j) in SpecGraph(tasks).edges <==> tasks[i].id in tasks[j].dependsOn
  {
    OwnIndex(tasks, i);
    OwnIndex(tasks, j);
    SpecGraphEdges(tasks, tasks[i].id, tasks[j].id);
    OwnDependencies(tasks, j, tasks[i].id);
  }

  lemma {:induction false} OwnDependencies(tasks: seq<TaskSpec>, j: nat, dep: string)
    requires DistinctIds(tasks) && j < |tasks|
    ensures (dep, tasks[j].id) in Dependencies(tasks) <==> dep in tasks[j].dependsOn
  {
    forall m | 0 <= m < |tasks| && tasks[m].id == tasks[j].id ensures m == j {
      assert Ids(tasks)[m] == Ids(tasks)[j];
    }
    DependencyMeaning(tasks, (dep, tasks[j].id));
  }
}
