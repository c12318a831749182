/** What the lineage queries answer after a completed run: the graph's parents and children. */
module Queries {
  import opened Digraph
  import opened Sorting
  import opened Tasks
  import opened Lineage
  import opened RunPlan
  import opened LocalRunner
  import opened Schedule
  import opened Recovery
  import DagCore

  function ParentIds(g: Graph, nodes: seq<Task>, v: nat): set<string>
    requires InRange(g) && |nodes| == g.n
  {
    set e | e in g.edges && e.1 == v :: nodes[e.0].id
  }

  function ChildIds(g: Graph, nodes: seq<Task>, v: nat): set<string>
    requires InRange(g) && |nodes| == g.n
  {
    set e | e in g.edges && e.0 == v :: nodes[e.1].id
  }

  /** The tables hold, for the run, the edges of this graph of tasks with distinct ids. */
  ghost predicate HoldsGraph(tb: Tables, run: string, g: Graph, nodes: seq<Task>) {
    && Simple(g) && |nodes| == g.n && Distinct(TaskIdsOf(nodes))
    && View(tb, run).edges == Elements(IdPairs(nodes, g.edges))
  }

  /** An edge row joins the ids of two nodes exactly if an edge joins the nodes. */
  lemma {:induction false} RowOfEdge(tb: Tables, run: string, g: Graph, nodes: seq<Task>, u: nat, v: nat)
    requires HoldsGraph(tb, run, g, nodes) && u < g.n && v < g.n
    ensures (nodes[u].id, nodes[v].id) in View(tb, run).edges <==> (u, v) in g.edges
  {
    EdgeRowsAreEdges(nodes, g);
  }

  /** Every edge row is that of some edge. */
  lemma {:induction false} EdgeOfRow(tb: Tables, run: string, g: Graph, nodes: seq<Task>, a: string, b: string)
    returns (e: Edge)
    requires HoldsGraph(tb, run, g, nodes) && (a, b) in View(tb, run).edges
    ensures e in g.edges && e.0 < g.n && e.1 < g.n && nodes[e.0].id == a && nodes[e.1].id == b
  {
    var k := IndexOf(IdPairs(nodes, g.edges), (a, b));
    e := g.edges[k];
    assert e in g.edges;
  }

  lemma {:induction false} SameNode(nodes: seq<Task>, u: nat, v: nat)
    requires Distinct(TaskIdsOf(nodes)) && u < |nodes| && v < |nodes| && nodes[u].id == nodes[v].id
    ensures u == v
  {
    assert TaskIdsOf(nodes)[u] == TaskIdsOf(nodes)[v];
  }

  lemma {:induction false} UpstreamIsParents(tb: Tables, run: string, g: Graph, nodes: seq<Task>, v: nat)
    requires HoldsGraph(tb, run, g, nodes) && v < g.n
    ensures UpstreamOf(tb, run, nodes[v].id) == SortIds(ParentIds(g, nodes, v))
  {
    var answer := UpstreamOf(tb, run, nodes[v].id);
    forall id ensures id in answer <==> id in ParentIds(g, nodes, v) {
      QueriesAreDual(tb, run, id, nodes[v].id);
      if id in answer {
        var e := EdgeOfRow(tb, run, g, nodes, id, nodes[v].id);
        SameNode(nodes, e.1, v);
      }
      if id in ParentIds(g, nodes, v) {
        var e :| e in g.edges && e.1 == v && nodes[e.0].id == id;
        assert (e.0, e.1) == e;
        RowOfEdge(tb, run, g, nodes, e.0, v);
      }
    }
    QueriesAreDual(tb, run, "", nodes[v].id);
    SortedIdsAreUnique(ParentIds(g, nodes, v), answer);
  }

  lemma {:induction false} DownstreamIsChildren(tb: Tables, run: string, g: Graph, nodes: seq<Task>, v: nat)
    requires HoldsGraph(tb, run, g, nodes) && v < g.n
    ensures DownstreamOf(tb, run, nodes[v].id) == SortIds(ChildIds(g, nodes, v))
  {
    var answer := DownstreamOf(tb, run, nodes[v].id);
    forall id ensures id in answer <==> id in ChildIds(g, nodes, v) {
      QueriesAreDual(tb, run, nodes[v].id, id);
      if id in answer {
        var e := EdgeOfRow(tb, run, g, nodes, nodes[v].id, id);
        SameNode(nodes, e.0, v);
      }
      if id in ChildIds(g, nodes, v) {
        var e :| e in g.edges && e.0 == v && nodes[e.1].id == id;
        assert (e.0, e.1) == e;
        RowOfEdge(tb, run, g, nodes, v, e.1);
      }
    }
    QueriesAreDual(tb, run, nodes[v].id, "");
    SortedIdsAreUnique(ChildIds(g, nodes, v), answer);
  }

  lemma {:induction false} NeighbourMeansAnswer(tb: Tables, run: string, g: Graph, nodes: seq<Task>, v: nat)
    requires HoldsGraph(tb, run, g, nodes) && v < g.n
    ensures DagCore.HasNeighbour(g, v) <==>
      UpstreamOf(tb, run, nodes[v].id) != [] || DownstreamOf(tb, run, nodes[v].id) != []
  {
    UpstreamIsParents(tb, run, g, nodes, v);
    DownstreamIsChildren(tb, run, g, nodes, v);
    if e :| e in g.edges && (e.0 == v || e.1 == v) {
      assert e.1 == v ==> nodes[e.0].id in ParentIds(g, nodes, v);
      assert e.0 == v ==> nodes[e.1].id in ChildIds(g, nodes, v);
    }
    var up, down := SortIds(ParentIds(g, nodes, v)), SortIds(ChildIds(g, nodes, v));
    if up != [] { assert up[0] in ParentIds(g, nodes, v); }
    if down != [] { assert down[0] in ChildIds(g, nodes, v); }
  }

  /** Upstream and downstream answers are the sorted ids of parents and children. */
  ghost predicate ListsNeighbours(tb: Tables, run: string, g: Graph, nodes: seq<Task>)
    requires InRange(g) && |nodes| == g.n
  {
    forall v :: 0 <= v < g.n ==>
      && UpstreamOf(tb, run, nodes[v].id) == SortIds(ParentIds(g, nodes, v))
      && DownstreamOf(tb, run, nodes[v].id) == SortIds(ChildIds(g, nodes, v))
  }

  /** One task is in the answer for another exactly if an edge joins them. */
  ghost predicate AnswersEdges(tb: Tables, run: string, g: Graph, nodes: seq<Task>)
    requires |nodes| == g.n
  {
    forall u, v :: 0 <= u < g.n && 0 <= v < g.n ==>
      && (nodes[u].id in UpstreamOf(tb, run, nodes[v].id) <==> (u, v) in g.edges)
      && (nodes[v].id in DownstreamOf(tb, run, nodes[u].id) <==> (u, v) in g.edges)
  }

  /** Every task has a non-empty answer. */
  ghost predicate EveryTaskAnswers(tb: Tables, run: string, nodes: seq<Task>) {
    forall v :: 0 <= v < |nodes| ==>
      UpstreamOf(tb, run, nodes[v].id) != [] || DownstreamOf(tb, run, nodes[v].id) != []
  }

  lemma {:induction false} HeldGraphAnswersEdges(tb: Tables, run: string, g: Graph, nodes: seq<Task>)
    requires HoldsGraph(tb, run, g, nodes)
    ensures AnswersEdges(tb, run, g, nodes)
  {
    forall u: nat, v: nat | u < g.n && v < g.n
      ensures nodes[u].id in UpstreamOf(tb, run, nodes[v].id) <==> (u, v) in g.edges
      ensures nodes[v].id in DownstreamOf(tb, run, nodes[u].id) <==> (u, v) in g.edges
    {
      QueriesAreDual(tb, run, nodes[u].id, nodes[v].id);
      RowOfEdge(tb, run, g, nodes, u, v);
    }
  }

  lemma {:induction false} HeldGraphListsNeighbours(tb: Tables, run: string, g: Graph, nodes: seq<Task>)
    requires HoldsGraph(tb, run, g, nodes)
    ensures ListsNeighbours(tb, run, g, nodes)
    ensures DagCore.NoOrphan(g) <==> EveryTaskAnswers(tb, run, nodes)
  {
    forall v: nat | v < g.n
      ensures UpstreamOf(tb, run, nodes[v].id) == SortIds(ParentIds(g, nodes, v))
      ensures DownstreamOf(tb, run, nodes[v].id) == SortIds(ChildIds(g, nodes, v))
      ensures DagCore.HasNeighbour(g, v) <==>
        UpstreamOf(tb, run, nodes[v].id) != [] || DownstreamOf(tb, run, nodes[v].id) != []
    {
      UpstreamIsParents(tb, run, g, nodes, v);
      DownstreamIsChildren(tb, run, g, nodes, v);
      NeighbourMeansAnswer(tb, run, g, nodes, v);
    }
  }

  /**
   * After a completed run on a fresh run id, the queries of a task are exactly the ids of its parents
   * and of its children, strictly sorted, and no task is an orphan exactly if each has an answer.
   */
  lemma {:induction false} QueriesMatchGraph(tb: Tables, run: string, g: Graph, nodes: seq<Task>, order: seq<nat>,
                                             ws: seq<Write>)
    requires Simple(g) && Scheduled(g, nodes, order) && View(tb, run) == EMPTY_VIEW
    requires Follows(run, Plan(nodes, g.edges, order), ws)
    ensures ListsNeighbours(Replay(tb, ws), run, g, nodes)
    ensures AnswersEdges(Replay(tb, ws), run, g, nodes)
    ensures DagCore.NoOrphan(g) <==> EveryTaskAnswers(Replay(tb, ws), run, nodes)
  {
    var end := Replay(tb, ws);
    StoreAgreesWithReport(tb, run, IdPairs(nodes, g.edges), Sequence(g, nodes, order), ws);
    HeldGraphAnswersEdges(end, run, g, nodes);
    HeldGraphListsNeighbours(end, run, g, nodes);
  }
}
