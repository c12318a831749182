/** `Dag<T>` of dag-core: a growing graph of payloads with a topological sort and a cycle check. */
module DagCore {
  import opened Wrappers
  import opened Digraph
  import opened TopoSort

  datatype DagError =
    | UnknownNode(node: nat)
    | Cycle(node: nat)
    | DuplicateEdge(from: nat, to: nat)

  datatype Unit = Unit

  // ---------- the sort, by in-degrees ----------

  /** The number of edges into v that start outside `done`. */
  ghost function Waiting(edges: seq<Edge>, done: seq<nat>, v: nat): nat {
    if edges == [] then 0
    else (if edges[0].1 == v && edges[0].0 !in done then 1 else 0) + Waiting(edges[1..], done, v)
  }

  lemma {:induction false} WaitingAppend(edges: seq<Edge>, e: Edge, done: seq<nat>, v: nat)
    ensures Waiting(edges + [e], done, v) ==
            Waiting(edges, done, v) + if e.1 == v && e.0 !in done then 1 else 0
  {
    if edges == [] {
      assert [e][1..] == [];
      assert edges + [e] == [e];
    } else {
      assert (edges + [e])[1..] == edges[1..] + [e];
      WaitingAppend(edges[1..], e, done, v);
    }
  }

  lemma {:induction false} WaitingZero(edges: seq<Edge>, done: seq<nat>, v: nat)
    ensures Waiting(edges, done, v) == 0 <==> forall e :: e in edges ==> e.1 == v ==> e.0 in done
  {
    if edges == [] {
    } else {
      WaitingZero(edges[1..], done, v);
      assert forall e :: e in edges <==> e == edges[0] || e in edges[1..];
    }
  }

  /** The in-degree that remains for w after x was taken and its first i edges were relaxed. */
  ghost function Relaxed(edges: seq<Edge>, done: seq<nat>, x: nat, i: nat, w: nat): nat
    requires i <= |edges|
  {
    Waiting(edges[..i], done + [x], w) + Waiting(edges[i..], done, w)
  }

  lemma {:induction false} RelaxStep(edges: seq<Edge>, done: seq<nat>, x: nat, i: nat, w: nat)
    requires i < |edges| && x !in done
    ensures Relaxed(edges, done, x, i, w) ==
            Relaxed(edges, done, x, i + 1, w) + if edges[i] == (x, w) then 1 else 0
  {
    assert edges[..i + 1] == edges[..i] + [edges[i]];
    WaitingAppend(edges[..i], edges[i], done + [x], w);
    assert edges[i..][1..] == edges[i + 1..];
  }

  /** Initial in-degrees. */
  method InDegrees(g: Graph) returns (indegree: array<nat>)
    requires InRange(g)
    ensures fresh(indegree) && indegree.Length == g.n
    ensures forall v :: 0 <= v < g.n ==> indegree[v] == Waiting(g.edges, [], v)
  {
    indegree := new nat[g.n](_ => 0);
    for i := 0 to |g.edges|
      invariant forall v :: 0 <= v < g.n ==> indegree[v] == Waiting(g.edges[..i], [], v)
    {
      var e := g.edges[i];
      assert e in g.edges;
      assert g.edges[..i + 1] == g.edges[..i] + [e];
      forall v: nat | v < g.n { WaitingAppend(g.edges[..i], e, [], v); }
      indegree[e.1] := indegree[e.1] + 1;
    }
    assert g.edges[..|g.edges|] == g.edges;
  }

  /** Taking x releases one predecessor of each of its successors. */
  method Relax(g: Graph, indegree: array<nat>, ghost done: seq<nat>, x: nat)
    requires InRange(g) && indegree.Length == g.n && x !in done
    requires forall v :: 0 <= v < g.n ==> indegree[v] == Waiting(g.edges, done, v)
    modifies indegree
    ensures forall v :: 0 <= v < g.n ==> indegree[v] == Waiting(g.edges, done + [x], v)
  {
    assert g.edges[0..] == g.edges;
    for i := 0 to |g.edges|
      invariant forall v :: 0 <= v < g.n ==> indegree[v] == Relaxed(g.edges, done, x, i, v)
    {
      forall v: nat | v < g.n { RelaxStep(g.edges, done, x, i, v); }
      var e := g.edges[i];
      assert e in g.edges;
      if e.0 == x {
        indegree[e.1] := indegree[e.1] - 1;
      }
    }
    assert g.edges[..|g.edges|] == g.edges;
  }

  /** The least unsorted node of in-degree zero. */
  method NextReady(g: Graph, indegree: array<nat>, done: seq<nat>) returns (r: Option<nat>)
    requires indegree.Length == g.n
    requires forall v :: 0 <= v < g.n ==> indegree[v] == Waiting(g.edges, done, v)
    ensures r == FirstReady(g, done, 0)
  {
    forall v: nat ensures Ready(g, done, v) <==> v < g.n && v !in done && Waiting(g.edges, done, v) == 0 {
      WaitingZero(g.edges, done, v);
    }
    for v := 0 to g.n
      invariant forall u: nat :: u < v ==> !Ready(g, done, u)
    {
      if v !in done && indegree[v] == 0 {
        return Some(v);
      }
    }
    return None;
  }

  /** Kahn's algorithm. A failure names a node that lies on a cycle. */
  method Kahn(g: Graph) returns (r: Result<seq<nat>, DagError>)
    requires InRange(g)
    ensures r.Success? <==> Acyclic(g)
    ensures r.Success? ==> IsTopoOrder(g, r.value) && r.value == SortedOrder(g)
    ensures r.Failure? ==> r.error.Cycle? && OnCycle(g, r.error.node)
  {
    SortedOrderIsTopo(g);
    var indegree := InDegrees(g);
    var order: seq<nat> := [];
    while true
      invariant fresh(indegree) && indegree.Length == g.n
      invariant PartialOrder(g, order) && Greedy(g, order) == SortedOrder(g)
      invariant forall v :: 0 <= v < g.n ==> indegree[v] == Waiting(g.edges, order, v)
      decreases g.n - |order|
    {
      NodeListBound(g, order);
      var next := NextReady(g, indegree, order);
      if next.None? { break; }
      PartialOrderExtends(g, order, next.value);
      Relax(g, indegree, order, next.value);
      order := order + [next.value];
    }
    if |order| == g.n {
      return Success(order);
    }
    return Failure(Cycle(CycleNode(g, order)));
  }

  // ---------- the cycle check, by depth-first search ----------

  datatype Colour = White | Grey | Black

  /**
   * The search state: the grey nodes are the current path, and the black nodes, in the order in
   * which they turned black, have all their successors before them.
   */
  ghost predicate SearchState(g: Graph, colour: seq<Colour>, path: seq<nat>, finished: seq<nat>) {
    && |colour| == g.n
    && Apart(g, path, finished)
    && (forall v: nat :: v < g.n ==> (colour[v] == Grey <==> v in path))
    && (forall v: nat :: v < g.n ==> (colour[v] == Black <==> v in finished))
    && Walk(g, path)
    && SuccessorsFinishFirst(g, finished)
  }

  ghost predicate Apart(g: Graph, path: seq<nat>, finished: seq<nat>) {
    NodeList(g, path) && NodeList(g, finished) && forall v :: v in path ==> v !in finished
  }

  ghost predicate SuccessorsFinishFirst(g: Graph, finished: seq<nat>) {
    forall i, w: nat :: 0 <= i < |finished| && (finished[i], w) in g.edges ==> w in finished[..i]
  }

  lemma {:induction false} SearchRoom(g: Graph, path: seq<nat>, finished: seq<nat>, v: nat)
    requires Apart(g, path, finished) && v < g.n && v !in path && v !in finished
    ensures |path| + |finished| < g.n
  {
    DistinctCardinality(path);
    DistinctCardinality(finished);
    assert Elements(path) !! Elements(finished);
    assert |Elements(path) + Elements(finished) + {v}| == |path| + |finished| + 1;
    SubsetCardinality(Elements(path) + Elements(finished) + {v}, Below(g.n));
  }

  /** Reaching a grey node closes a cycle. */
  lemma {:induction false} GreySuccessorClosesCycle(g: Graph, path: seq<nat>, w: nat)
    requires path != [] && Walk(g, path) && w in path && (path[|path| - 1], w) in g.edges
    ensures OnCycle(g, w)
  {
    var k := IndexOf(path, w);
    var c := path[k..] + [w];
    forall i | 0 <= i < |c| - 1 ensures (c[i], c[i + 1]) in g.edges {
      if i < |c| - 2 { assert (path[k + i], path[k + i + 1]) in g.edges; }
    }
    assert Path(g, c, w, w);
  }

  method Visit(g: Graph, v: nat, colour: array<Colour>, ghost path: seq<nat>, ghost finished: seq<nat>)
    returns (found: bool, ghost after: seq<nat>)
    requires InRange(g) && v < g.n && colour.Length == g.n && colour[v] == White
    requires SearchState(g, colour[..], path, finished)
    requires path == [] || (path[|path| - 1], v) in g.edges
    modifies colour
    ensures found ==> !Acyclic(g)
    ensures !found ==> SearchState(g, colour[..], path, after) && finished <= after && v in after
    decreases g.n - |path| - |finished|
  {
    SearchRoom(g, path, finished, v);
    ghost var here := path + [v];
    after := finished;
    colour[v] := Grey;
    for i := 0 to |g.edges|
      invariant SearchState(g, colour[..], here, after) && finished <= after
      invariant forall k :: 0 <= k < i && g.edges[k].0 == v ==> g.edges[k].1 in after
    {
      if g.edges[i].0 == v {
        var w := g.edges[i].1;
        assert (v, w) in g.edges;
        if colour[w] == Grey {
          GreySuccessorClosesCycle(g, here, w);
          return true, after;
        }
        if colour[w] == White {
          found, after := Visit(g, w, colour, here, after);
          if found { return true, after; }
        }
      }
    }
    colour[v] := Black;
    FinishNode(g, after, v);
    after := after + [v];
    found := false;
  }

  lemma {:induction false} FinishNode(g: Graph, finished: seq<nat>, v: nat)
    requires SuccessorsFinishFirst(g, finished)
    requires forall k :: 0 <= k < |g.edges| && g.edges[k].0 == v ==> g.edges[k].1 in finished
    ensures SuccessorsFinishFirst(g, finished + [v])
  {
    var f := finished + [v];
    forall i, w: nat | 0 <= i < |f| && (f[i], w) in g.edges ensures w in f[..i] {
      if i < |finished| {
        assert f[..i] == finished[..i];
      } else {
        assert f[..i] == finished;
        var k :| 0 <= k < |g.edges| && g.edges[k] == (v, w);
      }
    }
  }

  /** When every node is black, the reversed finishing order is a topological order. */
  lemma {:induction false} FinishedSearchIsAcyclic(g: Graph, finished: seq<nat>)
    requires InRange(g) && NodeList(g, finished) && SuccessorsFinishFirst(g, finished)
    requires forall v: nat :: v < g.n ==> v in finished
    ensures Acyclic(g)
  {
    var m := |finished|;
    var order := seq(m, i requires 0 <= i < m => finished[m - 1 - i]);
    forall v: nat | v < g.n ensures v in order {
      var k := IndexOf(finished, v);
      assert order[m - 1 - k] == v;
    }
    assert forall i :: 0 <= i < m ==> order[i] in finished;
    forall i, j | 0 <= i < m && 0 <= j < m && (order[i], order[j]) in g.edges ensures i < j {
      assert (finished[m - 1 - i], order[j]) in g.edges;
      var k :| 0 <= k < m - 1 - i && finished[k] == order[j];
      assert finished[k] == finished[m - 1 - j];
    }
    TopoOrderImpliesAcyclic(g, order);
  }

  /** Depth-first search for a back edge. */
  method IsCyclicDirected(g: Graph) returns (cyclic: bool)
    requires InRange(g)
    ensures cyclic <==> !Acyclic(g)
  {
    var colour := new Colour[g.n](_ => White);
    ghost var finished: seq<nat> := [];
    for v := 0 to g.n
      invariant SearchState(g, colour[..], [], finished)
      invariant forall u: nat :: u < v ==> u in finished
    {
      if colour[v] == White {
        var found;
        found, finished := Visit(g, v, colour, [], finished);
        if found { return true; }
      }
    }
    FinishedSearchIsAcyclic(g, finished);
    return false;
  }

  // ---------- the class ----------

  class Dag<T> {
    var nodes: seq<T>
    var edges: seq<Edge>

    function AsGraph(): Graph
      reads this
    {
      Graph(|nodes|, edges)
    }

    ghost predicate Valid()
      reads this
    {
      Simple(AsGraph())
    }

    constructor ()
      ensures Valid() && nodes == [] && edges == []
    {
      nodes, edges := [], [];
    }

    method AddNode(payload: T) returns (idx: nat)
      requires Valid()
      modifies this
      ensures Valid()
      ensures idx == old(|nodes|) && nodes == old(nodes) + [payload] && edges == old(edges)
    {
      idx := |nodes|;
      nodes := nodes + [payload];
    }

    method AddEdge(from: nat, to: nat) returns (r: Result<Unit, DagError>)
      requires Valid()
      modifies this
      ensures Valid() && nodes == old(nodes)
      ensures r.Success? <==> from < |nodes| && to < |nodes| && (from, to) !in old(edges)
      ensures edges == if r.Success? then old(edges) + [(from, to)] else old(edges)
      ensures from >= |nodes| ==> r == Failure(UnknownNode(from))
      ensures from < |nodes| && to >= |nodes| ==> r == Failure(UnknownNode(to))
      ensures from < |nodes| && to < |nodes| && r.Failure? ==> r == Failure(DuplicateEdge(from, to))
    {
      if from >= |nodes| { return Failure(UnknownNode(from)); }
      if to >= |nodes| { return Failure(UnknownNode(to)); }
      if (from, to) in edges { return Failure(DuplicateEdge(from, to)); }
      edges := edges + [(from, to)];
      return Success(Unit.Unit);
    }

    /** Projects node handles to their payloads. */
    function Payloads(order: seq<nat>): seq<T>
      requires forall v :: v in order ==> v < |nodes|
      reads this
    {
      var payloads := nodes;
      seq(|order|, i requires 0 <= i < |order| => assert order[i] in order; payloads[order[i]])
    }

    method TopoSort() returns (r: Result<seq<nat>, DagError>)
      requires Valid()
      ensures r.Success? <==> Acyclic(AsGraph())
      ensures r.Success? ==> IsTopoOrder(AsGraph(), r.value) && r.value == SortedOrder(AsGraph())
      ensures r.Failure? ==> r.error.Cycle? && OnCycle(AsGraph(), r.error.node)
    {
      r := Kahn(AsGraph());
    }

    /** The search decides; the sort is run again only to name a node on the cycle. */
    method CycleCheck() returns (r: Result<Unit, DagError>)
      requires Valid()
      ensures r.Success? <==> Acyclic(AsGraph())
      ensures r.Failure? ==> r.error.Cycle? && OnCycle(AsGraph(), r.error.node)
    {
      var cyclic := IsCyclicDirected(AsGraph());
      if cyclic {
        var order := TopoSort();
        match order
        case Success(_) => return Success(Unit.Unit);
        case Failure(e) => return Failure(e);
      }
      return Success(Unit.Unit);
    }

    /** The upstream nodes, without repeats. */
    method Parents(node: nat) returns (r: seq<nat>)
      requires Valid()
      ensures forall u :: u in r <==> (u, node) in edges
      ensures Distinct(r)
    {
      r := [];
      for i := 0 to |edges|
        invariant forall u :: u in r <==> (u, node) in edges[..i]
        invariant Distinct(r)
      {
        assert edges[..i + 1] == edges[..i] + [edges[i]];
        if edges[i].1 == node {
          assert edges[i] !in edges[..i];
          r := [edges[i].0] + r;
        }
      }
      assert edges[..|edges|] == edges;
    }

    /** The downstream nodes, without repeats. */
    method Children(node: nat) returns (r: seq<nat>)
      requires Valid()
      ensures forall w :: w in r <==> (node, w) in edges
      ensures Distinct(r)
    {
      r := [];
      for i := 0 to |edges|
        invariant forall w :: w in r <==> (node, w) in edges[..i]
        invariant Distinct(r)
      {
        assert edges[..i + 1] == edges[..i] + [edges[i]];
        if edges[i].0 == node {
          assert edges[i] !in edges[..i];
          r := [edges[i].1] + r;
        }
      }
      assert edges[..|edges|] == edges;
    }

    /** No orphan: a single node, or every node is an endpoint of some edge (a self-loop counts). */
    method EveryTaskReachable() returns (r: bool)
      requires Valid()
      ensures r <==> |nodes| <= 1 || NoOrphan(AsGraph())
    {
      if |nodes| <= 1 { return true; }
      for v := 0 to |nodes|
        invariant forall u: nat :: u < v ==> HasNeighbour(AsGraph(), u)
      {
        var parents := Parents(v);
        var children := Children(v);
        if |parents| != 0 { assert (parents[0], v) in edges; }
        if |children| != 0 { assert (v, children[0]) in edges; }
        if |parents| == 0 && |children| == 0 {
          assert forall u :: (u, v) in edges ==> u in parents;
          assert forall w :: (v, w) in edges ==> w in children;
          assert !HasNeighbour(AsGraph(), v);
          return false;
        }
      }
      return true;
    }
  }

  ghost predicate HasNeighbour(g: Graph, v: nat) {
    exists e :: e in g.edges && (e.0 == v || e.1 == v)
  }

  ghost predicate NoOrphan(g: Graph) {
    forall v: nat :: v < g.n ==> HasNeighbour(g, v)
  }
}
