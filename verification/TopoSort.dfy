/**
 * The order that `topo_sort` returns, as a function of the graph, and the proof that it is a valid
 * order exactly on acyclic graphs. The function repeatedly takes the least node all of whose
 * predecessors have been taken; everything proved elsewhere uses only `IsTopoOrder`.
 */
module TopoSort {
  import opened Wrappers
  import opened Digraph

  predicate Ready(g: Graph, done: seq<nat>, v: nat) {
    v < g.n && v !in done && forall e | e in g.edges :: e.1 == v ==> e.0 in done
  }

  /** The least ready node that is not below `from`. */
  function FirstReady(g: Graph, done: seq<nat>, from: nat): (r: Option<nat>)
    ensures r.None? ==> forall v: nat :: from <= v ==> !Ready(g, done, v)
    ensures r.Some? ==> from <= r.value && Ready(g, done, r.value)
    ensures r.Some? ==> forall v: nat :: from <= v < r.value ==> !Ready(g, done, v)
    decreases g.n - from
  {
    if from >= g.n then None
    else if Ready(g, done, from) then Some(from)
    else FirstReady(g, done, from + 1)
  }

  /** A partial order is a list of nodes that contains the predecessors of each of its nodes, earlier. */
  ghost predicate PartialOrder(g: Graph, done: seq<nat>) {
    && NodeList(g, done)
    && forall i, u: nat :: 0 <= i < |done| && (u, done[i]) in g.edges ==> u in done[..i]
  }

  lemma {:induction false} PartialOrderExtends(g: Graph, done: seq<nat>, v: nat)
    requires PartialOrder(g, done) && Ready(g, done, v)
    ensures PartialOrder(g, done + [v]) && |done| < g.n
  {
    var next := done + [v];
    forall i, u: nat | 0 <= i < |next| && (u, next[i]) in g.edges ensures u in next[..i] {
      if i < |done| {
        assert next[..i] == done[..i];
      } else {
        assert next[..i] == done;
      }
    }
    NodeListBound(g, next);
  }

  function Greedy(g: Graph, done: seq<nat>): (order: seq<nat>)
    requires PartialOrder(g, done)
    ensures PartialOrder(g, order)
    ensures forall v: nat :: !Ready(g, order, v)
    decreases if |done| < g.n then g.n - |done| else 0
  {
    match FirstReady(g, done, 0)
    case None => done
    case Some(v) =>
      PartialOrderExtends(g, done, v);
      Greedy(g, done + [v])
  }

  /** What `topo_sort` returns on an acyclic graph. */
  function SortedOrder(g: Graph): seq<nat> {
    Greedy(g, [])
  }

  // ---------- a stuck sort points at a cycle ----------

  /** An unsorted node and no ready node: every unsorted node has an unsorted predecessor. */
  ghost predicate Stuck(g: Graph, done: seq<nat>) {
    forall v: nat :: !Ready(g, done, v)
  }

  function UnsortedPredecessor(edges: seq<Edge>, done: seq<nat>, v: nat): (u: nat)
    requires exists e :: e in edges && e.1 == v && e.0 !in done
    ensures (u, v) in edges && u !in done
  {
    if edges[0].1 == v && edges[0].0 !in done then edges[0].0
    else UnsortedPredecessor(edges[1..], done, v)
  }

  /** A walk that is extended backwards either closes a cycle or stays a walk of distinct nodes. */
  lemma {:induction false} BackwardStep(g: Graph, p: seq<nat>, u: nat)
    requires InRange(g) && p != [] && NodeList(g, p) && Walk(g, p) && (u, p[0]) in g.edges
    ensures u < g.n
    ensures u in p ==> OnCycle(g, u)
    ensures u !in p ==> NodeList(g, [u] + p) && Walk(g, [u] + p) && |p| < g.n
  {
    var q := [u] + p;
    forall i | 0 <= i < |q| - 1 ensures (q[i], q[i + 1]) in g.edges {
      if i > 0 { assert (p[i - 1], p[i - 1 + 1]) in g.edges; }
    }
    if u in p {
      var c := q[..IndexOf(p, u) + 2];
      forall i | 0 <= i < |c| - 1 ensures (c[i], c[i + 1]) in g.edges {
        assert (q[i], q[i + 1]) in g.edges;
      }
      assert Path(g, c, u, u);
    } else {
      NodeListBound(g, q);
    }
  }

  /** Walking backwards through unsorted nodes must repeat a node, since there are only finitely many. */
  function MeetingPoint(g: Graph, done: seq<nat>, p: seq<nat>): (v: nat)
    requires InRange(g) && Stuck(g, done)
    requires p != [] && NodeList(g, p) && Walk(g, p) && forall x :: x in p ==> x !in done
    ensures OnCycle(g, v) && v < g.n && v !in done
    decreases if |p| <= g.n then g.n - |p| else 0
  {
    assert p[0] in p && !Ready(g, done, p[0]);
    var u := UnsortedPredecessor(g.edges, done, p[0]);
    BackwardStep(g, p, u);
    if u in p then u else MeetingPoint(g, done, [u] + p)
  }

  function FirstUnsorted(g: Graph, done: seq<nat>, from: nat): (v: nat)
    requires NodeList(g, done) && |done| < g.n
    requires from <= g.n && forall u: nat :: u < from ==> u in done
    ensures v < g.n && v !in done
    decreases g.n - from
  {
    assert from < g.n by {
      DistinctCardinality(done);
      if from == g.n { SubsetCardinality(Below(g.n), Elements(done)); }
    }
    if from !in done then from else FirstUnsorted(g, done, from + 1)
  }

  /** A sort that stops early leaves a node that lies on a cycle. */
  function CycleNode(g: Graph, done: seq<nat>): (v: nat)
    requires InRange(g) && PartialOrder(g, done) && Stuck(g, done) && |done| < g.n
    ensures OnCycle(g, v) && v < g.n
  {
    MeetingPoint(g, done, [FirstUnsorted(g, done, 0)])
  }

  lemma {:induction false} CompletePartialOrderIsTopo(g: Graph, order: seq<nat>)
    requires PartialOrder(g, order) && |order| == g.n
    ensures IsTopoOrder(g, order)
  {
    NodeListBound(g, order);
    forall i, j | 0 <= i < |order| && 0 <= j < |order| && (order[i], order[j]) in g.edges ensures i < j {
      assert order[i] in order[..j];
      var k :| 0 <= k < j && order[..j][k] == order[i];
      assert order[k] == order[i];
    }
  }

  /** The sort succeeds exactly on acyclic graphs, and then its order is valid. */
  lemma {:induction false} SortedOrderIsTopo(g: Graph)
    requires InRange(g)
    ensures Acyclic(g) <==> IsTopoOrder(g, SortedOrder(g))
    ensures Acyclic(g) <==> |SortedOrder(g)| == g.n
  {
    var order := SortedOrder(g);
    NodeListBound(g, order);
    if |order| == g.n {
      CompletePartialOrderIsTopo(g, order);
      TopoOrderImpliesAcyclic(g, order);
    } else {
      var v := CycleNode(g, order);
      if IsTopoOrder(g, order) { TopoOrderLength(g, order); }
    }
  }
}
