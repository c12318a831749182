/** Finite directed graphs over the nodes 0..n, their paths, cycles and topological orders. */
module Digraph {
  type Edge = (nat, nat)

  /** The edges are listed in insertion order. */
  datatype Graph = Graph(n: nat, edges: seq<Edge>)

  ghost predicate Distinct<T(!new)>(s: seq<T>) {
    forall i, j :: 0 <= i < j < |s| ==> s[i] != s[j]
  }

  ghost predicate InRange(g: Graph) {
    forall e :: e in g.edges ==> e.0 < g.n && e.1 < g.n
  }

  /** Simple: endpoints are nodes and no edge is repeated. Self-loops are allowed. */
  ghost predicate Simple(g: Graph) {
    InRange(g) && Distinct(g.edges)
  }

  ghost predicate Walk(g: Graph, p: seq<nat>) {
    forall i :: 0 <= i < |p| - 1 ==> (p[i], p[i + 1]) in g.edges
  }

  /** A path has at least one edge, so a self-loop is a path from its node to itself. */
  ghost predicate Path(g: Graph, p: seq<nat>, u: nat, v: nat) {
    |p| >= 2 && p[0] == u && p[|p| - 1] == v && Walk(g, p)
  }

  ghost predicate Reaches(g: Graph, u: nat, v: nat) {
    exists p :: Path(g, p, u, v)
  }

  ghost predicate OnCycle(g: Graph, v: nat) {
    Reaches(g, v, v)
  }

  ghost predicate Acyclic(g: Graph) {
    forall v: nat :: !OnCycle(g, v)
  }

  /** A list of nodes without repeats. */
  ghost predicate NodeList(g: Graph, s: seq<nat>) {
    Distinct(s) && forall v :: v in s ==> v < g.n
  }

  ghost predicate Forward(g: Graph, s: seq<nat>) {
    forall i, j :: 0 <= i < |s| && 0 <= j < |s| && (s[i], s[j]) in g.edges ==> i < j
  }

  /** Every node once, and every edge points forward. */
  ghost predicate IsTopoOrder(g: Graph, order: seq<nat>) {
    && NodeList(g, order)
    && (forall v: nat :: v < g.n ==> v in order)
    && Forward(g, order)
  }

  // ---------- counting ----------

  ghost function Elements<T(!new)>(s: seq<T>): set<T> {
    set x | x in s
  }

  lemma {:induction false} DistinctCardinality<T(!new)>(s: seq<T>)
    requires Distinct(s)
    ensures |Elements(s)| == |s|
  {
    if s == [] {
    } else {
      var t, x := s[..|s| - 1], s[|s| - 1];
      DistinctCardinality(t);
      assert s == t + [x] && x !in t;
      OneMoreElement(t, x);
    }
  }

  lemma {:induction false} ElementsBound<T(!new)>(s: seq<T>)
    ensures |Elements(s)| <= |s|
  {
    if s == [] {
    } else {
      var t, x := s[..|s| - 1], s[|s| - 1];
      ElementsBound(t);
      assert s == t + [x];
      assert Elements(s) == Elements(t) + {x};
    }
  }

  lemma {:induction false} OneMoreElement<T(!new)>(t: seq<T>, x: T)
    requires x !in t
    ensures |Elements(t + [x])| == |Elements(t)| + 1
  {
    assert Elements(t + [x]) == Elements(t) + {x};
  }

  ghost function Below(n: nat): (s: set<nat>)
    ensures forall v: nat :: v in s <==> v < n
    ensures |s| == n
  {
    if n == 0 then {} else Below(n - 1) + {n - 1}
  }

  lemma {:induction false} SubsetCardinality<T(!new)>(a: set<T>, b: set<T>)
    requires a <= b
    ensures |a| <= |b|
    ensures |a| == |b| ==> a == b
  {
    assert b == a + (b - a);
  }

  /** Pigeonhole: a list of distinct nodes is no longer than the graph is large. */
  lemma {:induction false} NodeListBound(g: Graph, s: seq<nat>)
    requires NodeList(g, s)
    ensures |s| <= g.n
    ensures |s| == g.n ==> forall v: nat :: v < g.n ==> v in s
  {
    DistinctCardinality(s);
    SubsetCardinality(Elements(s), Below(g.n));
    if |s| == g.n {
      forall v: nat | v < g.n ensures v in s {
        assert v in Elements(s);
      }
    }
  }

  lemma {:induction false} TopoOrderLength(g: Graph, order: seq<nat>)
    requires IsTopoOrder(g, order)
    ensures |order| == g.n
  {
    DistinctCardinality(order);
    assert Elements(order) == Below(g.n);
  }

  // ---------- paths ----------

  lemma {:induction false} EdgeReaches(g: Graph, u: nat, v: nat)
    requires (u, v) in g.edges
    ensures Reaches(g, u, v)
  {
    assert Path(g, [u, v], u, v);
  }

  lemma {:induction false} ReachesTransitive(g: Graph, u: nat, v: nat, w: nat)
    requires Reaches(g, u, v) && Reaches(g, v, w)
    ensures Reaches(g, u, w)
  {
    var p :| Path(g, p, u, v);
    var q :| Path(g, q, v, w);
    var r := p + q[1..];
    forall i | 0 <= i < |r| - 1 ensures (r[i], r[i + 1]) in g.edges {
      if i < |p| - 1 {
        assert r[i] == p[i] && r[i + 1] == p[i + 1];
      } else {
        var k := i - (|p| - 1);
        assert r[i] == q[k] && r[i + 1] == q[k + 1];
      }
    }
    assert Path(g, r, u, w);
  }

  lemma {:induction false} ReachesInRange(g: Graph, u: nat, v: nat)
    requires InRange(g) && Reaches(g, u, v)
    ensures u < g.n && v < g.n
  {
    var p :| Path(g, p, u, v);
    assert (p[0], p[1]) in g.edges;
    assert (p[|p| - 2], p[|p| - 2 + 1]) in g.edges;
  }

  // ---------- orders ----------

  /** Along a path positions in a topological order strictly increase. */
  lemma {:induction false} PathGoesForward(g: Graph, order: seq<nat>, p: seq<nat>, i: nat, j: nat)
    requires InRange(g) && IsTopoOrder(g, order)
    requires i < |order| && j < |order| && Path(g, p, order[i], order[j])
    ensures i < j
    decreases |p|
  {
    assert (p[0], p[1]) in g.edges;
    var k := IndexOf(order, p[1]);
    if |p| > 2 {
      var q := p[1..];
      forall m | 0 <= m < |q| - 1 ensures (q[m], q[m + 1]) in g.edges {
        assert (p[m + 1], p[m + 1 + 1]) in g.edges;
      }
      PathGoesForward(g, order, q, k, j);
    } else {
      assert order[k] == order[j];
    }
  }

  lemma {:induction false} ReachesGoesForward(g: Graph, order: seq<nat>, i: nat, j: nat)
    requires InRange(g) && IsTopoOrder(g, order)
    requires i < |order| && j < |order| && Reaches(g, order[i], order[j])
    ensures i < j
  {
    var p :| Path(g, p, order[i], order[j]);
    PathGoesForward(g, order, p, i, j);
  }

  /** A graph with a topological order has no cycle. */
  lemma {:induction false} TopoOrderImpliesAcyclic(g: Graph, order: seq<nat>)
    requires InRange(g) && IsTopoOrder(g, order)
    ensures Acyclic(g)
  {
    forall v: nat | OnCycle(g, v) ensures false {
      ReachesInRange(g, v, v);
      var i := IndexOf(order, v);
      ReachesGoesForward(g, order, i, i);
    }
  }

  /**
   * If consecutive nodes of a topological order are joined by edges, no other order is valid,
   * whatever the tie-break of the sort.
   */
  lemma {:induction false} ChainOrderIsUnique(g: Graph, order: seq<nat>, other: seq<nat>)
    requires InRange(g) && IsTopoOrder(g, order) && IsTopoOrder(g, other)
    requires Walk(g, order)
    ensures order == other
  {
    TopoOrderLength(g, order);
    TopoOrderLength(g, other);
    forall k | 0 <= k < |order| ensures order[k] == other[k] {
      ChainPosition(g, order, other, k);
    }
  }

  /** The k-th node of a chain sits at position k of every valid order. */
  lemma {:induction false} ChainPosition(g: Graph, order: seq<nat>, other: seq<nat>, k: nat)
    requires InRange(g) && IsTopoOrder(g, order) && IsTopoOrder(g, other) && Walk(g, order)
    requires |order| == |other| && k < |order|
    ensures order[k] == other[k]
  {
    forall i | 0 <= i < |order| ensures order[i] in other {
      assert order[i] in order;
    }
    var at := seq(|order|, i requires 0 <= i < |order| => IndexOf(other, order[i]));
    forall i | 0 <= i < |at| - 1 ensures at[i] < at[i + 1] {
      assert (order[i], order[i + 1]) in g.edges;
      assert other[at[i]] == order[i] && other[at[i + 1]] == order[i + 1];
    }
    IncreasingIsIdentity(at, k);
  }

  ghost function IndexOf<T(!new)>(s: seq<T>, x: T): (i: nat)
    requires x in s
    ensures i < |s| && s[i] == x
  {
    var i :| 0 <= i < |s| && s[i] == x;
    i
  }

  lemma {:induction false} IncreasingIsIdentity(at: seq<nat>, k: nat)
    requires k < |at|
    requires forall i :: 0 <= i < |at| ==> at[i] < |at|
    requires forall i :: 0 <= i < |at| - 1 ==> at[i] < at[i + 1]
    ensures at[k] == k
  {
    var i := 0;
    while i < k
      invariant i <= k && i <= at[i]
    {
      i := i + 1;
    }
    var j := |at| - 1;
    while j > k
      invariant k <= j < |at| && at[j] <= j
    {
      assert at[j - 1] < at[j - 1 + 1];
      j := j - 1;
    }
  }

  // ---------- number of edges ----------

  ghost function Column(k: nat, j: nat): (s: set<(nat, nat)>)
    ensures forall p: (nat, nat) :: p in s <==> p.0 < k && p.1 == j
    ensures |s| == k
  {
    if k == 0 then {} else Column(k - 1, j) + {(k - 1, j)}
  }

  /** All pairs of positions i < j below n. */
  ghost function PositionPairs(n: nat): (s: set<(nat, nat)>)
    ensures forall p: (nat, nat) :: p in s <==> p.0 < p.1 < n
    ensures |s| * 2 == n * (n - 1)
  {
    if n == 0 then {} else
      assert PositionPairs(n - 1) !! Column(n - 1, n - 1);
      PositionPairs(n - 1) + Column(n - 1, n - 1)
  }

  ghost function EdgePosition(g: Graph, order: seq<nat>, e: Edge): (p: (nat, nat))
    requires InRange(g) && IsTopoOrder(g, order) && e in g.edges
    ensures p.0 < p.1 < g.n == |order| && e == (order[p.0], order[p.1])
  {
    TopoOrderLength(g, order);
    (IndexOf(order, e.0), IndexOf(order, e.1))
  }

  /** A simple acyclic graph on n nodes has at most n(n-1)/2 edges. */
  lemma {:induction false} EdgeBound(g: Graph, order: seq<nat>)
    requires Simple(g) && IsTopoOrder(g, order)
    ensures |g.edges| * 2 <= g.n * (g.n - 1)
  {
    var pos := seq(|g.edges|, k requires 0 <= k < |g.edges| =>
      assert g.edges[k] in g.edges; EdgePosition(g, order, g.edges[k]));
    forall k, m | 0 <= k < m < |pos| ensures pos[k] != pos[m] {
      assert g.edges[k] != g.edges[m];
    }
    assert forall p :: p in pos ==> p.0 < p.1 < g.n;
    PairBound(pos, g.n);
  }

  lemma {:induction false} PairBound(pos: seq<(nat, nat)>, n: nat)
    requires Distinct(pos) && forall p :: p in pos ==> p.0 < p.1 < n
    ensures |pos| * 2 <= n * (n - 1)
  {
    DistinctCardinality(pos);
    SubsetCardinality(Elements(pos), PositionPairs(n));
  }

  /** The pairs of consecutive nodes of an order. */
  ghost function Steps(order: seq<nat>): (steps: seq<Edge>)
    requires |order| > 0
    ensures |steps| == |order| - 1
  {
    seq(|order| - 1, i requires 0 <= i < |order| - 1 => (order[i], order[i + 1]))
  }

  /** A pure chain, whose edges are just those between consecutive nodes of its order, has n-1 edges. */
  lemma {:induction false} ChainEdgeCount(g: Graph, order: seq<nat>)
    requires Simple(g) && IsTopoOrder(g, order) && |order| > 0
    requires forall e :: e in g.edges <==> e in Steps(order)
    ensures |g.edges| == g.n - 1
  {
    TopoOrderLength(g, order);
    StepsAreDistinct(order);
    SameLength(Steps(order), g.edges);
  }

  lemma {:induction false} StepsAreDistinct(order: seq<nat>)
    requires Distinct(order) && |order| > 0
    ensures Distinct(Steps(order))
  {
    forall i, k | 0 <= i < k < |order| - 1 ensures Steps(order)[i] != Steps(order)[k] {
      assert order[i] != order[k];
    }
  }

  lemma {:induction false} SameLength<T(!new)>(a: seq<T>, b: seq<T>)
    requires Distinct(a) && Distinct(b) && forall x :: x in b <==> x in a
    ensures |a| == |b|
  {
    DistinctCardinality(a);
    DistinctCardinality(b);
    assert Elements(a) == Elements(b);
  }
}
