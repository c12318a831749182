/**
 * What a run leaves in the store: agreement of the rows with the report on a fresh run id, and
 * convergence when crashed attempts come before the run that completes.
 */
module Recovery {
  import opened Wrappers
  import opened Digraph
  import opened Values
  import opened Tasks
  import opened Lineage
  import opened RunPlan
  import opened LocalRunner
  import opened Schedule
  import opened Duplicates

  // ---------- what intents touch ----------

  /** The task ids and edges that intents write. */
  ghost predicate Touches(intents: seq<Intent>, ids: set<string>, pairs: set<(string, string)>) {
    forall i :: i in intents ==> match i
      case Mark(task, _, _) => task in ids
      case Link(up, down) => (up, down) in pairs
  }

  lemma {:induction false} TouchedOnly(intents: seq<Intent>, ids: set<string>, pairs: set<(string, string)>)
    requires Touches(intents, ids, pairs)
    ensures Play(EMPTY_VIEW, intents).rows.Keys <= ids && Play(EMPTY_VIEW, intents).edges <= pairs
  {
    if intents == [] {
    } else {
      var n := |intents| - 1;
      assert forall i :: i in intents[..n] ==> i in intents;
      TouchedOnly(intents[..n], ids, pairs);
      assert intents[n] in intents;
    }
  }

  lemma {:induction false} LinksPlay(v: RunView, pairs: seq<(string, string)>)
    ensures Play(v, Links(pairs)) == RunView(v.rows, v.edges + Elements(pairs))
  {
    if pairs == [] {
      assert v.edges + Elements(pairs) == v.edges;
    } else {
      var n := |pairs| - 1;
      LinksPlay(v, pairs[..n]);
      assert Links(pairs)[..n] == Links(pairs[..n]);
      assert Elements(pairs) == Elements(pairs[..n]) + {pairs[n]};
      assert (pairs[n].0, pairs[n].1) == pairs[n];
    }
  }

  // ---------- agreement of the store with the report ----------

  lemma {:induction false} ChunkTouches(p: Progress, t: Task, ids: set<string>)
    requires t.id in ids
    ensures Touches(Chunk(p, t), ids, {})
  {
  }

  lemma {:induction false} TouchesConcat(a: seq<Intent>, b: seq<Intent>, few: set<string>, ids: set<string>,
                                        pairs: set<(string, string)>)
    requires Touches(a, few, pairs) && few <= ids && Touches(b, ids, pairs)
    ensures Touches(a + b, ids, pairs)
  {
    assert forall i :: i in a + b ==> i in a || i in b;
  }

  lemma {:induction false} ScriptTouches(ts: seq<Task>)
    ensures Touches(Script(ts), Elements(TaskIdsOf(ts)), {})
  {
    if |ts| == 0 {
    } else {
      var before, t := ts[..|ts| - 1], ts[|ts| - 1];
      var few, ids := Elements(TaskIdsOf(before)), Elements(TaskIdsOf(ts));
      ScriptTouches(before);
      assert TaskIdsOf(ts) == TaskIdsOf(before) + [t.id];
      ChunkTouches(RunOver(before), t, ids);
      TouchesConcat(Script(before), Chunk(RunOver(before), t), few, ids, {});
    }
  }

  /**
   * A completed run on any view overwrites all its tasks' rows and adds all its edges. If ids repeat
   * the rows are those of the last states.
   */
  lemma {:induction false} AnyRunView(v: RunView, pairs: seq<(string, string)>, ts: seq<Task>)
    ensures Play(v, Links(pairs) + Script(ts)) == Merge(v, RunView(RowsByState(RunOver(ts)), Elements(pairs)))
  {
    PlayAppend(v, Links(pairs), Script(ts));
    LinksPlay(v, pairs);
    PlayIsOverlay(Play(v, Links(pairs)), Script(ts));
    RowsWithoutIdCheck(ts);
  }

  /** With distinct ids the rows are those of the report. */
  lemma {:induction false} CompletedRunView(v: RunView, pairs: seq<(string, string)>, ts: seq<Task>)
    requires Distinct(TaskIdsOf(ts))
    ensures Play(v, Links(pairs) + Script(ts)) == Merge(v, RunView(RowsOf(RunOver(ts)), Elements(pairs)))
  {
    PlayAppend(v, Links(pairs), Script(ts));
    LinksPlay(v, pairs);
    PlayIsOverlay(Play(v, Links(pairs)), Script(ts));
    ScriptWritesReport(ts);
  }

  /** The rows are exactly the report's states and outputs, and only skipped tasks have no output. */
  ghost predicate RowsSay(rows: map<string, Cell>, report: RunReport) {
    && (forall id :: id in rows <==> id in report.taskStates)
    && (forall id :: id in rows ==> rows[id].state == report.taskStates[id])
    && (forall id :: id in rows ==>
          rows[id].output == if id in report.taskOutputs then Some(report.taskOutputs[id]) else None)
    && (forall id :: id in rows ==> (rows[id].state == Skipped <==> rows[id].output == None))
  }

  lemma {:induction false} ReportRows(run: string, ts: seq<Task>)
    requires Distinct(TaskIdsOf(ts))
    ensures RowsSay(RowsOf(RunOver(ts)), Report(run, RunOver(ts)))
  {
    RunIds(ts);
    var rows := RowsOf(RunOver(ts));
    forall id | id in rows ensures rows[id].state == Skipped <==> rows[id].output == None {
      FailFast(ts, IndexOf(TaskIdsOf(ts), id));
    }
  }

  /**
   * After a completed run on a fresh run id, the run's rows are exactly the report's states and
   * outputs, and its edge rows are exactly the images of the graph's edges.
   */
  lemma {:induction false} StoreAgreesWithReport(tb: Tables, run: string, pairs: seq<(string, string)>, ts: seq<Task>,
                                                 ws: seq<Write>)
    requires Distinct(TaskIdsOf(ts)) && View(tb, run) == EMPTY_VIEW
    requires Follows(run, Links(pairs) + Script(ts), ws)
    ensures RowsSay(View(Replay(tb, ws), run).rows, Report(run, RunOver(ts)))
    ensures View(Replay(tb, ws), run).edges == Elements(pairs)
    ensures forall other :: other != run ==> SameRun(tb, Replay(tb, ws), other)
  {
    forall other | other != run ensures SameRun(tb, Replay(tb, ws), other) {
      ReplaySparesOtherRuns(tb, run, Links(pairs) + Script(ts), ws, other);
    }
    FreshRunView(tb, run, pairs, ts, ws);
    ReportRows(run, ts);
  }

  lemma {:induction false} FreshRunView(tb: Tables, run: string, pairs: seq<(string, string)>, ts: seq<Task>,
                                        ws: seq<Write>)
    requires Distinct(TaskIdsOf(ts)) && View(tb, run) == EMPTY_VIEW
    requires Follows(run, Links(pairs) + Script(ts), ws)
    ensures View(Replay(tb, ws), run) == RunView(RowsOf(RunOver(ts)), Elements(pairs))
  {
    ReplayActsOnView(tb, run, Links(pairs) + Script(ts), ws);
    CompletedRunView(EMPTY_VIEW, pairs, ts);
  }

  /** A failed task's row holds its message, so that it can be read back. */
  lemma {:induction false} StoredFailure(tb: Tables, run: string, pairs: seq<(string, string)>, ts: seq<Task>,
                                         ws: seq<Write>, i: nat, message: string)
    requires Distinct(TaskIdsOf(ts)) && View(tb, run) == EMPTY_VIEW && Follows(run, Links(pairs) + Script(ts), ws)
    requires i < |ts| && !RunOver(ts[..i]).failed
    requires ts[i].body(RunOver(ts[..i]).bag).result == Failure(message)
    ensures var rows := View(Replay(tb, ws), run).rows;
            && ts[i].id in rows
            && rows[ts[i].id] == Cell(Failed, Some(Object(map["error" := Str(message)])))
  {
    StoreAgreesWithReport(tb, run, pairs, ts, ws);
    ReportedFailure(ts, i, message);
    OutcomeOfTask(ts, i);
  }

  /** Different tasks have different ids, so different edges leave different rows. */
  lemma {:induction false} EdgeRowsAreEdges(nodes: seq<Task>, g: Graph)
    requires Simple(g) && |nodes| == g.n && Distinct(TaskIdsOf(nodes))
    ensures |Elements(IdPairs(nodes, g.edges))| == |g.edges|
    ensures forall u, v :: 0 <= u < g.n && 0 <= v < g.n ==>
      ((u, v) in g.edges <==> (nodes[u].id, nodes[v].id) in IdPairs(nodes, g.edges))
  {
    var pairs, ids := IdPairs(nodes, g.edges), TaskIdsOf(nodes);
    assert forall k :: 0 <= k < |g.edges| ==> g.edges[k] in g.edges;
    forall u, v, k | 0 <= u < g.n && 0 <= v < g.n && 0 <= k < |pairs| && pairs[k] == (nodes[u].id, nodes[v].id)
      ensures g.edges[k] == (u, v)
    {
      assert ids[g.edges[k].0] == ids[u] && ids[g.edges[k].1] == ids[v];
    }
    forall i, k | 0 <= i < k < |pairs| ensures pairs[i] != pairs[k] {
      var e := g.edges[i];
      assert pairs[i] == (nodes[e.0].id, nodes[e.1].id);
    }
    DistinctCardinality(pairs);
    forall u, v | 0 <= u < g.n && 0 <= v < g.n && (u, v) in g.edges
      ensures (nodes[u].id, nodes[v].id) in pairs
    {
      var k := IndexOf(g.edges, (u, v));
      assert pairs[k] == (nodes[u].id, nodes[v].id);
    }
  }

  /** On a fresh run id the run's edge rows are those of its pairs, whether or not ids repeat. */
  lemma {:induction false} StoredEdges(tb: Tables, run: string, pairs: seq<(string, string)>, ts: seq<Task>,
                                       ws: seq<Write>)
    requires View(tb, run) == EMPTY_VIEW && Follows(run, Links(pairs) + Script(ts), ws)
    ensures View(Replay(tb, ws), run).edges == Elements(pairs)
  {
    ReplayActsOnView(tb, run, Links(pairs) + Script(ts), ws);
    AnyRunView(EMPTY_VIEW, pairs, ts);
    assert EMPTY_VIEW.edges + Elements(pairs) == Elements(pairs);
  }

  /** The store counts at most n(n-1)/2 edges for the run, whether or not ids repeat. */
  lemma {:induction false} EdgeCountBound(tb: Tables, run: string, g: Graph, nodes: seq<Task>, order: seq<nat>,
                                          ws: seq<Write>)
    requires Simple(g) && Arranged(g, nodes, order) && View(tb, run) == EMPTY_VIEW
    requires Follows(run, Plan(nodes, g.edges, order), ws)
    ensures |EdgeKeys(Replay(tb, ws), Some(run))| * 2 <= g.n * (g.n - 1)
  {
    StoredEdges(tb, run, IdPairs(nodes, g.edges), InOrder(nodes, order), ws);
    EdgeCountIsViewSize(Replay(tb, ws), run);
    ElementsBound(IdPairs(nodes, g.edges));
    EdgeBound(g, order);
  }

  /** With distinct ids the store counts as many edges for the run as the graph has, at most n(n-1)/2. */
  lemma {:induction false} EdgeCountAgrees(tb: Tables, run: string, g: Graph, nodes: seq<Task>, order: seq<nat>,
                                           ws: seq<Write>)
    requires Simple(g) && Scheduled(g, nodes, order) && View(tb, run) == EMPTY_VIEW
    requires Follows(run, Plan(nodes, g.edges, order), ws)
    ensures |EdgeKeys(Replay(tb, ws), Some(run))| == |g.edges|
    ensures |EdgeKeys(Replay(tb, ws), Some(run))| * 2 <= g.n * (g.n - 1)
  {
    StoredEdges(tb, run, IdPairs(nodes, g.edges), InOrder(nodes, order), ws);
    EdgeRowsAreEdges(nodes, g);
    EdgeCountIsViewSize(Replay(tb, ws), run);
    EdgeCountBound(tb, run, g, nodes, order, ws);
  }

  /** A run of a pure chain of n tasks records n-1 edges. */
  lemma {:induction false} ChainRunRecords(tb: Tables, run: string, g: Graph, nodes: seq<Task>, order: seq<nat>,
                                           ws: seq<Write>)
    requires Simple(g) && Scheduled(g, nodes, order) && View(tb, run) == EMPTY_VIEW
    requires |order| > 0 && forall e :: e in g.edges <==> e in Steps(order)
    requires Follows(run, Plan(nodes, g.edges, order), ws)
    ensures |EdgeKeys(Replay(tb, ws), Some(run))| == g.n - 1
  {
    EdgeCountAgrees(tb, run, g, nodes, order, ws);
    ChainEdgeCount(g, order);
  }

  // ---------- every intermediate state ----------

  lemma {:induction false} MomentOfRun(pairs: seq<(string, string)>, ts: seq<Task>, k: nat)
    requires |pairs| <= k <= |pairs| + |Script(ts)|
    ensures Play(EMPTY_VIEW, (Links(pairs) + Script(ts))[..k]) ==
            RunView(RowsAfter(ts, k - |pairs|), Elements(pairs))
  {
    var part := Script(ts)[..k - |pairs|];
    assert (Links(pairs) + Script(ts))[..k] == Links(pairs) + part;
    PlayAppend(EMPTY_VIEW, Links(pairs), part);
    LinksPlay(EMPTY_VIEW, pairs);
    PlayIsOverlay(RunView(map[], Elements(pairs)), part);
    ScriptLinksNothing(ts, k - |pairs|);
    var w := Play(EMPTY_VIEW, part);
    assert EMPTY_VIEW.edges + Elements(pairs) == Elements(pairs);
    assert map[] + w.rows == w.rows && Elements(pairs) + w.edges == Elements(pairs);
  }

  lemma {:induction false} ScriptLinksNothing(ts: seq<Task>, k: nat)
    requires k <= |Script(ts)|
    ensures Play(EMPTY_VIEW, Script(ts)[..k]).edges == {}
  {
    ScriptTouches(ts);
    assert forall i :: i in Script(ts)[..k] ==> i in Script(ts);
    TouchedOnly(Script(ts)[..k], Elements(TaskIdsOf(ts)), {});
  }

  /** The first i tasks have their final, terminal rows; the next has none or is Running; the others have none. */
  ghost predicate Snapshot(rows: map<string, Cell>, final: map<string, Cell>, ts: seq<Task>, i: nat) {
    && i <= |ts|
    && forall j :: 0 <= j < |ts| ==> var id := ts[j].id;
         && (j < i ==> id in rows && id in final && rows[id] == final[id] && Terminal(rows[id].state))
         && (j == i ==> id in rows ==> rows[id] == Cell(Running, None))
         && (j > i ==> id !in rows)
  }

  lemma {:induction false} EverySnapshot(ts: seq<Task>, k: nat) returns (i: nat)
    requires Distinct(TaskIdsOf(ts)) && k <= |Script(ts)|
    ensures Snapshot(RowsAfter(ts, k), RowsOf(RunOver(ts)), ts, i)
  {
    EveryMoment(ts, k);
    i :| Moment(ts, i, k);
    forall j: nat | j < |ts| { MomentStates(ts, i, k, j); }
  }

  /** On a fresh run id, at every moment after the edges: all edges are stored, and the rows are a snapshot. */
  lemma {:induction false} StepInvariant(tb: Tables, run: string, pairs: seq<(string, string)>, ts: seq<Task>,
                                        ws: seq<Write>)
    returns (i: nat)
    requires Distinct(TaskIdsOf(ts)) && View(tb, run) == EMPTY_VIEW
    requires |pairs| <= |ws| <= |pairs| + |Script(ts)|
    requires Follows(run, (Links(pairs) + Script(ts))[..|ws|], ws)
    ensures View(Replay(tb, ws), run).edges == Elements(pairs)
    ensures Snapshot(View(Replay(tb, ws), run).rows, RowsOf(RunOver(ts)), ts, i)
  {
    var k := |ws| - |pairs|;
    assert View(Replay(tb, ws), run) == RunView(RowsAfter(ts, k), Elements(pairs)) by {
      ReplayActsOnView(tb, run, (Links(pairs) + Script(ts))[..|ws|], ws);
      MomentOfRun(pairs, ts, |ws|);
    }
    i := EverySnapshot(ts, k);
  }

  // ---------- crash and rerun ----------

  /** What one attempt intended and wrote before it stopped, under its own clock. */
  datatype Attempt = Attempt(written: seq<Intent>, writes: seq<Write>)

  /** The attempt wrote no other rows and edges than these; in what order, and how often, is free. */
  ghost predicate CrashedAttempt(a: Attempt, run: string, ids: set<string>, pairs: set<(string, string)>) {
    Follows(run, a.written, a.writes) && Touches(a.written, ids, pairs)
  }

  /** The plan writes all of these rows and edges. */
  ghost predicate Covers(plan: seq<Intent>, ids: set<string>, pairs: set<(string, string)>) {
    ids <= Play(EMPTY_VIEW, plan).rows.Keys && pairs <= Play(EMPTY_VIEW, plan).edges
  }

  function AllWrites(attempts: seq<Attempt>): seq<Write> {
    if attempts == [] then [] else AllWrites(attempts[..|attempts| - 1]) + attempts[|attempts| - 1].writes
  }

  /** A view changed by rows and edges of these ids and pairs only. */
  ghost predicate Overlaid(before: RunView, after: RunView, ids: set<string>, pairs: set<(string, string)>) {
    exists v: RunView :: OverlaidBy(before, after, v, ids, pairs)
  }

  ghost predicate OverlaidBy(before: RunView, after: RunView, v: RunView, ids: set<string>,
                             pairs: set<(string, string)>) {
    after == Merge(before, v) && v.rows.Keys <= ids && v.edges <= pairs
  }

  lemma {:induction false} OverlaidTwice(a: RunView, b: RunView, c: RunView, ids: set<string>,
                                         pairs: set<(string, string)>)
    requires Overlaid(a, b, ids, pairs) && Overlaid(b, c, ids, pairs)
    ensures Overlaid(a, c, ids, pairs)
  {
    var v: RunView :| OverlaidBy(a, b, v, ids, pairs);
    var w: RunView :| OverlaidBy(b, c, w, ids, pairs);
    MergeAssociative(a, v, w);
    assert OverlaidBy(a, c, Merge(v, w), ids, pairs);
  }

  lemma {:induction false} MergeAssociative(a: RunView, b: RunView, c: RunView)
    ensures Merge(Merge(a, b), c) == Merge(a, Merge(b, c))
  {
    assert (a.rows + b.rows) + c.rows == a.rows + (b.rows + c.rows);
    assert (a.edges + b.edges) + c.edges == a.edges + (b.edges + c.edges);
  }

  lemma {:induction false} NothingOverlaid(v: RunView, ids: set<string>, pairs: set<(string, string)>)
    ensures Overlaid(v, v, ids, pairs)
  {
    assert OverlaidBy(v, v, EMPTY_VIEW, ids, pairs);
  }

  lemma {:induction false} OneAttemptOverlays(tb: Tables, a: Attempt, run: string, ids: set<string>,
                                              pairs: set<(string, string)>)
    requires CrashedAttempt(a, run, ids, pairs)
    ensures Overlaid(View(tb, run), View(Replay(tb, a.writes), run), ids, pairs)
    ensures forall other :: other != run ==> SameRun(tb, Replay(tb, a.writes), other)
  {
    TouchedOnly(a.written, ids, pairs);
    ReplayActsOnView(tb, run, a.written, a.writes);
    PlayIsOverlay(View(tb, run), a.written);
    assert OverlaidBy(View(tb, run), View(Replay(tb, a.writes), run), Play(EMPTY_VIEW, a.written), ids, pairs);
    forall other | other != run ensures SameRun(tb, Replay(tb, a.writes), other) {
      ReplaySparesOtherRuns(tb, run, a.written, a.writes, other);
    }
  }

  /** However many attempts crashed, they only overlaid rows and edges of the run's ids and pairs. */
  lemma {:induction false} CrashedAttemptsOverlay(tb: Tables, attempts: seq<Attempt>, run: string, ids: set<string>,
                                                  pairs: set<(string, string)>)
    requires forall a :: a in attempts ==> CrashedAttempt(a, run, ids, pairs)
    ensures Overlaid(View(tb, run), View(Replay(tb, AllWrites(attempts)), run), ids, pairs)
    ensures forall other :: other != run ==> SameRun(tb, Replay(tb, AllWrites(attempts)), other)
  {
    if attempts == [] {
      NothingOverlaid(View(tb, run), ids, pairs);
    } else {
      var n := |attempts| - 1;
      var before, last := AllWrites(attempts[..n]), attempts[n];
      var mid, end := Replay(tb, before), Replay(tb, AllWrites(attempts));
      CrashedAttemptsOverlay(tb, attempts[..n], run, ids, pairs);
      assert last in attempts;
      OneAttemptOverlays(mid, last, run, ids, pairs);
      assert end == Replay(mid, last.writes) by { ReplayAppend(tb, before, last.writes); }
      OverlaidTwice(View(tb, run), View(mid, run), View(end, run), ids, pairs);
      forall other | other != run ensures SameRun(tb, end, other) { SameRunTransitive(tb, mid, end, other); }
    }
  }

  /**
   * Crash and rerun: any number of attempts under the same run id, of whatever runner, each stopped
   * at any write, then a run that completes a plan with all their rows and edges. The run's states,
   * outputs and edges are those of the completed run alone, and no other run is affected.
   */
  lemma {:induction false} CrashAndRerunConverge(tb: Tables, attempts: seq<Attempt>, run: string, ids: set<string>,
                                                 pairs: set<(string, string)>, plan: seq<Intent>,
                                                 rerun: seq<Write>, alone: seq<Write>)
    requires forall a :: a in attempts ==> CrashedAttempt(a, run, ids, pairs)
    requires Covers(plan, ids, pairs) && Follows(run, plan, rerun) && Follows(run, plan, alone)
    ensures View(Replay(tb, AllWrites(attempts) + rerun), run) == View(Replay(tb, alone), run)
    ensures forall other :: other != run ==> SameRun(tb, Replay(tb, AllWrites(attempts) + rerun), other)
  {
    var crashed := Replay(tb, AllWrites(attempts));
    ReplayAppend(tb, AllWrites(attempts), rerun);
    CrashedAttemptsOverlay(tb, attempts, run, ids, pairs);
    ReplayActsOnView(crashed, run, plan, rerun);
    ReplayActsOnView(tb, run, plan, alone);
    PlanAbsorbs(View(tb, run), View(crashed, run), ids, pairs, plan);
    forall other | other != run ensures SameRun(tb, Replay(crashed, rerun), other) {
      ReplaySparesOtherRuns(crashed, run, plan, rerun, other);
      SameRunTransitive(tb, crashed, Replay(crashed, rerun), other);
    }
  }

  /** A plan rewrites everything that was overlaid within what it covers. */
  lemma {:induction false} PlanAbsorbs(before: RunView, crashed: RunView, ids: set<string>,
                                       pairs: set<(string, string)>, plan: seq<Intent>)
    requires Overlaid(before, crashed, ids, pairs) && Covers(plan, ids, pairs)
    ensures Play(crashed, plan) == Play(before, plan)
  {
    var v: RunView :| OverlaidBy(before, crashed, v, ids, pairs);
    PlayIsOverlay(crashed, plan);
    PlayIsOverlay(before, plan);
    OverwrittenAnyway(before, v, Play(EMPTY_VIEW, plan));
  }

  lemma {:induction false} OverwrittenAnyway(before: RunView, v: RunView, last: RunView)
    requires v.rows.Keys <= last.rows.Keys && v.edges <= last.edges
    ensures Merge(Merge(before, v), last) == Merge(before, last)
  {
    assert (before.rows + v.rows) + last.rows == before.rows + last.rows;
    assert (before.edges + v.edges) + last.edges == before.edges + last.edges;
  }

  // ---------- attempts and reruns of the in-process runner ----------

  /** A run of the in-process runner on these ids and edges that stopped between two writes, or completed. */
  ghost predicate LocalAttempt(a: Attempt, run: string, ids: set<string>, pairs: seq<(string, string)>) {
    Follows(run, a.written, a.writes)
      && exists ts :: Elements(TaskIdsOf(ts)) == ids && a.written <= Links(pairs) + Script(ts)
  }

  lemma {:induction false} LocalAttemptIsCrashed(a: Attempt, run: string, ids: set<string>,
                                                 pairs: seq<(string, string)>)
    requires LocalAttempt(a, run, ids, pairs)
    ensures CrashedAttempt(a, run, ids, Elements(pairs))
  {
    var ts :| Elements(TaskIdsOf(ts)) == ids && a.written <= Links(pairs) + Script(ts);
    ScriptTouches(ts);
    LinksTouch(pairs, ids);
    PrefixTouches(a.written, Links(pairs), Script(ts), ids, Elements(pairs));
  }

  lemma {:induction false} LinksTouch(pairs: seq<(string, string)>, ids: set<string>)
    ensures Touches(Links(pairs), ids, Elements(pairs))
  {
    forall i | i in Links(pairs) ensures i.Link? && (i.upstream, i.downstream) in Elements(pairs) {
      var k :| 0 <= k < |pairs| && Links(pairs)[k] == i;
      assert pairs[k] == (i.upstream, i.downstream);
    }
  }

  lemma {:induction false} PrefixTouches(part: seq<Intent>, a: seq<Intent>, b: seq<Intent>, ids: set<string>,
                                         pairs: set<(string, string)>)
    requires part <= a + b && Touches(a, ids, pairs) && Touches(b, ids, {})
    ensures Touches(part, ids, pairs)
  {
    forall i | i in part ensures i in a || i in b {
      assert i in a + b;
    }
  }

  /** A completed in-process run covers all its tasks and edges, whether or not ids repeat. */
  lemma {:induction false} LocalPlanCovers(pairs: seq<(string, string)>, ts: seq<Task>)
    ensures Covers(Links(pairs) + Script(ts), Elements(TaskIdsOf(ts)), Elements(pairs))
  {
    AnyRunView(EMPTY_VIEW, pairs, ts);
    RunIds(ts);
  }

  /** What `LocalRunner.Run` has written when it stops is an attempt in this sense. */
  lemma {:induction false} StoppedRunIsAttempt(run: string, a: Attempt, g: Graph, nodes: seq<Task>, order: seq<nat>)
    requires Arranged(g, nodes, order) && Follows(run, a.written, a.writes) && a.written <= Plan(nodes, g.edges, order)
    ensures LocalAttempt(a, run, Elements(TaskIdsOf(nodes)), IdPairs(nodes, g.edges))
  {
    var ts := Sequence(g, nodes, order);
    SameIds(g, nodes, order);
    assert Elements(TaskIdsOf(ts)) == Elements(TaskIdsOf(nodes));
  }

  /**
   * The in-process runner after any such attempts at the same graph, whatever orders and bodies they
   * used, and whether or not ids repeat.
   */
  lemma {:induction false} LocalRerunConverges(tb: Tables, attempts: seq<Attempt>, run: string, g: Graph,
                                               nodes: seq<Task>, order: seq<nat>, rerun: seq<Write>, alone: seq<Write>)
    requires Arranged(g, nodes, order)
    requires forall a :: a in attempts ==>
      LocalAttempt(a, run, Elements(TaskIdsOf(nodes)), IdPairs(nodes, g.edges))
    requires Follows(run, Plan(nodes, g.edges, order), rerun) && Follows(run, Plan(nodes, g.edges, order), alone)
    ensures View(Replay(tb, AllWrites(attempts) + rerun), run) == View(Replay(tb, alone), run)
    ensures forall other :: other != run ==> SameRun(tb, Replay(tb, AllWrites(attempts) + rerun), other)
  {
    var ts, pairs, ids := Sequence(g, nodes, order), IdPairs(nodes, g.edges), Elements(TaskIdsOf(nodes));
    forall a | a in attempts ensures CrashedAttempt(a, run, ids, Elements(pairs)) {
      LocalAttemptIsCrashed(a, run, ids, pairs);
    }
    SameIds(g, nodes, order);
    assert Elements(TaskIdsOf(ts)) == ids;
    LocalPlanCovers(pairs, ts);
    CrashAndRerunConverge(tb, attempts, run, ids, Elements(pairs), Plan(nodes, g.edges, order), rerun, alone);
  }

  /** A failed run and then a completed one leave what the latter leaves alone. */
  lemma {:induction false} RetryAfterFailure(tb: Tables, run: string, failed: Attempt, rerun: seq<Write>,
                                             alone: seq<Write>, g: Graph, nodes: seq<Task>, order: seq<nat>)
    requires Arranged(g, nodes, order)
    requires Follows(run, failed.written, failed.writes) && failed.written <= Plan(nodes, g.edges, order)
    requires Follows(run, Plan(nodes, g.edges, order), rerun) && Follows(run, Plan(nodes, g.edges, order), alone)
    ensures View(Replay(tb, failed.writes + rerun), run) == View(Replay(tb, alone), run)
    ensures forall other :: other != run ==> SameRun(tb, Replay(tb, failed.writes + rerun), other)
  {
    StoppedRunIsAttempt(run, failed, g, nodes, order);
    assert AllWrites([failed]) == failed.writes by { assert [failed][..0] == []; }
    LocalRerunConverges(tb, [failed], run, g, nodes, order, rerun, alone);
  }

  /** A plan rewrites whatever a prefix of it wrote, on any view. */
  lemma {:induction false} PrefixAbsorbed(v: RunView, written: seq<Intent>, plan: seq<Intent>)
    requires written <= plan
    ensures Play(Play(v, written), plan) == Play(v, plan)
  {
    var rest := plan[|written|..];
    assert plan == written + rest;
    PlayAppend(EMPTY_VIEW, written, rest);
    PlayIsOverlay(Play(EMPTY_VIEW, written), rest);
    PlayIsOverlay(v, written);
    PlayIsOverlay(v, plan);
    PlayIsOverlay(Play(v, written), plan);
    OverwrittenAnyway(v, Play(EMPTY_VIEW, written), Play(EMPTY_VIEW, plan));
  }
}
