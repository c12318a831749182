/** What a client of the runners finds in the store object afterwards. */
module StoreAfterRun {
  import opened Wrappers
  import opened Digraph
  import opened TopoSort
  import opened Tasks
  import opened Lineage
  import opened RunPlan
  import opened RunLog
  import opened LocalRunner
  import opened Schedule
  import opened Recovery

  /** The contents of a valid store are what the writes since an earlier moment made of the contents then. */
  lemma {:induction false} ContentsSince(before: seq<Write>, after: seq<Write>)
    requires before <= after
    ensures Replay(NO_TABLES, after) == Replay(Replay(NO_TABLES, before), after[|before|..])
  {
    assert after == before + after[|before|..];
    ReplayAppend(NO_TABLES, before, after[|before|..]);
  }

  lemma {:induction false} OtherRunsSpared(before: seq<Write>, after: seq<Write>, run: string, written: seq<Intent>)
    requires Logged(before, after, run, written)
    ensures forall other :: other != run ==> SameRun(Replay(NO_TABLES, before), Replay(NO_TABLES, after), other)
  {
    ContentsSince(before, after);
    forall other | other != run ensures SameRun(Replay(NO_TABLES, before), Replay(NO_TABLES, after), other) {
      ReplaySparesOtherRuns(Replay(NO_TABLES, before), run, written, after[|before|..], other);
    }
  }

  lemma {:induction false} ViewSince(before: seq<Write>, after: seq<Write>, run: string, written: seq<Intent>)
    requires Logged(before, after, run, written)
    ensures View(Replay(NO_TABLES, after), run) == Play(View(Replay(NO_TABLES, before), run), written)
  {
    ContentsSince(before, after);
    ReplayActsOnView(Replay(NO_TABLES, before), run, written, after[|before|..]);
  }

  /** In the time of two runs the store refuses at most one write. */
  ghost predicate OneRefusal(accepts: nat -> bool, from: nat, count: nat) {
    forall n: nat, m: nat :: from <= n < m < from + 2 * count && !accepts(n) ==> accepts(m)
  }

  /** One run under an id that the store does not know, of tasks with distinct ids. */
  method RunOnFreshId(runner: LocalRunner, runId: string) returns (r: Result<RunReport, RunError>)
    requires runner.dag.Valid() && runner.lineage.Valid() && Distinct(TaskIdsOf(runner.dag.nodes))
    requires View(runner.lineage.Contents(), runId) == EMPTY_VIEW
    modifies runner.lineage
    ensures runner.dag.Valid() && runner.lineage.Valid()
    ensures !Acyclic(runner.dag.AsGraph()) ==> r.Failure?
    ensures Acyclic(runner.dag.AsGraph()) ==>
      && Arranged(runner.dag.AsGraph(), runner.dag.nodes, SortedOrder(runner.dag.AsGraph()))
      && (r.Success? <==>
            && runner.scratch(runId)
            && Accepted(runner.lineage.accepts, old(runner.lineage.attempts),
                        |Plan(runner.dag.nodes, runner.dag.edges, SortedOrder(runner.dag.AsGraph()))|))
    ensures r.Success? ==>
      && r.value.runId == runId
      && RowsSay(View(runner.lineage.Contents(), runId).rows, r.value)
      && View(runner.lineage.Contents(), runId).edges == Elements(IdPairs(runner.dag.nodes, runner.dag.edges))
      && runner.lineage.EdgeCount(Some(runId)) == |runner.dag.edges|
    ensures forall other :: other != runId ==>
      SameRun(old(runner.lineage.Contents()), runner.lineage.Contents(), other)
  {
    ghost var before, nodes, g := runner.lineage.log, runner.dag.nodes, runner.dag.AsGraph();
    ghost var written;
    r, written := runner.Run(runId);
    OtherRunsSpared(before, runner.lineage.log, runId, written);
    if r.Success? {
      ContentsSince(before, runner.lineage.log);
      ghost var tb, ws, order := Replay(NO_TABLES, before), runner.lineage.log[|before|..], SortedOrder(g);
      OrderInRange(g, nodes, order);
      StoreAgreesWithReport(tb, runId, IdPairs(nodes, g.edges), InOrder(nodes, order), ws);
      EdgeRowsAreEdges(nodes, g);
    }
  }

  /**
   * Tries once more if the run did not complete. Whatever the store held, whether or not ids repeat,
   * and wherever the first try stopped, a completed second try leaves the plan played once; and if
   * the scratch directory can be made, no single refusal of the store keeps the second from completing.
   */
  method RunWithRetry(runner: LocalRunner, runId: string) returns (r: Result<RunReport, RunError>)
    requires runner.dag.Valid() && runner.lineage.Valid()
    modifies runner.lineage
    ensures runner.dag.Valid() && runner.lineage.Valid()
    ensures Acyclic(runner.dag.AsGraph()) ==>
      Arranged(runner.dag.AsGraph(), runner.dag.nodes, SortedOrder(runner.dag.AsGraph()))
    ensures Acyclic(runner.dag.AsGraph()) && runner.scratch(runId)
      && OneRefusal(runner.lineage.accepts, old(runner.lineage.attempts),
                    |Plan(runner.dag.nodes, runner.dag.edges, SortedOrder(runner.dag.AsGraph()))|)
      ==> r.Success?
    ensures r.Success? ==>
      && Acyclic(runner.dag.AsGraph())
      && Arranged(runner.dag.AsGraph(), runner.dag.nodes, SortedOrder(runner.dag.AsGraph()))
      && View(runner.lineage.Contents(), runId) ==
           Play(View(old(runner.lineage.Contents()), runId),
                Plan(runner.dag.nodes, runner.dag.edges, SortedOrder(runner.dag.AsGraph())))
    ensures forall other :: other != runId ==>
      SameRun(old(runner.lineage.Contents()), runner.lineage.Contents(), other)
  {
    ghost var first := runner.lineage.log;
    ghost var written, rewritten;
    r, written := runner.Run(runId);
    ghost var second := runner.lineage.log;
    OtherRunsSpared(first, second, runId, written);
    ViewSince(first, second, runId, written);
    if r.Failure? {
      r, rewritten := runner.Run(runId);
      ghost var third := runner.lineage.log;
      OtherRunsSpared(second, third, runId, rewritten);
      ViewSince(second, third, runId, rewritten);
      forall other | other != runId ensures SameRun(Replay(NO_TABLES, first), Replay(NO_TABLES, third), other) {
        SameRunTransitive(Replay(NO_TABLES, first), Replay(NO_TABLES, second), Replay(NO_TABLES, third), other);
      }
      if r.Success? { PrefixAbsorbed(View(Replay(NO_TABLES, first), runId), written, rewritten); }
    }
  }
}
