/** Intermediate states, crashes and reruns of the forjar runner, also mixed with the in-process runner. */
module ForjarRecovery {
  import opened Wrappers
  import opened Digraph
  import opened Values
  import opened Tasks
  import opened Lineage
  import opened RunPlan
  import opened LocalRunner
  import opened DagSpec
  import opened Recovery
  import opened Equivalence
  import Forjar = ForjarRunner

  // ---------- every intermediate state ----------

  /** The ids that the last rows are for, in their order. */
  ghost function LastIds(resources: seq<Forjar.Resource>, forjar: Forjar.Forjar, order: seq<nat>): seq<string>
    requires forall v :: v in order ==> v < |resources|
  {
    if forjar.validate == Some(false) then Forjar.Keys(resources)
    else if forjar.validate == Some(true) && forjar.graphStarts && Runnable(Forjar.AsTasks(resources)) then
      Forjar.IdsAlong(Forjar.Keys(resources), order)
    else []
  }

  /** What a last row holds. */
  ghost function LastCell(resources: seq<Forjar.Resource>, forjar: Forjar.Forjar, id: string): Cell {
    if forjar.validate == Some(false) then Cell(Failed, None)
    else Cell(Succeeded, Some(Forjar.Payload(resources, id)))
  }

  lemma {:induction false} LastRowsAre(resources: seq<Forjar.Resource>, forjar: Forjar.Forjar, order: seq<nat>)
    requires forall v :: v in order ==> v < |resources|
    ensures var ids, last := LastIds(resources, forjar, order), Forjar.LastRows(resources, forjar, order);
            && |last| == |ids|
            && forall i :: 0 <= i < |ids| ==>
                 var c := LastCell(resources, forjar, ids[i]); last[i] == Mark(ids[i], c.state, c.output)
  {
  }

  /** After the edges: a prefix of the tasks is Running; then all are, but for a prefix of last rows. */
  ghost predicate ForjarSnapshot(rows: map<string, Cell>, keys: seq<string>, lastIds: seq<string>,
                                 cell: string -> Cell, k: nat)
    requires k <= |keys| + |lastIds|
  {
    if k <= |keys| then rows == CellsOf(keys[..k], id => Cell(Running, None))
    else rows == CellsOf(keys, id => Cell(Running, None)) + CellsOf(lastIds[..k - |keys|], cell)
  }

  lemma {:induction false} SnapshotOfMarks(keys: seq<string>, running: seq<Intent>, lastIds: seq<string>,
                                           last: seq<Intent>, cell: string -> Cell, k: nat,
                                           edges: set<(string, string)>)
    requires |running| == |keys| && |last| == |lastIds| && k <= |keys| + |lastIds|
    requires forall i :: 0 <= i < |keys| ==> running[i] == Mark(keys[i], Running, None)
    requires forall i :: 0 <= i < |lastIds| ==>
      last[i] == Mark(lastIds[i], cell(lastIds[i]).state, cell(lastIds[i]).output)
    ensures Play(RunView(map[], edges), (running + last)[..k]).edges == edges
    ensures ForjarSnapshot(Play(RunView(map[], edges), (running + last)[..k]).rows, keys, lastIds, cell, k)
  {
    var v, n := RunView(map[], edges), |keys|;
    if k <= n {
      assert (running + last)[..k] == running[..k];
      MarksPlay(v, keys[..k], running[..k], id => Cell(Running, None));
    } else {
      assert (running + last)[..k] == running + last[..k - n];
      PlayAppend(v, running, last[..k - n]);
      MarksPlay(v, keys, running, id => Cell(Running, None));
      MarksPlay(Play(v, running), lastIds[..k - n], last[..k - n], cell);
    }
  }

  lemma {:induction false} LinksFirst(pairs: seq<(string, string)>, rest: seq<Intent>)
    ensures Play(EMPTY_VIEW, Links(pairs) + rest) == Play(RunView(map[], Elements(pairs)), rest)
  {
    PlayAppend(EMPTY_VIEW, Links(pairs), rest);
    LinksPlay(EMPTY_VIEW, pairs);
    assert EMPTY_VIEW.edges + Elements(pairs) == Elements(pairs);
  }

  /** On a fresh run id, at every moment after the edges all edges are stored and the rows are a snapshot. */
  lemma {:induction false} ForjarStepInvariant(tb: Tables, run: string, resources: seq<Forjar.Resource>,
                                               forjar: Forjar.Forjar, order: seq<nat>, ws: seq<Write>)
    requires (forall v :: v in order ==> v < |resources|) && forjar.versionOk && View(tb, run) == EMPTY_VIEW
    requires var plan := Forjar.Plan(resources, forjar, order);
      |Dependencies(Forjar.AsTasks(resources))| <= |ws| <= |plan| && Follows(run, plan[..|ws|], ws)
    ensures View(Replay(tb, ws), run).edges == Elements(Dependencies(Forjar.AsTasks(resources)))
    ensures |ws| - |Dependencies(Forjar.AsTasks(resources))| <=
      |Forjar.Keys(resources)| + |LastIds(resources, forjar, order)|
    ensures ForjarSnapshot(View(Replay(tb, ws), run).rows, Forjar.Keys(resources), LastIds(resources, forjar, order),
                           id => LastCell(resources, forjar, id),
                           |ws| - |Dependencies(Forjar.AsTasks(resources))|)
  {
    var pairs, keys := Dependencies(Forjar.AsTasks(resources)), Forjar.Keys(resources);
    var running, last := Forjar.MarkAll(keys, Running), Forjar.LastRows(resources, forjar, order);
    var plan, k := Forjar.Plan(resources, forjar, order), |ws| - |pairs|;
    LastRowsAre(resources, forjar, order);
    assert plan[..|ws|] == Links(pairs) + (running + last)[..k];
    ReplayActsOnView(tb, run, plan[..|ws|], ws);
    LinksFirst(pairs, (running + last)[..k]);
    SnapshotOfMarks(keys, running, LastIds(resources, forjar, order), last, id => LastCell(resources, forjar, id), k,
                    Elements(pairs));
  }

  // ---------- crash and rerun ----------

  /** A call of the forjar runner on these resources, under any answers of the CLI, that stopped anywhere. */
  ghost predicate ForjarAttempt(a: Attempt, run: string, resources: seq<Forjar.Resource>) {
    Follows(run, a.written, a.writes) && exists forjar, order :: WithinPlan(a.written, resources, forjar, order)
  }

  ghost predicate WithinPlan(written: seq<Intent>, resources: seq<Forjar.Resource>, forjar: Forjar.Forjar,
                             order: seq<nat>) {
    (forall v :: v in order ==> v < |resources|) && written <= Forjar.Plan(resources, forjar, order)
  }

  /** An attempt of either runner at these tasks. */
  ghost predicate EitherAttempt(a: Attempt, run: string, resources: seq<Forjar.Resource>) {
    || ForjarAttempt(a, run, resources)
    || LocalAttempt(a, run, Elements(Forjar.Keys(resources)), Dependencies(Forjar.AsTasks(resources)))
  }

  lemma {:induction false} MarksTouch(ids: seq<string>, marks: seq<Intent>, all: set<string>)
    requires |marks| == |ids|
    requires forall i :: 0 <= i < |ids| ==> marks[i].Mark? && marks[i].task == ids[i] && ids[i] in all
    ensures Touches(marks, all, {})
  {
  }

  lemma {:induction false} RowsTouch(resources: seq<Forjar.Resource>, forjar: Forjar.Forjar, order: seq<nat>)
    requires forall v :: v in order ==> v < |resources|
    ensures Touches(Forjar.MarkAll(Forjar.Keys(resources), Running) + Forjar.LastRows(resources, forjar, order),
                    Elements(Forjar.Keys(resources)), {})
  {
    var keys, ids := Forjar.Keys(resources), LastIds(resources, forjar, order);
    var last := Forjar.LastRows(resources, forjar, order);
    LastRowsAre(resources, forjar, order);
    forall i | 0 <= i < |ids| ensures ids[i] in keys {
      if forjar.validate != Some(false) { assert order[i] in order && ids[i] == keys[order[i]]; }
    }
    MarksTouch(keys, Forjar.MarkAll(keys, Running), Elements(keys));
    MarksTouch(ids, last, Elements(keys));
    TouchesConcat(Forjar.MarkAll(keys, Running), last, Elements(keys), Elements(keys), {});
  }

  lemma {:induction false} WithinPlanTouches(written: seq<Intent>, resources: seq<Forjar.Resource>,
                                             forjar: Forjar.Forjar, order: seq<nat>)
    requires WithinPlan(written, resources, forjar, order)
    ensures Touches(written, Elements(Forjar.Keys(resources)), Elements(Dependencies(Forjar.AsTasks(resources))))
  {
    var keys, pairs := Forjar.Keys(resources), Dependencies(Forjar.AsTasks(resources));
    var rows := Forjar.MarkAll(keys, Running) + Forjar.LastRows(resources, forjar, order);
    assert written <= Links(pairs) + rows;
    LinksTouch(pairs, Elements(keys));
    RowsTouch(resources, forjar, order);
    PrefixTouches(written, Links(pairs), rows, Elements(keys), Elements(pairs));
  }

  lemma {:induction false} EitherAttemptIsCrashed(a: Attempt, run: string, resources: seq<Forjar.Resource>)
    requires EitherAttempt(a, run, resources)
    ensures CrashedAttempt(a, run, Elements(Forjar.Keys(resources)), Elements(Dependencies(Forjar.AsTasks(resources))))
  {
    if ForjarAttempt(a, run, resources) {
      var forjar, order :| WithinPlan(a.written, resources, forjar, order);
      WithinPlanTouches(a.written, resources, forjar, order);
    } else {
      LocalAttemptIsCrashed(a, run, Elements(Forjar.Keys(resources)), Dependencies(Forjar.AsTasks(resources)));
    }
  }

  /**
   * After any stopped attempts of either runner, a forjar run that got past the probe and was not
   * stopped by the store leaves what it would leave alone, whether it succeeded or not.
   */
  lemma {:induction false} ForjarRerunConverges(tb: Tables, attempts: seq<Attempt>, run: string,
                                                resources: seq<Forjar.Resource>, forjar: Forjar.Forjar, order: seq<nat>,
                                                rerun: seq<Write>, alone: seq<Write>)
    requires Distinct(Forjar.Keys(resources)) && OrderFor(Forjar.AsTasks(resources), order) && forjar.versionOk
    requires forall a :: a in attempts ==> EitherAttempt(a, run, resources)
    requires var plan := Forjar.Plan(resources, forjar, order); Follows(run, plan, rerun) && Follows(run, plan, alone)
    ensures View(Replay(tb, AllWrites(attempts) + rerun), run) == View(Replay(tb, alone), run)
    ensures forall other :: other != run ==> SameRun(tb, Replay(tb, AllWrites(attempts) + rerun), other)
  {
    var ids, pairs := Elements(Forjar.Keys(resources)), Elements(Dependencies(Forjar.AsTasks(resources)));
    var plan := Forjar.Plan(resources, forjar, order);
    forall a | a in attempts ensures CrashedAttempt(a, run, ids, pairs) { EitherAttemptIsCrashed(a, run, resources); }
    assert Covers(plan, ids, pairs) by { ForjarOutcome(resources, forjar, order); }
    CrashAndRerunConverge(tb, attempts, run, ids, pairs, plan, rerun, alone);
  }

  /** And a completed in-process run leaves what it would leave alone, whichever runner was tried before. */
  lemma {:induction false} LocalAfterEitherConverges(tb: Tables, attempts: seq<Attempt>, run: string,
                                                     resources: seq<Forjar.Resource>, nodes: seq<Task>, order: seq<nat>,
                                                     rerun: seq<Write>, alone: seq<Write>)
    requires OnRunnable(Forjar.AsTasks(resources), nodes) && OrderFor(Forjar.AsTasks(resources), order)
    requires forall a :: a in attempts ==> EitherAttempt(a, run, resources)
    requires var plan := LocalPlan(Forjar.AsTasks(resources), nodes, order);
      Follows(run, plan, rerun) && Follows(run, plan, alone)
    ensures View(Replay(tb, AllWrites(attempts) + rerun), run) == View(Replay(tb, alone), run)
    ensures forall other :: other != run ==> SameRun(tb, Replay(tb, AllWrites(attempts) + rerun), other)
  {
    var ids, pairs := Elements(Forjar.Keys(resources)), Elements(Dependencies(Forjar.AsTasks(resources)));
    var plan := LocalPlan(Forjar.AsTasks(resources), nodes, order);
    forall a | a in attempts ensures CrashedAttempt(a, run, ids, pairs) { EitherAttemptIsCrashed(a, run, resources); }
    assert Covers(plan, ids, pairs) by { LocalOutcome(Forjar.AsTasks(resources), nodes, order); }
    CrashAndRerunConverge(tb, attempts, run, ids, pairs, plan, rerun, alone);
  }
}
