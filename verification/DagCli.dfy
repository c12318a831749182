/** The command line's runnable DAG, whose tasks publish their own ids, and the backfill over a date range. */
module DagCli {
  import opened Wrappers
  import opened Digraph
  import opened Values
  import opened Tasks
  import opened Lineage
  import opened RunPlan
  import opened RunLog
  import opened LocalRunner
  import opened DagSpec
  import DagCore
  import Equivalence
  import Recovery

  // ---------- the runnable DAG ----------

  /** A task that returns its own id. */
  function EchoTask(id: string): Task {
    Task(id, (bag: Bag) => Effect(map[], Success(Text(id))))
  }

  function EchoTasks(tasks: seq<TaskSpec>): seq<Task> {
    seq(|tasks|, i requires 0 <= i < |tasks| => EchoTask(tasks[i].id))
  }

  /** The first loop of the builder: no check for duplicate ids. */
  method AddTasks(tasks: seq<TaskSpec>) returns (dag: DagCore.Dag<Task>, indices: map<string, nat>)
    ensures fresh(dag) && dag.Valid() && dag.edges == []
    ensures dag.nodes == EchoTasks(tasks) && indices == IndexTable(tasks)
  {
    dag := new DagCore.Dag<Task>();
    indices := map[];
    for j := 0 to |tasks|
      invariant fresh(dag) && dag.Valid() && dag.edges == []
      invariant dag.nodes == EchoTasks(tasks)[..j] && indices == IndexTable(tasks[..j])
    {
      assert tasks[..j + 1][..j] == tasks[..j];
      var idx := dag.AddNode(EchoTask(tasks[j].id));
      indices := indices[tasks[j].id := idx];
    }
    assert tasks[..|tasks|] == tasks;
    assert EchoTasks(tasks)[..|tasks|] == EchoTasks(tasks);
  }

  method BuildRunnableDag(tasks: seq<TaskSpec>) returns (r: Result<DagCore.Dag<Task>, BuildError>)
    ensures r.Success? <==> Runnable(tasks)
    ensures r.Success? ==>
      fresh(r.value) && r.value.Valid() && r.value.nodes == EchoTasks(tasks) && r.value.AsGraph() == SpecGraph(tasks)
    ensures r.Failure? ==> !r.error.DuplicateTaskId? && Explains(tasks, r.error)
  {
    var dag, indices := AddTasks(tasks);
    var connected := Connect(dag, tasks, indices);
    if connected.Failure? { return Failure(connected.error); }
    CircularMeansCyclic(tasks);
    var checked := dag.CycleCheck();
    if checked.Failure? { return Failure(BuildError.Rejected(checked.error)); }
    return Success(dag);
  }

  /** No failure, every state Succeeded, and each of these ids with itself as output. */
  ghost predicate Echoed(p: Progress, ids: seq<string>) {
    && !p.failed
    && (forall id :: id in p.states ==> p.states[id] == Succeeded)
    && (forall id :: id in p.outputs <==> id in ids)
    && (forall id :: id in p.outputs ==> p.outputs[id] == Str(id))
  }

  lemma {:induction false} EchoStep(p: Progress, ids: seq<string>, t: Task, q: Progress, more: seq<string>)
    requires Echoed(p, ids) && t == EchoTask(t.id) && q == Advance(p, t) && more == ids + [t.id]
    ensures Echoed(q, more)
  {
  }

  /** A run over echo tasks: all succeed, each with its own id as output, whether or not ids repeat. */
  lemma {:induction false} EchoRun(ts: seq<Task>)
    requires forall i :: 0 <= i < |ts| ==> ts[i] == EchoTask(ts[i].id)
    ensures Echoed(RunOver(ts), TaskIdsOf(ts))
  {
    if |ts| == 0 {
    } else {
      var before, t := ts[..|ts| - 1], ts[|ts| - 1];
      EchoRun(before);
      LastStep(ts);
      EchoStep(RunOver(before), TaskIdsOf(before), t, RunOver(ts), TaskIdsOf(ts));
    }
  }

  lemma {:induction false} EchoTasksInOrder(tasks: seq<TaskSpec>, order: seq<nat>)
    requires forall v :: v in order ==> v < |tasks|
    ensures var ts := InOrder(EchoTasks(tasks), order); forall i :: 0 <= i < |ts| ==> ts[i] == EchoTask(ts[i].id)
  {
    assert forall i :: 0 <= i < |order| ==> order[i] in order;
    assert forall i :: 0 <= i < |order| ==> InOrder(EchoTasks(tasks), order)[i] == EchoTask(tasks[order[i]].id);
  }

  /** The tasks of the runnable DAG, in an order. */
  ghost function EchoSequence(tasks: seq<TaskSpec>, order: seq<nat>): (ts: seq<Task>)
    requires Runnable(tasks) && OrderFor(tasks, order)
    ensures |ts| == |tasks|
    ensures forall i :: 0 <= i < |ts| ==> ts[i] == EchoTask(ts[i].id)
  {
    TopoOrderLength(SpecGraph(tasks), order);
    EchoTasksInOrder(tasks, order);
    InOrder(EchoTasks(tasks), order)
  }

  /** Every write of one day's run. */
  ghost function DayPlan(tasks: seq<TaskSpec>, order: seq<nat>): seq<Intent>
    requires Runnable(tasks) && OrderFor(tasks, order)
  {
    Plan(EchoTasks(tasks), SpecGraph(tasks).edges, order)
  }

  lemma {:induction false} EchoReport(tasks: seq<TaskSpec>, order: seq<nat>, runId: string)
    requires Runnable(tasks) && OrderFor(tasks, order)
    ensures Report(runId, RunOver(EchoSequence(tasks, order))).AllSucceeded() <==> tasks != []
  {
    var ts := EchoSequence(tasks, order);
    EchoRun(ts);
    RunIds(ts);
    if tasks != [] {
      assert TaskIdsOf(ts)[0] in RunOver(ts).states;
    } else {
      assert RunOver(ts).states == map[];
    }
  }

  // ---------- the date range ----------

  /** Seconds in a day. */
  const DAY := 86_400

  /** The calendar day of an instant, counted from the epoch. */
  function DayOf(t: int): int {
    t / DAY
  }

  function RunCount(start: int, end: int): nat
    requires start <= end
  {
    (end - start) / DAY + 1
  }

  /** The days that are run. */
  function RunDays(start: int, end: int): seq<int>
    requires start <= end
  {
    seq(RunCount(start, end), k => DayOf(start) + k)
  }

  /** Their run ids, given the id of each day. */
  function DayRunIds(start: int, end: int, dateId: int -> string): seq<string>
    requires start <= end
  {
    seq(RunCount(start, end), k => dateId(DayOf(start) + k))
  }

  /** The run ids that the loop still makes from a cursor. */
  function RunIdsFrom(cursor: int, end: int, dateId: int -> string): seq<string>
    decreases end - cursor
  {
    if cursor > end then [] else [dateId(DayOf(cursor))] + RunIdsFrom(cursor + DAY, end, dateId)
  }

  /** Stepping a day at a time makes one run per day, floor((end - start) / 1 day) + 1 in all. */
  lemma {:induction false} SteppingIsDaily(cursor: int, end: int, dateId: int -> string)
    requires cursor <= end
    ensures RunIdsFrom(cursor, end, dateId) == DayRunIds(cursor, end, dateId)
    decreases end - cursor
  {
    var next := cursor + DAY;
    assert DayOf(next) == DayOf(cursor) + 1;
    if next <= end {
      assert RunCount(cursor, end) == RunCount(next, end) + 1;
      SteppingIsDaily(next, end, dateId);
    } else {
      assert RunCount(cursor, end) == 1;
      assert RunIdsFrom(next, end, dateId) == [];
    }
  }

  /** The k-th run is dated with the day that holds the instant k times 86400 seconds after the start. */
  lemma {:induction false} RunIsDated(start: int, end: int, dateId: int -> string, k: nat)
    requires start <= end && k < RunCount(start, end)
    ensures |DayRunIds(start, end, dateId)| == RunCount(start, end)
    ensures exists d ::
      && DayRunIds(start, end, dateId)[k] == dateId(d)
      && d * 86_400 <= start + k * 86_400 < (d + 1) * 86_400
  {
    var d := DayOf(start) + k;
    assert DayRunIds(start, end, dateId)[k] == dateId(d);
    assert d * 86_400 <= start + k * 86_400 < (d + 1) * 86_400;
  }

  /** The runs start within the range, and one more would not. */
  lemma {:induction false} LastRunInRange(start: int, end: int)
    requires start <= end
    ensures start + (RunCount(start, end) - 1) * 86_400 <= end < start + RunCount(start, end) * 86_400
  {
  }

  /** From the midnight of one date to that of another, the runs are those of the dates in between, both included. */
  lemma {:induction false} DateOnlyRange(a: int, b: int, dateId: int -> string)
    requires a <= b
    ensures DayRunIds(a * 86_400, b * 86_400, dateId) == seq(b - a + 1, k => dateId(a + k))
  {
    assert DayOf(a * 86_400) == a;
    assert RunCount(a * 86_400, b * 86_400) == b - a + 1;
  }

  /** The run ids are pairwise distinct, and no run is dated outside the range. */
  lemma {:induction false} BackfillDates(start: int, end: int, dateId: int -> string)
    requires start <= end && forall a, b :: dateId(a) == dateId(b) ==> a == b
    ensures Distinct(DayRunIds(start, end, dateId))
    ensures forall d :: d in RunDays(start, end) ==> DayOf(start) <= d <= DayOf(end)
  {
  }

  /**
   * The help text promises one run per calendar date of the closed range. That holds exactly when
   * the start is not later in its day than the end is in its own; otherwise the last date is left out.
   */
  lemma {:induction false} BackfillCoversRange(start: int, end: int)
    requires start <= end
    ensures (forall d :: DayOf(start) <= d <= DayOf(end) ==> d in RunDays(start, end)) <==> start % DAY <= end % DAY
    ensures start % DAY > end % DAY ==> DayOf(end) !in RunDays(start, end)
  {
    assert start == DAY * DayOf(start) + start % DAY;
    assert end == DAY * DayOf(end) + end % DAY;
    var days := RunDays(start, end);
    if start % DAY <= end % DAY {
      forall d | DayOf(start) <= d <= DayOf(end) ensures d in days {
        assert days[d - DayOf(start)] == d;
      }
    } else {
      assert DayOf(start) <= DayOf(end);
      assert DayOf(end) !in days;
    }
  }

  // ---------- the backfill ----------

  datatype BackfillError =
    | BadRange
    | Unbuildable(reason: BuildError)
    | RunAborted(cause: RunError)
    | NotAllSucceeded

  /** The log grew by one complete run per id, in this order. */
  ghost predicate RunsLogged(before: seq<Write>, after: seq<Write>, ids: seq<string>, plan: seq<Intent>)
    decreases |ids|
  {
    if |ids| == 0 then after == before
    else
      && |plan| <= |after|
      && RunsLogged(before, BeforeLast(after, plan), ids[..|ids| - 1], plan)
      && Logged(BeforeLast(after, plan), after, ids[|ids| - 1], plan)
  }

  /** The log before the last complete run. */
  function BeforeLast(after: seq<Write>, plan: seq<Intent>): seq<Write>
    requires |plan| <= |after|
  {
    after[..|after| - |plan|]
  }

  lemma {:induction false} RunsLoggedStep(before: seq<Write>, mid: seq<Write>, after: seq<Write>, ids: seq<string>,
                                        k: nat, plan: seq<Intent>)
    requires k < |ids| && RunsLogged(before, mid, ids[..k], plan) && Logged(mid, after, ids[k], plan)
    ensures RunsLogged(before, after, ids[..k + 1], plan)
  {
    assert ids[..k + 1][..k] == ids[..k];
    assert BeforeLast(after, plan) == mid;
  }

  /** Whether a day ended because the store refused a write. */
  predicate DayRefused(r: Result<DagCore.Unit, BackfillError>) {
    r.Failure? && r.error.RunAborted? && r.error.cause.StoreFailed?
  }

  /**
   * One day: build the DAG, run it, and insist that everything succeeded. That goes through exactly
   * if there is a task, the DAG builds, the scratch directory can be made and the store accepts the plan.
   */
  method RunDay(tasks: seq<TaskSpec>, lineage: LineageStore, scratch: string -> bool, runId: string)
    returns (r: Result<DagCore.Unit, BackfillError>, ghost written: seq<Intent>)
    requires lineage.Valid()
    modifies lineage
    ensures lineage.Valid()
    ensures Wrote(lineage.accepts, old(lineage.Past()), lineage.Past(), runId, written, DayRefused(r))
    ensures !Runnable(tasks) ==>
      r.Failure? && r.error.Unbuildable? && Explains(tasks, r.error.reason) && written == []
    ensures Runnable(tasks) ==>
      var plan := DayPlan(tasks, SortOf(tasks));
      && written <= plan
      && (r.Success? ==> written == plan && tasks != [] && scratch(runId))
      && (r.Failure? ==>
            || (r.error == RunAborted(StoreFailed) && |written| < |plan|)
            || (r.error == RunAborted(ScratchFailed) && !scratch(runId))
            || (r.error == NotAllSucceeded && tasks == []))
  {
    var built := BuildRunnableDag(tasks);
    if built.Failure? {
      NothingWritten(lineage.accepts, lineage.Past(), runId);
      return Failure(Unbuildable(built.error)), [];
    }
    CircularMeansCyclic(tasks);
    var runner := new LocalRunner(built.value, lineage, scratch);
    var report;
    report, written := runner.Run(runId);
    EchoReport(tasks, SortOf(tasks), runId);
    match report
    case Failure(e) => return Failure(RunAborted(e)), written;
    case Success(done) =>
      if !done.AllSucceeded() { return Failure(NotAllSucceeded), written; }
      return Success(DagCore.Unit.Unit), written;
  }

  /** The first k days are complete and the next one stopped somewhere in its plan. */
  ghost predicate StoppedAtDay(before: seq<Write>, after: seq<Write>, ids: seq<string>, k: nat, plan: seq<Intent>) {
    exists mid, written :: k < |ids| && RunsLogged(before, mid, ids[..k], plan)
      && Logged(mid, after, ids[k], written) && written <= plan
  }

  /** What decides how a backfill of these tasks goes: whether they build, whether there are any, a day's writes. */
  datatype Job = Job(builds: bool, nonEmpty: bool, plan: seq<Intent>)

  ghost function JobOf(tasks: seq<TaskSpec>): Job {
    Job(Runnable(tasks), tasks != [], if Runnable(tasks) then DayPlan(tasks, SortOf(tasks)) else [])
  }

  /** How many writes so many days make. */
  function WritesOf(days: nat, plan: seq<Intent>): nat {
    days * |plan|
  }

  /** The answers of the store and of the file system. */
  datatype World = World(accepts: nat -> bool, scratch: string -> bool)

  /** Nothing stands in the way of the first k days. */
  ghost predicate GoesThrough(job: Job, world: World, from: nat, ids: seq<string>, k: nat)
    requires k <= |ids|
  {
    && (k > 0 ==> job.builds && job.nonEmpty)
    && (forall i :: 0 <= i < k ==> world.scratch(ids[i]))
    && Accepted(world.accepts, from, WritesOf(k, job.plan))
  }

  /** The state of the loop after k days. */
  ghost predicate DaysDone(job: Job, world: World, before: Journal, after: Journal, ids: seq<string>, k: nat) {
    && k <= |ids|
    && GoesThrough(job, world, before.attempts, ids, k)
    && after.attempts == before.attempts + WritesOf(k, job.plan)
    && RunsLogged(before.log, after.log, ids[..k], job.plan)
  }

  /** How the loop ends early on its k-th day. */
  ghost predicate DaysStopped(job: Job, world: World, before: Journal, after: Journal, ids: seq<string>, k: nat,
                              e: BackfillError) {
    && k < |ids|
    && !GoesThrough(job, world, before.attempts, ids, k + 1)
    && if job.builds then
         && StoppedAtDay(before.log, after.log, ids, k, job.plan)
         && match e
            case RunAborted(StoreFailed) => !Accepted(world.accepts, before.attempts, WritesOf(k + 1, job.plan))
            case RunAborted(ScratchFailed) => !world.scratch(ids[k])
            case NotAllSucceeded => !job.nonEmpty
            case _ => false
       else after == before && e.Unbuildable?
  }

  lemma {:induction false} OneMoreDay(job: Job, world: World, before: Journal, mid: Journal, after: Journal,
                                      ids: seq<string>, k: nat)
    requires DaysDone(job, world, before, mid, ids, k) && k < |ids| && job.builds && job.nonEmpty
    requires Wrote(world.accepts, mid, after, ids[k], job.plan, false) && world.scratch(ids[k])
    ensures DaysDone(job, world, before, after, ids, k + 1)
  {
    RunsLoggedStep(before.log, mid.log, after.log, ids, k, job.plan);
    OneMore(k, |job.plan|);
  }

  lemma {:induction false} DayStops(job: Job, world: World, before: Journal, mid: Journal, after: Journal,
                                    ids: seq<string>, k: nat, written: seq<Intent>, e: BackfillError)
    requires DaysDone(job, world, before, mid, ids, k) && k < |ids| && job.builds && written <= job.plan
    requires Wrote(world.accepts, mid, after, ids[k], written, e == RunAborted(StoreFailed))
    requires || (e == RunAborted(StoreFailed) && |written| < |job.plan|)
             || (e == RunAborted(ScratchFailed) && !world.scratch(ids[k]))
             || (e == NotAllSucceeded && !job.nonEmpty)
    ensures DaysStopped(job, world, before, after, ids, k, e)
  {
    assert StoppedAtDay(before.log, after.log, ids, k, job.plan);
    OneMore(k, |job.plan|);
    if e == RunAborted(StoreFailed) {
      assert !world.accepts(mid.attempts + |written|);
    }
  }

  lemma {:induction false} CannotBuild(job: Job, world: World, before: Journal, after: Journal, ids: seq<string>,
                                       k: nat, e: BackfillError)
    requires DaysDone(job, world, before, after, ids, k) && k < |ids| && !job.builds && e.Unbuildable?
    ensures k == 0 && after == before && DaysStopped(job, world, before, after, ids, k, e)
  {
  }

  lemma {:induction false} NothingMore(accepts: nat -> bool, before: Journal, after: Journal, run: string)
    requires Wrote(accepts, before, after, run, [], false)
    ensures after == before
  {
    assert after.log == before.log + after.log[|before.log|..];
  }

  /** The loop body, with the loop's progress. */
  method NextDay(tasks: seq<TaskSpec>, lineage: LineageStore, scratch: string -> bool, rid: string, ghost job: Job,
                 ghost before: Journal, ghost ids: seq<string>, ghost k: nat)
    returns (r: Result<DagCore.Unit, BackfillError>)
    requires lineage.Valid() && job == JobOf(tasks) && k < |ids| && rid == ids[k]
    requires DaysDone(job, World(lineage.accepts, scratch), before, lineage.Past(), ids, k)
    modifies lineage
    ensures lineage.Valid()
    ensures r.Success? ==> DaysDone(job, World(lineage.accepts, scratch), before, lineage.Past(), ids, k + 1)
    ensures r.Failure? ==>
      DaysStopped(job, World(lineage.accepts, scratch), before, lineage.Past(), ids, k, r.error)
    ensures r.Failure? && r.error.Unbuildable? ==> Explains(tasks, r.error.reason)
  {
    ghost var world, mid := World(lineage.accepts, scratch), lineage.Past();
    ghost var written;
    r, written := RunDay(tasks, lineage, scratch, rid);
    if r.Success? {
      OneMoreDay(job, world, before, mid, lineage.Past(), ids, k);
    } else if job.builds {
      DayStops(job, world, before, mid, lineage.Past(), ids, k, written, r.error);
    } else {
      NothingMore(lineage.accepts, mid, lineage.Past(), rid);
      CannotBuild(job, world, before, mid, ids, k, r.error);
    }
  }

  lemma {:induction false} NothingDone(job: Job, world: World, before: Journal, ids: seq<string>)
    ensures DaysDone(job, world, before, before, ids, 0)
  {
    assert ids[..0] == [];
  }

  /** The run ids from the k-th on are those that the loop still makes from the cursor. */
  ghost predicate Ahead(ids: seq<string>, k: nat, cursor: int, end: int, dateId: int -> string) {
    k <= |ids| && ids[k..] == RunIdsFrom(cursor, end, dateId)
  }

  lemma {:induction false} NextRunId(ids: seq<string>, k: nat, cursor: int, end: int, dateId: int -> string)
    requires Ahead(ids, k, cursor, end, dateId)
    ensures cursor <= end ==>
      k < |ids| && ids[k] == dateId(DayOf(cursor)) && Ahead(ids, k + 1, cursor + DAY, end, dateId)
    ensures cursor > end ==> k == |ids|
  {
    if cursor <= end {
      assert ids[k..][0] == dateId(DayOf(cursor));
      assert ids[k + 1..] == ids[k..][1..];
    }
  }

  /** The loop: one run per day while the cursor has not passed the end. */
  method RunEachDay(tasks: seq<TaskSpec>, start: int, end: int, lineage: LineageStore, scratch: string -> bool,
                    dateId: int -> string, ghost job: Job, ghost ids: seq<string>)
    returns (r: Result<nat, BackfillError>, ghost done: nat)
    requires lineage.Valid() && job == JobOf(tasks) && Ahead(ids, 0, start, end, dateId)
    modifies lineage
    ensures lineage.Valid()
    ensures r.Success? ==>
      && r.value == done == |ids|
      && DaysDone(job, World(lineage.accepts, scratch), old(lineage.Past()), lineage.Past(), ids, done)
    ensures r.Failure? ==>
      DaysStopped(job, World(lineage.accepts, scratch), old(lineage.Past()), lineage.Past(), ids, done, r.error)
    ensures r.Failure? && r.error.Unbuildable? ==> Explains(tasks, r.error.reason)
  {
    hide JobOf, DaysDone, DaysStopped;
    ghost var before, world := lineage.Past(), World(lineage.accepts, scratch);
    NothingDone(job, world, before, ids);
    var cursor := start;
    var runsExecuted: nat := 0;
    while cursor <= end
      invariant lineage.Valid() && Ahead(ids, runsExecuted, cursor, end, dateId)
      invariant DaysDone(job, world, before, lineage.Past(), ids, runsExecuted)
      decreases end - cursor
    {
      NextRunId(ids, runsExecuted, cursor, end, dateId);
      var rid := dateId(DayOf(cursor));
      var day := NextDay(tasks, lineage, scratch, rid, job, before, ids, runsExecuted);
      if day.Failure? { return Failure(day.error), runsExecuted; }
      runsExecuted := runsExecuted + 1;
      cursor := cursor + DAY;
    }
    NextRunId(ids, runsExecuted, cursor, end, dateId);
    return Success(runsExecuted), runsExecuted;
  }

  /** There is a task, the DAG builds, every scratch directory can be made, and all writes are accepted. */
  ghost predicate CanBackfill(tasks: seq<TaskSpec>, world: World, from: nat, ids: seq<string>) {
    && Runnable(tasks) && tasks != []
    && (forall id :: id in ids ==> world.scratch(id))
    && Accepted(world.accepts, from, WritesOf(|ids|, DayPlan(tasks, SortOf(tasks))))
  }

  /**
   * Backfills the closed range. It succeeds exactly if the range is not empty, there is a task, the
   * DAG builds, every scratch directory can be made and the store accepts every write. A failure
   * leaves the earlier days complete, one day partly written, and the later days untouched.
   */
  method Backfill(tasks: seq<TaskSpec>, start: int, end: int, lineage: LineageStore, scratch: string -> bool,
                  dateId: int -> string)
    returns (r: Result<nat, BackfillError>, ghost done: nat)
    requires lineage.Valid()
    modifies lineage
    ensures lineage.Valid()
    ensures r == Failure(BadRange) <==> end < start
    ensures end < start ==> lineage.Past() == old(lineage.Past())
    ensures r.Success? <==>
      && start <= end
      && CanBackfill(tasks, World(lineage.accepts, scratch), old(lineage.attempts), DayRunIds(start, end, dateId))
    ensures r.Success? ==>
      && r.value == RunCount(start, end)
      && RunsLogged(old(lineage.log), lineage.log, DayRunIds(start, end, dateId), DayPlan(tasks, SortOf(tasks)))
    ensures r.Failure? && start <= end ==>
      DaysStopped(JobOf(tasks), World(lineage.accepts, scratch), old(lineage.Past()), lineage.Past(),
                  DayRunIds(start, end, dateId), done, r.error)
    ensures r.Failure? && r.error.Unbuildable? ==> Explains(tasks, r.error.reason)
  {
    if end < start { return Failure(BadRange), 0; }
    ghost var before, ids := lineage.Past(), RunIdsFrom(start, end, dateId);
    r, done := RunEachDay(tasks, start, end, lineage, scratch, dateId, JobOf(tasks), ids);
    SteppingIsDaily(start, end, dateId);
    if r.Success? {
      AllDaysDone(JobOf(tasks), World(lineage.accepts, scratch), before, lineage.Past(), ids);
    } else {
      StopsForAReason(JobOf(tasks), World(lineage.accepts, scratch), before, lineage.Past(), ids, done, r.error);
    }
  }

  lemma {:induction false} AllDaysDone(job: Job, world: World, before: Journal, after: Journal, ids: seq<string>)
    requires DaysDone(job, world, before, after, ids, |ids|) && |ids| > 0
    ensures job.builds && job.nonEmpty && RunsLogged(before.log, after.log, ids, job.plan)
    ensures forall id :: id in ids ==> world.scratch(id)
    ensures Accepted(world.accepts, before.attempts, WritesOf(|ids|, job.plan))
  {
    assert ids[..|ids|] == ids;
  }

  /** What stopped one day stands in the way of the whole backfill. */
  lemma {:induction false} StopsForAReason(job: Job, world: World, before: Journal, after: Journal, ids: seq<string>,
                                           k: nat, e: BackfillError)
    requires DaysStopped(job, world, before, after, ids, k, e)
    ensures !(job.builds && job.nonEmpty && (forall id :: id in ids ==> world.scratch(id))
              && Accepted(world.accepts, before.attempts, WritesOf(|ids|, job.plan)))
  {
    MoreDaysMoreWrites(k + 1, |ids|, |job.plan|);
  }

  lemma {:induction false} MoreDaysMoreWrites(k: nat, n: nat, c: nat)
    requires k <= n
    ensures k * c <= n * c
  {
  }

  // ---------- what a backfill leaves in the store ----------

  /** Runs with other ids are untouched, and each backfilled run acts on its own view once. */
  lemma {:induction false} BackfillViews(before: seq<Write>, after: seq<Write>, ids: seq<string>, plan: seq<Intent>)
    requires RunsLogged(before, after, ids, plan) && Distinct(ids)
    ensures forall id :: id in ids ==>
      View(Replay(NO_TABLES, after), id) == Play(View(Replay(NO_TABLES, before), id), plan)
    ensures forall id :: id !in ids ==> SameRun(Replay(NO_TABLES, before), Replay(NO_TABLES, after), id)
    decreases |ids|
  {
    if |ids| == 0 {
    } else {
      var n := |ids| - 1;
      var mid := BeforeLast(after, plan);
      BackfillViews(before, mid, ids[..n], plan);
      LastDayView(before, mid, after, ids, plan);
    }
  }

  lemma {:induction false} LastDayView(before: seq<Write>, mid: seq<Write>, after: seq<Write>, ids: seq<string>,
                                       plan: seq<Intent>)
    requires |ids| > 0 && Distinct(ids) && Logged(mid, after, ids[|ids| - 1], plan)
    requires var n := |ids| - 1;
      && (forall id :: id in ids[..n] ==>
            View(Replay(NO_TABLES, mid), id) == Play(View(Replay(NO_TABLES, before), id), plan))
      && (forall id :: id !in ids[..n] ==> SameRun(Replay(NO_TABLES, before), Replay(NO_TABLES, mid), id))
    ensures forall id :: id in ids ==>
      View(Replay(NO_TABLES, after), id) == Play(View(Replay(NO_TABLES, before), id), plan)
    ensures forall id :: id !in ids ==> SameRun(Replay(NO_TABLES, before), Replay(NO_TABLES, after), id)
  {
    var n := |ids| - 1;
    var tb, tm, ta, last := Replay(NO_TABLES, before), Replay(NO_TABLES, mid), Replay(NO_TABLES, after), ids[n];
    assert ids == ids[..n] + [last] && last !in ids[..n];
    forall id | id in ids ensures View(ta, id) == Play(View(tb, id), plan) {
      OneRunLater(mid, after, last, plan, id);
      if id == last { SameRunSameView(tb, tm, id); } else { SameRunSameView(tm, ta, id); }
    }
    forall id | id !in ids ensures SameRun(tb, ta, id) {
      OneRunLater(mid, after, last, plan, id);
      SameRunTransitive(tb, tm, ta, id);
    }
  }

  /** What one more complete run does to the view of a run id. */
  lemma {:induction false} OneRunLater(mid: seq<Write>, after: seq<Write>, run: string, plan: seq<Intent>, id: string)
    requires Logged(mid, after, run, plan)
    ensures id == run ==> View(Replay(NO_TABLES, after), id) == Play(View(Replay(NO_TABLES, mid), id), plan)
    ensures id != run ==> SameRun(Replay(NO_TABLES, mid), Replay(NO_TABLES, after), id)
  {
    var more := after[|mid|..];
    assert after == mid + more;
    ReplayAppend(NO_TABLES, mid, more);
    if id == run {
      ReplayActsOnView(Replay(NO_TABLES, mid), run, plan, more);
    } else {
      ReplaySparesOtherRuns(Replay(NO_TABLES, mid), run, plan, more, id);
    }
  }

  /** A complete day: every task Succeeded with its own id as output, and the declared pairs as edges. */
  ghost predicate DayStored(v: RunView, tasks: seq<TaskSpec>) {
    && (forall id :: id in v.rows <==> id in Ids(tasks))
    && (forall id :: id in v.rows ==> v.rows[id] == Cell(Succeeded, Some(Str(id))))
    && v.edges == Elements(Dependencies(tasks))
  }

  /** The rows of a run over echo tasks, whether or not ids repeat. */
  lemma {:induction false} EchoRows(pairs: seq<(string, string)>, ts: seq<Task>)
    requires forall i :: 0 <= i < |ts| ==> ts[i] == EchoTask(ts[i].id)
    ensures var rows := Play(EMPTY_VIEW, Links(pairs) + Script(ts)).rows;
            forall id :: id in rows ==> rows[id] == Cell(Succeeded, Some(Str(id)))
  {
    Recovery.AnyRunView(EMPTY_VIEW, pairs, ts);
    EchoRun(ts);
    RunIds(ts);
  }

  lemma {:induction false} EchoIds(tasks: seq<TaskSpec>)
    ensures TaskIdsOf(EchoTasks(tasks)) == Ids(tasks)
  {
  }

  /** What a day's complete run leaves on a fresh id, over any valid order, whether or not ids repeat. */
  lemma {:induction false} DayView(tasks: seq<TaskSpec>, order: seq<nat>)
    requires Runnable(tasks) && OrderFor(tasks, order)
    ensures DayStored(Play(EMPTY_VIEW, DayPlan(tasks, order)), tasks)
    ensures |Play(EMPTY_VIEW, DayPlan(tasks, order)).edges| == |SpecGraph(tasks).edges|
  {
    var nodes := EchoTasks(tasks);
    EchoIds(tasks);
    var v := Play(EMPTY_VIEW, DayPlan(tasks, order));
    assert v.edges == Elements(Dependencies(tasks)) && v.rows.Keys == Elements(Ids(tasks))
      && |v.edges| == |SpecGraph(tasks).edges| by { Equivalence.LocalOutcome(tasks, nodes, order); }
    EchoRows(IdPairs(nodes, SpecGraph(tasks).edges), EchoSequence(tasks, order));
  }

  lemma {:induction false} OnlyOwnEdgesAdded(tb: Tables, after: Tables, run: string)
    requires forall k :: k in tb.edges ==> k.0 != run
    requires forall other :: other != run ==> SameRun(tb, after, other)
    ensures |after.edges| == |tb.edges| + |EdgeKeys(after, Some(run))|
  {
    var own := EdgeKeys(after, Some(run));
    forall k: EdgeKey ensures k in after.edges <==> k in tb.edges.Keys + own {
      if k.0 != run { assert SameRun(tb, after, k.0); }
    }
    assert after.edges.Keys == tb.edges.Keys + own;
    assert |after.edges.Keys| == |tb.edges.Keys| + |own|;
  }

  /** A complete run on a fresh id adds its edges to the table's total. */
  lemma {:induction false} RunAddsEdges(tb: Tables, run: string, plan: seq<Intent>, ws: seq<Write>)
    requires View(tb, run) == EMPTY_VIEW && Follows(run, plan, ws)
    ensures |Replay(tb, ws).edges| == |tb.edges| + |Play(EMPTY_VIEW, plan).edges|
  {
    var after := Replay(tb, ws);
    ViewMeaning(tb, run);
    forall k | k in tb.edges ensures k.0 != run { assert k == (k.0, k.1, k.2); }
    forall other | other != run ensures SameRun(tb, after, other) {
      ReplaySparesOtherRuns(tb, run, plan, ws, other);
    }
    OnlyOwnEdgesAdded(tb, after, run);
    ReplayActsOnView(tb, run, plan, ws);
    EdgeCountIsViewSize(after, run);
  }

  ghost function EdgeTotal(log: seq<Write>): nat {
    |Replay(NO_TABLES, log).edges|
  }

  /** A backfill on fresh run ids stores (number of runs) x (number of edges) edges. */
  lemma {:induction false} BackfillEdgeTotal(before: seq<Write>, after: seq<Write>, ids: seq<string>, plan: seq<Intent>)
    requires RunsLogged(before, after, ids, plan) && Distinct(ids)
    requires forall id :: id in ids ==> View(Replay(NO_TABLES, before), id) == EMPTY_VIEW
    ensures EdgeTotal(after) == EdgeTotal(before) + |ids| * |Play(EMPTY_VIEW, plan).edges|
    decreases |ids|
  {
    if |ids| == 0 {
    } else {
      var n := |ids| - 1;
      var mid, perRun := BeforeLast(after, plan), |Play(EMPTY_VIEW, plan).edges|;
      assert forall id :: id in ids[..n] ==> id in ids;
      assert EdgeTotal(mid) == EdgeTotal(before) + n * perRun by { BackfillEdgeTotal(before, mid, ids[..n], plan); }
      assert EdgeTotal(after) == EdgeTotal(mid) + perRun by {
        assert ids[n] !in ids[..n] && ids[n] in ids;
        StillFresh(before, mid, ids[..n], plan, ids[n]);
        LastDayEdges(mid, after, ids[n], plan);
      }
      OneMore(n, perRun);
    }
  }

  lemma {:induction false} OneMore(n: nat, c: nat)
    ensures (n + 1) * c == n * c + c
  {
  }

  lemma {:induction false} StillFresh(before: seq<Write>, mid: seq<Write>, ids: seq<string>, plan: seq<Intent>,
                                      id: string)
    requires RunsLogged(before, mid, ids, plan) && Distinct(ids) && id !in ids
    requires View(Replay(NO_TABLES, before), id) == EMPTY_VIEW
    ensures View(Replay(NO_TABLES, mid), id) == EMPTY_VIEW
  {
    BackfillViews(before, mid, ids, plan);
    SameRunSameView(Replay(NO_TABLES, before), Replay(NO_TABLES, mid), id);
  }

  lemma {:induction false} LastDayEdges(mid: seq<Write>, after: seq<Write>, id: string, plan: seq<Intent>)
    requires Logged(mid, after, id, plan) && View(Replay(NO_TABLES, mid), id) == EMPTY_VIEW
    ensures EdgeTotal(after) == EdgeTotal(mid) + |Play(EMPTY_VIEW, plan).edges|
  {
    assert after == mid + after[|mid|..];
    ReplayAppend(NO_TABLES, mid, after[|mid|..]);
    RunAddsEdges(Replay(NO_TABLES, mid), id, plan, after[|mid|..]);
  }

  /**
   * What a successful backfill stores on fresh run ids: each day of the range's runs has its own
   * rows, all Succeeded, and its own edges; no other run is touched; the edges add up.
   */
  lemma {:induction false} BackfillStores(tasks: seq<TaskSpec>, order: seq<nat>, start: int, end: int,
                                          dateId: int -> string, before: seq<Write>, after: seq<Write>)
    requires start <= end && (forall a, b :: dateId(a) == dateId(b) ==> a == b)
    requires Runnable(tasks) && OrderFor(tasks, order)
    requires RunsLogged(before, after, DayRunIds(start, end, dateId), DayPlan(tasks, order))
    requires forall id :: id in DayRunIds(start, end, dateId) ==> View(Replay(NO_TABLES, before), id) == EMPTY_VIEW
    ensures forall id :: id in DayRunIds(start, end, dateId) ==> DayStored(View(Replay(NO_TABLES, after), id), tasks)
    ensures forall id :: id !in DayRunIds(start, end, dateId) ==>
      SameRun(Replay(NO_TABLES, before), Replay(NO_TABLES, after), id)
    ensures EdgeTotal(after) == EdgeTotal(before) + RunCount(start, end) * |SpecGraph(tasks).edges|
  {
    var ids, plan := DayRunIds(start, end, dateId), DayPlan(tasks, order);
    BackfillDates(start, end, dateId);
    BackfillViews(before, after, ids, plan);
    BackfillEdgeTotal(before, after, ids, plan);
    DayView(tasks, order);
  }

  /** After a failure on day k the earlier days are complete and the later days untouched. */
  lemma {:induction false} StoppedBackfill(before: seq<Write>, after: seq<Write>, ids: seq<string>, k: nat,
                                        plan: seq<Intent>)
    requires StoppedAtDay(before, after, ids, k, plan) && Distinct(ids)
    ensures forall i :: 0 <= i < k ==>
      View(Replay(NO_TABLES, after), ids[i]) == Play(View(Replay(NO_TABLES, before), ids[i]), plan)
    ensures forall i :: k < i < |ids| ==> SameRun(Replay(NO_TABLES, before), Replay(NO_TABLES, after), ids[i])
  {
    var mid, written :| k < |ids| && RunsLogged(before, mid, ids[..k], plan)
      && Logged(mid, after, ids[k], written) && written <= plan;
    BackfillViews(before, mid, ids[..k], plan);
    var tb, tm, ta := Replay(NO_TABLES, before), Replay(NO_TABLES, mid), Replay(NO_TABLES, after);
    forall i | 0 <= i < |ids| && i != k ensures SameRun(tm, ta, ids[i]) {
      OneRunLater(mid, after, ids[k], written, ids[i]);
    }
    forall i | 0 <= i < k ensures View(ta, ids[i]) == Play(View(tb, ids[i]), plan) {
      assert ids[i] in ids[..k];
      SameRunSameView(tm, ta, ids[i]);
    }
    forall i | k < i < |ids| ensures SameRun(tb, ta, ids[i]) {
      assert ids[i] !in ids[..k];
      SameRunTransitive(tb, tm, ta, ids[i]);
    }
  }

  /** On fresh run ids: the days before the failing one have all tasks Succeeded, the days after it nothing. */
  lemma {:induction false} StoppedBackfillStores(tasks: seq<TaskSpec>, order: seq<nat>, before: seq<Write>,
                                                 after: seq<Write>, ids: seq<string>, k: nat)
    requires Runnable(tasks) && OrderFor(tasks, order) && Distinct(ids)
    requires StoppedAtDay(before, after, ids, k, DayPlan(tasks, order))
    requires forall id :: id in ids ==> View(Replay(NO_TABLES, before), id) == EMPTY_VIEW
    ensures k < |ids|
    ensures forall i :: 0 <= i < k ==> DayStored(View(Replay(NO_TABLES, after), ids[i]), tasks)
    ensures forall i :: k < i < |ids| ==> View(Replay(NO_TABLES, after), ids[i]) == EMPTY_VIEW
  {
    StoppedBackfill(before, after, ids, k, DayPlan(tasks, order));
    DayView(tasks, order);
    forall i | k < i < |ids| ensures View(Replay(NO_TABLES, after), ids[i]) == EMPTY_VIEW {
      SameRunSameView(Replay(NO_TABLES, before), Replay(NO_TABLES, after), ids[i]);
    }
  }

  // ---------- a stopped backfill, and then a complete one ----------

  /** What a stopped backfill made of each run's view: the whole plan, a prefix of it, or nothing. */
  lemma {:induction false} StoppedViews(before: seq<Write>, stopped: seq<Write>, ids: seq<string>, k: nat,
                                        plan: seq<Intent>, id: string) returns (written: seq<Intent>)
    requires StoppedAtDay(before, stopped, ids, k, plan) && Distinct(ids)
    ensures id in ids ==>
      written <= plan && View(Replay(NO_TABLES, stopped), id) == Play(View(Replay(NO_TABLES, before), id), written)
    ensures id !in ids ==> SameRun(Replay(NO_TABLES, before), Replay(NO_TABLES, stopped), id)
  {
    var mid, some :| k < |ids| && RunsLogged(before, mid, ids[..k], plan)
      && Logged(mid, stopped, ids[k], some) && some <= plan;
    var tb, tm, ts := Replay(NO_TABLES, before), Replay(NO_TABLES, mid), Replay(NO_TABLES, stopped);
    BackfillViews(before, mid, ids[..k], plan);
    OneRunLater(mid, stopped, ids[k], some, id);
    assert ids[k] !in ids[..k];
    if id == ids[k] {
      written := some;
      SameRunSameView(tb, tm, id);
    } else {
      SameRunSameView(tm, ts, id);
      if id in ids[..k] {
        written := plan;
      } else {
        written := [];
        SameRunTransitive(tb, tm, ts, id);
        SameRunSameView(tb, ts, id);
      }
    }
  }

  /** Whatever the store held before: each run is as if only the complete backfill had run, and the others as before. */
  lemma {:induction false} BackfillAgain(before: seq<Write>, stopped: seq<Write>, after: seq<Write>, ids: seq<string>,
                                         k: nat, plan: seq<Intent>)
    requires StoppedAtDay(before, stopped, ids, k, plan) && RunsLogged(stopped, after, ids, plan) && Distinct(ids)
    ensures forall id :: id in ids ==>
      View(Replay(NO_TABLES, after), id) == Play(View(Replay(NO_TABLES, before), id), plan)
    ensures forall id :: id !in ids ==> SameRun(Replay(NO_TABLES, before), Replay(NO_TABLES, after), id)
  {
    var tb, ts, ta := Replay(NO_TABLES, before), Replay(NO_TABLES, stopped), Replay(NO_TABLES, after);
    BackfillViews(stopped, after, ids, plan);
    forall id | id in ids ensures View(ta, id) == Play(View(tb, id), plan) {
      var written := StoppedViews(before, stopped, ids, k, plan, id);
      Recovery.PrefixAbsorbed(View(tb, id), written, plan);
    }
    forall id | id !in ids ensures SameRun(tb, ta, id) {
      var written := StoppedViews(before, stopped, ids, k, plan, id);
      SameRunTransitive(tb, ts, ta, id);
    }
  }

  /** On fresh run ids every day then has all its tasks Succeeded and its edges. */
  lemma {:induction false} BackfillAgainStores(tasks: seq<TaskSpec>, order: seq<nat>, before: seq<Write>,
                                               stopped: seq<Write>, after: seq<Write>, ids: seq<string>, k: nat)
    requires Runnable(tasks) && OrderFor(tasks, order) && Distinct(ids)
    requires StoppedAtDay(before, stopped, ids, k, DayPlan(tasks, order))
    requires RunsLogged(stopped, after, ids, DayPlan(tasks, order))
    requires forall id :: id in ids ==> View(Replay(NO_TABLES, before), id) == EMPTY_VIEW
    ensures forall id :: id in ids ==> DayStored(View(Replay(NO_TABLES, after), id), tasks)
  {
    BackfillAgain(before, stopped, after, ids, k, DayPlan(tasks, order));
    DayView(tasks, order);
  }
}
