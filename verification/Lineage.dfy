/**
 * The lineage store: two tables with primary keys, an upsert and an insert-or-ignore. Its contents
 * are the replay of the writes it has accepted, and a run's rows without their timestamps form a
 * view on which a run acts by a list of intended writes.
 */
module Lineage {
  import opened Wrappers
  import opened Sorting
  import opened Values
  import DagCore

  type Time = int

  datatype TaskRunRecord = TaskRunRecord(
    runId: string, taskId: string, state: TaskState,
    startedAt: Time, finishedAt: Option<Time>, output: Option<Json>)

  datatype Row = Row(state: TaskState, startedAt: Time, finishedAt: Option<Time>, output: Option<Json>)

  type TaskKey = (string, string)
  type EdgeKey = (string, string, string)

  datatype Tables = Tables(taskRuns: map<TaskKey, Row>, edges: map<EdgeKey, Time>)

  const NO_TABLES := Tables(map[], map[])

  // ---------- writes ----------

  datatype Write =
    | TaskWrite(rec: TaskRunRecord)
    | EdgeWrite(runId: string, upstream: string, downstream: string, at: Time)

  /** INSERT .. ON CONFLICT DO UPDATE: a conflicting row keeps its started_at. */
  function Upsert(rows: map<TaskKey, Row>, rec: TaskRunRecord): map<TaskKey, Row> {
    var key := (rec.runId, rec.taskId);
    var startedAt := if key in rows then rows[key].startedAt else rec.startedAt;
    rows[key := Row(rec.state, startedAt, rec.finishedAt, rec.output)]
  }

  /** INSERT OR IGNORE. */
  function InsertOrIgnore(edges: map<EdgeKey, Time>, key: EdgeKey, at: Time): map<EdgeKey, Time> {
    if key in edges then edges else edges[key := at]
  }

  function Apply(tb: Tables, w: Write): Tables {
    match w
    case TaskWrite(rec) => tb.(taskRuns := Upsert(tb.taskRuns, rec))
    case EdgeWrite(run, up, down, at) => tb.(edges := InsertOrIgnore(tb.edges, (run, up, down), at))
  }

  function Replay(tb: Tables, ws: seq<Write>): Tables {
    if ws == [] then tb else Apply(Replay(tb, ws[..|ws| - 1]), ws[|ws| - 1])
  }

  lemma {:induction false} ReplayAppend(tb: Tables, a: seq<Write>, b: seq<Write>)
    ensures Replay(tb, a + b) == Replay(Replay(tb, a), b)
  {
    if b == [] {
      assert a + b == a;
    } else {
      ReplayAppend(tb, a, b[..|b| - 1]);
      assert (a + b)[..|a + b| - 1] == a + b[..|b| - 1];
    }
  }

  // ---------- intended writes and timestamps ----------

  /** A write of a run without its run id and timestamp. */
  datatype Intent =
    | Mark(task: string, state: TaskState, output: Option<Json>)
    | Link(upstream: string, downstream: string)

  /** The record `persist_state` builds, and the row `record_edge` builds, at a clock reading. */
  function Stamp(run: string, i: Intent, at: Time): Write {
    match i
    case Mark(task, state, output) =>
      TaskWrite(TaskRunRecord(run, task, state, at, if Terminal(state) then Some(at) else None, output))
    case Link(up, down) => EdgeWrite(run, up, down, at)
  }

  function ClockOf(w: Write): Time {
    match w
    case TaskWrite(rec) => rec.startedAt
    case EdgeWrite(_, _, _, at) => at
  }

  /** The writes carry out the intents one by one, each at its own clock reading. */
  ghost predicate Follows(run: string, intents: seq<Intent>, ws: seq<Write>) {
    && |ws| == |intents|
    && forall i :: 0 <= i < |ws| ==> ws[i] == Stamp(run, intents[i], ClockOf(ws[i]))
  }

  // ---------- views ----------

  datatype Cell = Cell(state: TaskState, output: Option<Json>)

  /** One run's rows without timestamps. */
  datatype RunView = RunView(rows: map<string, Cell>, edges: set<(string, string)>)

  const EMPTY_VIEW := RunView(map[], {})

  function TaskIds(tb: Tables, run: string): set<string> {
    set k | k in tb.taskRuns && k.0 == run :: k.1
  }

  function View(tb: Tables, run: string): RunView {
    RunView(
      map t | t in TaskIds(tb, run) :: Cell(tb.taskRuns[(run, t)].state, tb.taskRuns[(run, t)].output),
      set k | k in tb.edges && k.0 == run :: (k.1, k.2))
  }

  lemma {:induction false} ViewMeaning(tb: Tables, run: string)
    ensures forall t :: t in View(tb, run).rows <==> (run, t) in tb.taskRuns
    ensures forall t :: t in View(tb, run).rows ==>
              View(tb, run).rows[t] == Cell(tb.taskRuns[(run, t)].state, tb.taskRuns[(run, t)].output)
    ensures forall u, d :: (u, d) in View(tb, run).edges <==> (run, u, d) in tb.edges
  {
    forall t | (run, t) in tb.taskRuns ensures t in TaskIds(tb, run) {
      assert (run, t).1 == t;
    }
    forall u, d | (run, u, d) in tb.edges ensures (u, d) in View(tb, run).edges {
      var k := (run, u, d);
      assert (k.1, k.2) == (u, d);
    }
  }

  lemma {:induction false} ViewsEqual(a: RunView, b: RunView)
    requires forall t :: t in a.rows <==> t in b.rows
    requires forall t :: t in a.rows ==> a.rows[t] == b.rows[t]
    requires forall u, d :: (u, d) in a.edges <==> (u, d) in b.edges
    ensures a == b
  {
    assert a.rows == b.rows;
    forall e ensures e in a.edges <==> e in b.edges { assert e == (e.0, e.1); }
  }

  function PlayOne(v: RunView, i: Intent): RunView {
    match i
    case Mark(task, state, output) => v.(rows := v.rows[task := Cell(state, output)])
    case Link(up, down) => v.(edges := v.edges + {(up, down)})
  }

  function Play(v: RunView, s: seq<Intent>): RunView {
    if s == [] then v else PlayOne(Play(v, s[..|s| - 1]), s[|s| - 1])
  }

  lemma {:induction false} PlayAppend(v: RunView, a: seq<Intent>, b: seq<Intent>)
    ensures Play(v, a + b) == Play(Play(v, a), b)
  {
    if b == [] {
      assert a + b == a;
    } else {
      PlayAppend(v, a, b[..|b| - 1]);
      assert (a + b)[..|a + b| - 1] == a + b[..|b| - 1];
    }
  }

  function Merge(v: RunView, w: RunView): RunView {
    RunView(v.rows + w.rows, v.edges + w.edges)
  }

  /** Playing intents overlays what they would write on an empty view. */
  lemma {:induction false} PlayIsOverlay(v: RunView, s: seq<Intent>)
    ensures Play(v, s) == Merge(v, Play(EMPTY_VIEW, s))
  {
    if s == [] {
    } else {
      PlayIsOverlay(v, s[..|s| - 1]);
    }
  }

  /** One stamped write acts on its run's view as its intent does. */
  lemma {:induction false} ApplyActsOnView(tb: Tables, run: string, i: Intent, at: Time)
    ensures View(Apply(tb, Stamp(run, i, at)), run) == PlayOne(View(tb, run), i)
  {
    var after := Apply(tb, Stamp(run, i, at));
    ViewMeaning(tb, run);
    ViewMeaning(after, run);
    match i
    case Mark(_, _, _) => ViewsEqual(View(after, run), PlayOne(View(tb, run), i));
    case Link(_, _) => ViewsEqual(View(after, run), PlayOne(View(tb, run), i));
  }

  /** All rows and edges of a run, timestamps included, are the same in both tables. */
  ghost predicate SameRun(a: Tables, b: Tables, run: string) {
    && (forall k :: k in a.taskRuns && k.0 == run ==> k in b.taskRuns && b.taskRuns[k] == a.taskRuns[k])
    && (forall k :: k in b.taskRuns && k.0 == run ==> k in a.taskRuns)
    && (forall k :: k in a.edges && k.0 == run ==> k in b.edges && b.edges[k] == a.edges[k])
    && (forall k :: k in b.edges && k.0 == run ==> k in a.edges)
  }

  lemma {:induction false} SameRunSameView(a: Tables, b: Tables, run: string)
    requires SameRun(a, b, run)
    ensures View(a, run) == View(b, run)
  {
    ViewMeaning(a, run);
    ViewMeaning(b, run);
    forall u, d ensures (u, d) in View(a, run).edges <==> (u, d) in View(b, run).edges {
      assert (run, u, d).0 == run;
    }
    forall t ensures t in View(a, run).rows <==> t in View(b, run).rows { assert (run, t).0 == run; }
    ViewsEqual(View(a, run), View(b, run));
  }

  lemma {:induction false} ApplySparesOtherRuns(tb: Tables, run: string, i: Intent, at: Time, other: string)
    requires other != run
    ensures SameRun(tb, Apply(tb, Stamp(run, i, at)), other)
  {
  }

  lemma {:induction false} SameRunTransitive(a: Tables, b: Tables, c: Tables, run: string)
    requires SameRun(a, b, run) && SameRun(b, c, run)
    ensures SameRun(a, c, run)
  {
  }

  /** A run's writes act on its own view as its intents do. */
  lemma {:induction false} ReplayActsOnView(tb: Tables, run: string, intents: seq<Intent>, ws: seq<Write>)
    requires Follows(run, intents, ws)
    ensures View(Replay(tb, ws), run) == Play(View(tb, run), intents)
  {
    if ws == [] {
    } else {
      var n := |ws| - 1;
      ReplayActsOnView(tb, run, intents[..n], ws[..n]);
      assert ws[n] == Stamp(run, intents[n], ClockOf(ws[n]));
      ApplyActsOnView(Replay(tb, ws[..n]), run, intents[n], ClockOf(ws[n]));
    }
  }

  /** Every other run keeps all its rows and edges, timestamps included. */
  lemma {:induction false} ReplaySparesOtherRuns(tb: Tables, run: string, intents: seq<Intent>, ws: seq<Write>,
                                        other: string)
    requires Follows(run, intents, ws) && other != run
    ensures SameRun(tb, Replay(tb, ws), other)
  {
    if ws == [] {
    } else {
      var n := |ws| - 1;
      var mid, at := Replay(tb, ws[..n]), ClockOf(ws[n]);
      ReplaySparesOtherRuns(tb, run, intents[..n], ws[..n], other);
      assert ws[n] == Stamp(run, intents[n], at);
      ApplySparesOtherRuns(mid, run, intents[n], at, other);
      SameRunTransitive(tb, mid, Replay(tb, ws), other);
    }
  }

  // ---------- queries ----------

  function EdgeKeys(tb: Tables, run: Option<string>): set<EdgeKey> {
    set k | k in tb.edges && (run == None || k.0 == run.value)
  }

  function UpstreamOf(tb: Tables, run: string, task: string): seq<string> {
    SortIds(set k | k in tb.edges && k.0 == run && k.2 == task :: k.1)
  }

  function DownstreamOf(tb: Tables, run: string, task: string): seq<string> {
    SortIds(set k | k in tb.edges && k.0 == run && k.1 == task :: k.2)
  }

  /** Both queries read the run's edges, sorted and without repeats, so they are dual. */
  lemma {:induction false} QueriesAreDual(tb: Tables, run: string, u: string, d: string)
    ensures u in UpstreamOf(tb, run, d) <==> (u, d) in View(tb, run).edges
    ensures d in DownstreamOf(tb, run, u) <==> (u, d) in View(tb, run).edges
    ensures u in UpstreamOf(tb, run, d) <==> d in DownstreamOf(tb, run, u)
    ensures Ascending(Before, UpstreamOf(tb, run, d)) && Ascending(Before, DownstreamOf(tb, run, u))
  {
    ViewMeaning(tb, run);
    if (run, u, d) in tb.edges {
      var k := (run, u, d);
      assert k.1 == u && k.2 == d;
    }
  }

  lemma {:induction false} EdgeCountIsViewSize(tb: Tables, run: string)
    ensures |EdgeKeys(tb, Some(run))| == |View(tb, run).edges|
  {
    ProjectionCardinality(EdgeKeys(tb, Some(run)), run);
    var keys := EdgeKeys(tb, Some(run));
    assert View(tb, run).edges == set k | k in keys :: (k.1, k.2);
  }

  lemma {:induction false} ProjectionCardinality(keys: set<EdgeKey>, run: string)
    requires forall k :: k in keys ==> k.0 == run
    ensures |set k | k in keys :: (k.1, k.2)| == |keys|
    decreases |keys|
  {
    if keys == {} {
    } else {
      var x :| x in keys;
      var rest := keys - {x};
      ProjectionCardinality(rest, run);
      forall k | k in rest ensures (k.1, k.2) != (x.1, x.2) {
        assert k == (run, k.1, k.2) && x == (run, x.1, x.2);
      }
      assert (set k | k in keys :: (k.1, k.2)) == (set k | k in rest :: (k.1, k.2)) + {(x.1, x.2)};
    }
  }

  // ---------- the store ----------

  datatype StoreError = StoreError

  /** A reading of the wall clock, about which nothing is known. */
  method UtcNow() returns (now: Time) {
    now := *;
  }

  /** What a client can tell of the store's past: the accepted writes, and how many were tried. */
  datatype Journal = Journal(log: seq<Write>, attempts: nat)

  class LineageStore {
    /** Whether the database accepts the n-th write that is tried. */
    const accepts: nat -> bool
    var attempts: nat
    var taskRuns: map<TaskKey, Row>
    var lineageEdges: map<EdgeKey, Time>
    /** Every write the store has accepted. */
    ghost var log: seq<Write>

    function Contents(): Tables
      reads this
    {
      Tables(taskRuns, lineageEdges)
    }

    ghost predicate Valid()
      reads this
    {
      Contents() == Replay(NO_TABLES, log)
    }

    ghost function Past(): Journal
      reads this
    {
      Journal(log, attempts)
    }

    constructor (accepts: nat -> bool)
      ensures Valid() && Past() == Journal([], 0) && Contents() == NO_TABLES && this.accepts == accepts
    {
      this.accepts, attempts := accepts, 0;
      taskRuns, lineageEdges, log := map[], map[], [];
    }

    /** A write fails exactly if the database refuses it, and then it changes nothing. */
    method RecordTaskRun(rec: TaskRunRecord) returns (r: Result<DagCore.Unit, StoreError>)
      requires Valid()
      modifies this
      ensures Valid() && attempts == old(attempts) + 1
      ensures r.Success? <==> accepts(old(attempts))
      ensures r.Success? ==> log == old(log) + [TaskWrite(rec)]
      ensures r.Failure? ==> log == old(log)
      ensures Contents() == if r.Success? then Apply(old(Contents()), TaskWrite(rec)) else old(Contents())
    {
      attempts := attempts + 1;
      if !accepts(attempts - 1) { return Failure(StoreError); }
      var key := (rec.runId, rec.taskId);
      if key in taskRuns {
        var row := taskRuns[key];
        taskRuns := taskRuns[key := row.(state := rec.state, finishedAt := rec.finishedAt, output := rec.output)];
      } else {
        taskRuns := taskRuns[key := Row(rec.state, rec.startedAt, rec.finishedAt, rec.output)];
      }
      ReplayAppend(NO_TABLES, log, [TaskWrite(rec)]);
      log := log + [TaskWrite(rec)];
      return Success(DagCore.Unit.Unit);
    }

    method RecordEdge(run: string, upstream: string, downstream: string)
      returns (r: Result<DagCore.Unit, StoreError>)
      requires Valid()
      modifies this
      ensures Valid() && attempts == old(attempts) + 1
      ensures r.Success? <==> accepts(old(attempts))
      ensures r.Success? ==> exists at :: log == old(log) + [Stamp(run, Link(upstream, downstream), at)]
      ensures r.Failure? ==> log == old(log)
    {
      attempts := attempts + 1;
      if !accepts(attempts - 1) { return Failure(StoreError); }
      var now := UtcNow();
      var key := (run, upstream, downstream);
      if key !in lineageEdges {
        lineageEdges := lineageEdges[key := now];
      }
      ghost var w := Stamp(run, Link(upstream, downstream), now);
      ReplayAppend(NO_TABLES, log, [w]);
      log := log + [w];
      return Success(DagCore.Unit.Unit);
    }

    function EdgeCount(run: Option<string>): (n: nat)
      reads this
      ensures run.Some? ==> n == |View(Contents(), run.value).edges|
      ensures run.None? ==> n == |lineageEdges|
    {
      assert EdgeKeys(Contents(), None) == lineageEdges.Keys;
      if run.Some? then EdgeCountIsViewSize(Contents(), run.value); |EdgeKeys(Contents(), run)|
      else |EdgeKeys(Contents(), run)|
    }

    function QueryUpstream(run: string, task: string): (r: seq<string>)
      reads this
      ensures Ascending(Before, r)
      ensures forall u :: u in r <==> (run, u, task) in lineageEdges
    {
      ViewMeaning(Contents(), run);
      UpstreamMembers(Contents(), run, task);
      UpstreamOf(Contents(), run, task)
    }

    function QueryDownstream(run: string, task: string): (r: seq<string>)
      reads this
      ensures Ascending(Before, r)
      ensures forall d :: d in r <==> (run, task, d) in lineageEdges
    {
      ViewMeaning(Contents(), run);
      DownstreamMembers(Contents(), run, task);
      DownstreamOf(Contents(), run, task)
    }
  }

  lemma {:induction false} UpstreamMembers(tb: Tables, run: string, task: string)
    ensures forall u :: u in UpstreamOf(tb, run, task) <==> (run, u, task) in tb.edges
  {
    ViewMeaning(tb, run);
    forall u { QueriesAreDual(tb, run, u, task); }
  }

  lemma {:induction false} DownstreamMembers(tb: Tables, run: string, task: string)
    ensures forall d :: d in DownstreamOf(tb, run, task) <==> (run, task, d) in tb.edges
  {
    ViewMeaning(tb, run);
    forall d { QueriesAreDual(tb, run, task, d); }
  }
}
