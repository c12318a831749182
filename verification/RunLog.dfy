/** How a run's writes reach the store's log, one intent at a time, and what a failing write leaves. */
module RunLog {
  import opened Wrappers
  import opened Values
  import opened Lineage
  import opened RunPlan
  import DagCore
  import DagSpec

  /** Why a run ends without a report. */
  datatype RunError =
    | Rejected(error: DagCore.DagError)
    | BadResources(reason: DagSpec.BuildError)
    | StoreFailed
    | ScratchFailed
    | BinaryMissing
    | ValidateNotRun
    | ValidateFailed
    | GraphNotRun

  /** The log grew by these intents, stamped. */
  ghost predicate Logged(before: seq<Write>, after: seq<Write>, run: string, intents: seq<Intent>) {
    before <= after && Follows(run, intents, after[|before|..])
  }

  lemma {:induction false} LoggedInTurn(a: seq<Write>, b: seq<Write>, c: seq<Write>, run: string, x: seq<Intent>,
                                        y: seq<Intent>)
    requires Logged(a, b, run, x) && Logged(b, c, run, y)
    ensures Logged(a, c, run, x + y)
  {
    assert c[|a|..] == b[|a|..] + c[|b|..];
  }

  /** The next so many writes will be accepted. */
  ghost predicate Accepted(accepts: nat -> bool, from: nat, count: nat) {
    forall n: nat :: from <= n < from + count ==> accepts(n)
  }

  /**
   * The store took these intents one by one, stamped, and, if a write was refused, it was the next
   * one and the last that was tried.
   */
  ghost predicate Wrote(accepts: nat -> bool, before: Journal, after: Journal, run: string, intents: seq<Intent>,
                        refused: bool) {
    && Logged(before.log, after.log, run, intents)
    && Accepted(accepts, before.attempts, |intents|)
    && after.attempts == before.attempts + |intents| + (if refused then 1 else 0)
    && (refused ==> !accepts(before.attempts + |intents|))
  }

  lemma {:induction false} WroteInTurn(accepts: nat -> bool, a: Journal, b: Journal, c: Journal, run: string,
                                       x: seq<Intent>, y: seq<Intent>, refused: bool)
    requires Wrote(accepts, a, b, run, x, false) && Wrote(accepts, b, c, run, y, refused)
    ensures Wrote(accepts, a, c, run, x + y, refused)
  {
    LoggedInTurn(a.log, b.log, c.log, run, x, y);
  }

  /** Writing a prefix of a plan, with a refusal only before its end, goes through exactly if nothing is refused. */
  lemma {:induction false} RefusedMeansNotAccepted(accepts: nat -> bool, before: Journal, after: Journal, run: string,
                                                   written: seq<Intent>, refused: bool, plan: seq<Intent>)
    requires Wrote(accepts, before, after, run, written, refused)
    requires |written| <= |plan| && (refused ==> |written| < |plan|) && (!refused ==> |written| == |plan|)
    ensures Accepted(accepts, before.attempts, |plan|) <==> !refused
  {
  }

  /** Whether a call ended because the store refused a write. */
  predicate Refused<T>(r: Result<T, RunError>) {
    r.Failure? && r.error.StoreFailed?
  }

  /** `persist_state`: one row at the current time. */
  method PersistState(lineage: LineageStore, runId: string, taskId: string, state: TaskState, output: Option<Json>)
    returns (r: Result<DagCore.Unit, RunError>)
    requires lineage.Valid()
    modifies lineage
    ensures lineage.Valid()
    ensures Wrote(lineage.accepts, old(lineage.Past()), lineage.Past(), runId,
                  if r.Success? then [Mark(taskId, state, output)] else [], Refused(r))
    ensures r.Failure? ==> r.error == StoreFailed
  {
    var now := UtcNow();
    var finishedAt := if Terminal(state) then Some(now) else None;
    var rec := TaskRunRecord(runId, taskId, state, now, finishedAt, output);
    assert TaskWrite(rec) == Stamp(runId, Mark(taskId, state, output), now);
    var written := lineage.RecordTaskRun(rec);
    if written.Failure? { return Failure(StoreFailed); }
    return Success(DagCore.Unit.Unit);
  }

  /** The next row of a list of rows, the ones before it being written. */
  method PersistNext(lineage: LineageStore, runId: string, taskId: string, state: TaskState, output: Option<Json>,
                     ghost before: Journal, ghost marks: seq<Intent>, ghost k: nat)
    returns (r: Result<DagCore.Unit, RunError>)
    requires lineage.Valid() && k < |marks| && marks[k] == Mark(taskId, state, output)
    requires Wrote(lineage.accepts, before, lineage.Past(), runId, marks[..k], false)
    modifies lineage
    ensures lineage.Valid()
    ensures Wrote(lineage.accepts, before, lineage.Past(), runId, if r.Success? then marks[..k + 1] else marks[..k],
                  Refused(r))
    ensures r.Failure? ==> r.error == StoreFailed
  {
    ghost var mid := lineage.Past();
    r := PersistState(lineage, runId, taskId, state, output);
    ghost var more := if r.Success? then [marks[k]] else [];
    WroteInTurn(lineage.accepts, before, mid, lineage.Past(), runId, marks[..k], more, Refused(r));
    assert marks[..k] + more == if r.Success? then marks[..k + 1] else marks[..k];
  }

  lemma {:induction false} NothingWritten(accepts: nat -> bool, before: Journal, run: string)
    ensures Wrote(accepts, before, before, run, [], false)
  {
  }

  /** One edge row. */
  method RecordLink(lineage: LineageStore, runId: string, upstream: string, downstream: string)
    returns (r: Result<DagCore.Unit, RunError>)
    requires lineage.Valid()
    modifies lineage
    ensures lineage.Valid()
    ensures Wrote(lineage.accepts, old(lineage.Past()), lineage.Past(), runId,
                  if r.Success? then [Link(upstream, downstream)] else [], Refused(r))
    ensures r.Failure? ==> r.error == StoreFailed
  {
    var written := lineage.RecordEdge(runId, upstream, downstream);
    if written.Failure? { return Failure(StoreFailed); }
    return Success(DagCore.Unit.Unit);
  }

  /** All the edge rows of a run, in order. */
  method RecordLinks(lineage: LineageStore, runId: string, pairs: seq<(string, string)>)
    returns (r: Result<DagCore.Unit, RunError>, ghost written: seq<Intent>)
    requires lineage.Valid()
    modifies lineage
    ensures lineage.Valid()
    ensures Wrote(lineage.accepts, old(lineage.Past()), lineage.Past(), runId, written, Refused(r))
    ensures written <= Links(pairs) && (r.Success? ==> written == Links(pairs))
    ensures r.Failure? ==> r.error == StoreFailed && |written| < |pairs|
  {
    ghost var links, before := Links(pairs), lineage.Past();
    written := [];
    for k := 0 to |pairs|
      invariant lineage.Valid() && written == links[..k]
      invariant Wrote(lineage.accepts, before, lineage.Past(), runId, written, false)
    {
      ghost var mid := lineage.Past();
      r := RecordLink(lineage, runId, pairs[k].0, pairs[k].1);
      ghost var more := if r.Success? then [links[k]] else [];
      WroteInTurn(lineage.accepts, before, mid, lineage.Past(), runId, written, more, Refused(r));
      written := written + more;
      if r.Failure? { return; }
    }
    r := Success(DagCore.Unit.Unit);
  }
}
