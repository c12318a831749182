/** The life of a row: what the upsert keeps from the first write and takes from the last. */
module History {
  import opened Wrappers
  import opened Values
  import opened Lineage
  import opened RunLog

  /** The records written under one primary key, in order. */
  function RecordsFor(log: seq<Write>, key: TaskKey): seq<TaskRunRecord> {
    if log == [] then []
    else
      var before := RecordsFor(log[..|log| - 1], key);
      match log[|log| - 1]
      case TaskWrite(rec) => if (rec.runId, rec.taskId) == key then before + [rec] else before
      case EdgeWrite(_, _, _, _) => before
  }

  /**
   * After any writes whatever, a key has a row exactly if it was ever written; its start time is
   * that of the first record, everything else that of the last.
   */
  lemma {:induction false} UpsertHistory(log: seq<Write>, key: TaskKey)
    ensures var rows, records := Replay(NO_TABLES, log).taskRuns, RecordsFor(log, key);
            && (key in rows <==> records != [])
            && (records != [] ==>
                  var first, last := records[0], records[|records| - 1];
                  rows[key] == Row(last.state, first.startedAt, last.finishedAt, last.output))
  {
    if log == [] {
    } else {
      UpsertHistory(log[..|log| - 1], key);
    }
  }

  /** The edges table keeps the time of the first insertion. */
  lemma {:induction false} FirstInsertionStays(log: seq<Write>, i: nat, j: nat, key: EdgeKey)
    requires i <= j <= |log| && key in Replay(NO_TABLES, log[..i]).edges
    ensures key in Replay(NO_TABLES, log[..j]).edges
    ensures Replay(NO_TABLES, log[..j]).edges[key] == Replay(NO_TABLES, log[..i]).edges[key]
    decreases j
  {
    if i < j {
      FirstInsertionStays(log, i, j - 1, key);
      assert log[..j][..j - 1] == log[..j - 1];
    }
  }

  /** The clock readings of a log never go back. */
  ghost predicate ClockForward(log: seq<Write>) {
    forall i, j :: 0 <= i <= j < |log| ==> ClockOf(log[i]) <= ClockOf(log[j])
  }

  /** Every record has a finish time, that of its writing, exactly if its state is terminal. */
  ghost predicate Finished(log: seq<Write>) {
    forall i :: 0 <= i < |log| && log[i].TaskWrite? ==>
      var rec := log[i].rec;
      rec.finishedAt == if Terminal(rec.state) then Some(rec.startedAt) else None
  }

  /** All records in the log were built by `persist_state`, and its clock never went back. */
  ghost predicate RunnerLog(log: seq<Write>) {
    Finished(log) && ClockForward(log)
  }

  /** Records in the shape that runners write, in clock order, none after `now`. */
  ghost predicate Ordered(rs: seq<TaskRunRecord>, now: Time) {
    && (forall i :: 0 <= i < |rs| ==>
          rs[i].finishedAt == (if Terminal(rs[i].state) then Some(rs[i].startedAt) else None)
          && rs[i].startedAt <= now)
    && (forall i, j :: 0 <= i <= j < |rs| ==> rs[i].startedAt <= rs[j].startedAt)
  }

  lemma {:induction false} RecordsAreOrdered(log: seq<Write>, key: TaskKey, now: Time)
    requires RunnerLog(log) && forall i :: 0 <= i < |log| ==> ClockOf(log[i]) <= now
    ensures Ordered(RecordsFor(log, key), now)
  {
    if log == [] {
    } else {
      var before, last := log[..|log| - 1], log[|log| - 1];
      forall i | 0 <= i < |before| ensures ClockOf(before[i]) <= ClockOf(last) {
        assert before[i] == log[i];
      }
      RecordsAreOrdered(before, key, ClockOf(last));
      assert ClockOf(last) <= now;
    }
  }

  /**
   * Over any history of runner writes, reruns included, a row has a finish time exactly when its
   * state is terminal, and it never finished before it started.
   */
  lemma {:induction false} FinishTimes(log: seq<Write>, key: TaskKey)
    requires RunnerLog(log) && key in Replay(NO_TABLES, log).taskRuns
    ensures var row := Replay(NO_TABLES, log).taskRuns[key];
            && (row.finishedAt.Some? <==> row.state in {Succeeded, Failed, Skipped})
            && (row.finishedAt.Some? ==> row.startedAt <= row.finishedAt.value)
  {
    UpsertHistory(log, key);
    RecordsAreOrdered(log, key, ClockOf(log[|log| - 1]));
  }

  /** Every write a runner makes for its intents is of that form. */
  lemma {:induction false} StampedWritesFinish(run: string, intents: seq<Intent>, ws: seq<Write>)
    requires Follows(run, intents, ws)
    ensures Finished(ws)
  {
    forall i | 0 <= i < |ws| && ws[i].TaskWrite?
      ensures var rec := ws[i].rec; rec.finishedAt == if Terminal(rec.state) then Some(rec.startedAt) else None
    {
      assert ws[i] == Stamp(run, intents[i], ClockOf(ws[i]));
    }
  }

  /** A call of either runner keeps the log one of runner writes, whatever it wrote and however it ended. */
  lemma {:induction false} RunsKeepRunnerLog(before: seq<Write>, after: seq<Write>, run: string, intents: seq<Intent>)
    requires RunnerLog(before) && Logged(before, after, run, intents) && ClockForward(after)
    ensures RunnerLog(after)
  {
    var more := after[|before|..];
    StampedWritesFinish(run, intents, more);
    assert after == before + more;
  }

  /** One call of a runner on a store: its run id and what it wrote. */
  datatype Call = Call(run: string, written: seq<Intent>)

  /** The log of a store after calls of runners, starting from the empty log of a new store. */
  ghost predicate LogOfCalls(calls: seq<Call>, log: seq<Write>) {
    if calls == [] then log == []
    else
      var last := calls[|calls| - 1];
      exists before :: LogOfCalls(calls[..|calls| - 1], before) && Logged(before, log, last.run, last.written)
  }

  /** So the log of any store that only runners wrote to is of runner writes if its clock went forward. */
  lemma {:induction false} RunnersMakeRunnerLogs(calls: seq<Call>, log: seq<Write>)
    requires LogOfCalls(calls, log) && ClockForward(log)
    ensures RunnerLog(log)
  {
    if calls == [] {
    } else {
      var last := calls[|calls| - 1];
      var before :| LogOfCalls(calls[..|calls| - 1], before) && Logged(before, log, last.run, last.written);
      assert ClockForward(before) by { assert forall i :: 0 <= i < |before| ==> before[i] == log[i]; }
      RunnersMakeRunnerLogs(calls[..|calls| - 1], before);
      RunsKeepRunnerLog(before, log, last.run, last.written);
    }
  }
}
