# A verified model of the workflow orchestration engine

This Dafny project models the orchestration engine of the repository — the DAG layer, the two runners, the
lineage store, the Mermaid rendering and the backfill command — and proves what its parts promise together.
`dafny verify dfyconfig.toml` checks everything.

## The system that is modelled

**Graphs.** `Digraph` defines paths, cycles and valid topological orders. `DagCore` is `Dag<T>`: a class that grows by
nodes and edges and rejects unknown endpoints and repeated edges, but not self-loops, which only the cycle check
rejects. Its sort is Kahn's algorithm over an array of in-degrees, its cycle check an independent three-colour
depth-first search. `DagSpec` is the specification by task ids and `build`; the loop that turns dependencies into edges,
which is the same in the three builders, is written once as `Connect`.

**Runs.** `Tasks` has the context and task bodies, which are arbitrary deterministic functions of the context's bag that
may publish values themselves and return a value or a message. `LocalRunner` is the in-process runner with its loop over
the order. What it computes is specified by `RunOver`, what it writes by `Script` (both in `RunPlan`). `ForjarRunner`
hands the DAG to a CLI that is an oracle with three answers. `RunLog` says how a run's writes reach the store.

**Lineage.** `Lineage` is the store, two maps keyed by the primary keys of the schema; the database may refuse any
write, and a refused write changes nothing. A ghost log holds every accepted write, and the tables are always the replay
of the log. A write of a run without run id and timestamp is an `Intent`; a run's rows without timestamps are a
`RunView`; playing intents on a view is what replaying the stamped writes does to the tables. This separates what a run
stores from the clock and from other runs, and it makes "stopped between two writes" a prefix of a list.

**What is proved about runs.** `Schedule` evaluates a DAG by recursion over ancestors and shows that every fail-fast run
over every valid order refines that evaluation. `Recovery` has the agreement of store and report, the invariant of every
intermediate state, and crash-and-rerun convergence; `ForjarRecovery` has the same for the forjar runner and for both
runners mixed under one run id. `Queries` relates the lineage queries to the graph. `Duplicates` says what repeated ids
break. `StoreAfterRun` says what a client finds in the store object. `History` is the life of a row under the upsert.
`Equivalence` relates the three builders and the two runners. `DagCli` is the runnable DAG and the backfill loop,
`Mermaid` and `MermaidText` the rendering and its decoding, `MermaidCollisions` the runs that share a text.

### Parameters

The clock is read by a method about which nothing is known. Which writes the store takes is a function `accepts` of the
number of the attempt, and for which run ids the scratch directory can be made is a function `scratch`; both are
arbitrary. So failures are as free as in the program, and it can be said exactly when a run or a backfill completes. The
CLI's answers are the three fields of `Forjar`. The run id of a calendar day is a function `dateId`; where distinct days
must have distinct ids, that is a hypothesis.

### The order of the sort

The body of petgraph's `toposort` is not part of this model. `SortedOrder` takes the least ready node, which is this
model's own choice and not a claim about the program; the contracts of the methods that sort name it, because they must
say which order they return. The results about runs, about the two runners and about the stores take the order as a
parameter and hold for every valid one, also where the two runners use different ones; that they report the same order
is stated for runners that sort alike. `ChainOrderIsUnique` says when the tie-break cannot matter.

### Where the code and its documentation differ

The model follows the code.

- `DagSpec::build` does not reject orphan tasks, although README.md:115 says that the parser does:
  `Equivalence.OrphansAreAccepted` has two unrelated tasks, `Equivalence.OrphanFreeSpecs` the exact condition.
- README.md:55 says that every `Queued` transition is recorded. No runner records `Queued`
  (`Equivalence.NoRunnerQueues`).
- The help text of `backfill` promises one run per date of the closed range. That holds exactly if the start's time of
  day is not later than the end's (`DagCli.BackfillCoversRange`); with date-only bounds it always holds.
- `build_runnable_dag` has no check for duplicate ids, so `run` and `backfill` accept what `validate` rejects
  (`Equivalence.DuplicateIdIsRunnable`). With a repeated id the store can contradict the report, and they agree whatever
  the tasks do exactly if the ids are distinct (`Duplicates.AgreementNeedsDistinctIds`). Crash-and-rerun convergence and
  what a backfill stores do not depend on that.
- A forjar run whose resources the builder rejects (a cycle, say) while the CLI's `validate` accepts them stops with
  every task left `Running` (`Equivalence.ForjarOutcome`; `Equivalence.CyclicResourcesStayRunning` is such an input).
- Both runners are said to produce comparable reports. A completed in-process run with a failure has no outputs for
  the skipped tasks, while a completed forjar run has all: the output keys agree exactly if every task but the last of
  the order evaluates to a value (`Equivalence.OutputKeysAgree`), and `Equivalence.OutputKeysCanDiffer` has two tasks for
  which they do not.
- `render_mermaid` does not escape ids, so a text does not determine a drawing (`MermaidText.LineBreaksCollide`). It does
  among runs whose ids are single lines, and more generally among runs whose ids are free of the markup between two nodes
  (`MermaidCollisions.MarkupFreeRunsDiffer`). Among all runs, a text is shared exactly if its node lines can be cut in
  another way into ascending ids, as many as the edges need (`MermaidCollisions.SharesText`); for a run of one-line ids
  that is exactly if it has two nodes or more and no edge touches the last one (`MermaidCollisions.SharesTextExactly`).
  `MermaidCollisions.SharedText` says when two given runs have the same text and `MermaidCollisions.CollisionsSwallow`
  what must then be in their ids. `MermaidText.TextRoundTrip` is about one reader, which cuts at line breaks: the runs it
  reads back are exactly those with one-line ids.
- `all_succeeded` is false on an empty DAG, so a backfill of an empty specification fails on its first day.

## Model

| member | source | states |
|---|---|---|
| DagCore.Dag.constructor | crates/dag-core/src/lib.rs:80-84 | A new DAG has no nodes and no edges. |
| DagCore.Dag.AddNode | crates/dag-core/src/lib.rs:87-89 | The handle is the next index; nothing else changes. |
| DagCore.Dag.AddEdge | crates/dag-core/src/lib.rs:93-105 | Succeeds exactly for known endpoints and a new edge, self-loops included; which error is returned otherwise, in the order of the checks; a failure changes nothing; the graph stays simple. |
| DagCore.InDegrees | crates/dag-core/src/lib.rs:109-114 | Counts, for each node, the edges into it. |
| DagCore.Relax | crates/dag-core/src/lib.rs:109-114 | Taking a node turns in-degrees with respect to the taken nodes into those with one more taken. |
| DagCore.NextReady | crates/dag-core/src/lib.rs:109-114 | Finds the least untaken node without untaken predecessors, or reports that there is none. |
| DagCore.Kahn | crates/dag-core/src/lib.rs:109-114 | The array algorithm succeeds exactly on acyclic graphs, its order is valid, and a failure names a node on a cycle. |
| DagCore.Dag.TopoSort | crates/dag-core/src/lib.rs:112-114 | `Ok` exactly if no directed cycle exists; an `Ok` order has every node once and every edge forward; `Err(Cycle(n))` names a node on a cycle. |
| TopoSort.SortedOrderIsTopo | crates/dag-core/src/lib.rs:107-114 | The order as a function of the graph is valid, and complete, exactly if the graph is acyclic. |
| TopoSort.CycleNode | crates/dag-core/src/lib.rs:113 | Whenever a sort is stuck before the end, walking backwards finds a node on a cycle. |
| DagCore.Visit | crates/dag-core/src/lib.rs:118-119 | One branch of the search: it finds a cycle, or finishes the node after all its successors and keeps the search state. |
| DagCore.FinishedSearchIsAcyclic | crates/dag-core/src/lib.rs:118-119 | If every node finished after its successors, the graph has no cycle. |
| DagCore.IsCyclicDirected | crates/dag-core/src/lib.rs:119 | The depth-first search says yes exactly if there is a directed cycle. |
| DagCore.Dag.CycleCheck | crates/dag-core/src/lib.rs:118-125 | `Ok` exactly if acyclic, hence exactly when the sort is `Ok`; an error names a node on a cycle. |
| DagCore.Dag.Parents | crates/dag-core/src/lib.rs:157-161 | Exactly the sources of edges into the node, each once. |
| DagCore.Dag.Children | crates/dag-core/src/lib.rs:164-168 | Exactly the targets of edges out of the node, each once. |
| DagCore.Dag.EveryTaskReachable | crates/dag-core/src/lib.rs:172-181 | True exactly if there is at most one node or every node is an endpoint of an edge. |
| Digraph.TopoOrderImpliesAcyclic | crates/dag-core/src/lib.rs:112-125 | A graph with a valid order has no cycle, self-loops included. |
| Digraph.ChainOrderIsUnique | crates/dag-runner/src/lib.rs:40-43 | If consecutive nodes of a valid order are joined by edges, it is the only valid order, whatever the tie-break. |
| Digraph.ChainEdgeCount | contracts/dag-rust-v1.yaml:174-178 | A pure chain of n nodes has n-1 edges. |
| Digraph.EdgeBound | crates/dag-core/src/lib.rs:93-125 | A graph without repeated edges that has a valid order has at most n(n-1)/2 edges. |
| DagSpec.DeclareTasks | crates/dag-core/src/lib.rs:231-239 | One node per task and a table of their nodes, or an id that two tasks have; it stops exactly if ids repeat. |
| DagSpec.ConnectTask | crates/dag-core/src/lib.rs:241-247 | Adds the dependencies of one task as edges, or fails with an error that is really there; a duplicate edge is named by the nodes of a pair that is declared twice. |
| DagSpec.Connect | crates/dag-core/src/lib.rs:240-248 | Succeeds exactly if all dependencies are declared tasks and no pair repeats; then the graph is the described one. |
| DagSpec.Build | crates/dag-core/src/lib.rs:230-251 | Accepts exactly if ids are distinct, dependencies are known, no task repeats one, and no chain of ids is circular; yields the described graph; an error names a real defect, with the nodes of the repeated pair or a node on a cycle, and a duplicate id exactly if there is one. |
| DagSpec.DependencyMeaning | crates/dag-core/src/lib.rs:240-248 | A pair is declared exactly if some task with the second id depends on the first. |
| DagSpec.LastTaskHasEntry | crates/dag-cli/src/main.rs:208-227 | Where ids repeat, an id means the last of its nodes. |
| DagSpec.RepeatedPairs | crates/dag-core/src/lib.rs:100-102 | With distinct ids, a pair repeats exactly if one task lists a dependency twice. |
| DagSpec.CircularMeansCyclic | crates/dag-core/src/lib.rs:249 | Ids form a circular chain exactly if the graph of nodes has a cycle, even when ids repeat. |
| DagSpec.AcceptedSpecGraph | crates/dag-core/src/lib.rs:230-251 | An accepted graph is simple and acyclic, has no self-loop, an edge exactly per dependency, and as many edges as `depends_on` entries. |
| Tasks.Context.constructor | crates/dag-core/src/task.rs:31-37 | A context starts with an empty bag: every key reads as absent. |
| Tasks.Context.Put | crates/dag-core/src/task.rs:50-55 | The key then reads as the value, and every other key as before. |
| RunLog.PersistState | crates/dag-runner/src/local.rs:158-179 | It succeeds exactly if the store takes the write; then one row is appended, stamped now, finished exactly if terminal, and otherwise nothing. |
| Tasks.Execute | crates/dag-runner/src/local.rs:115 | The body's result, and the bag with what the body itself published. |
| RunLog.RecordLink | crates/dag-runner/src/local.rs:80-83 | It succeeds exactly if the store takes the write; then one edge row is appended, and otherwise nothing. |
| RunLog.RecordLinks | crates/dag-runner/src/local.rs:72-84 | The edge rows in order, cut off at the first refused write, which is the last one tried. |
| LocalRunner.LocalRunner.FinishTask | crates/dag-runner/src/local.rs:115-139 | The body and its one terminal row: bag, states, outputs and failure flag afterwards, unless the store refuses the row. |
| LocalRunner.LocalRunner.ExecuteTask | crates/dag-runner/src/local.rs:110-140 | Running, the body, then the terminal row; bag, states, outputs and failure flag afterwards; a failed task gets an output too; a refused write, and nothing else, cuts the rows off. |
| LocalRunner.LocalRunner.RunTask | crates/dag-runner/src/local.rs:98-141 | The loop body advances the run's specification by one task, or writes a prefix of its rows because the store refused the next. |
| LocalRunner.LocalRunner.RunInOrder | crates/dag-runner/src/local.rs:86-153 | The walk over the order writes the whole script and returns the specified report, unless the scratch directory cannot be made or the store refuses the write after the prefix that was written. |
| LocalRunner.LocalRunner.Run | crates/dag-runner/src/local.rs:64-154 | A run is rejected exactly if the graph is cyclic: nothing is written and the error names a node on a cycle. Otherwise it completes exactly if the scratch directory can be made and the store takes the plan, with all of edges-then-rows written and the specified report of this run id over a valid order; each error has its own cause and leaves a prefix. |
| RunPlan.OutcomeOfTask | crates/dag-runner/src/local.rs:98-141 | With distinct ids, a task's final state and output are those of its own step, later tasks notwithstanding. |
| RunPlan.ReportedValue | crates/dag-core/src/task.rs:79-86 | A task that succeeds is reported with its value as JSON: null, a number, a string, or the nested JSON itself. |
| RunPlan.ReportedFailure | crates/dag-runner/src/local.rs:126-138 | A task that fails with a message, whether or not ids repeat, is reported with an object whose only field, `error`, is that message. |
| RunPlan.FirstFailureMeaning | crates/dag-runner/src/local.rs:96-141 | The failure flag is off up to the first failing task and on ever after. |
| RunPlan.FailFast | crates/dag-runner/src/local.rs:98-141 | States along the order read Succeeded up to the first failure, Failed there, then Skipped; outputs exist exactly up to the failed task. |
| RunPlan.RunIsSettled | crates/dag-runner/src/local.rs:98-141 | Whether or not ids repeat, exactly the ids of the order have a state, all terminal, and at most one is Failed. |
| RunPlan.OutputsReach | crates/dag-runner/src/local.rs:103-137 | Every task has an output exactly if none but the last failed. |
| RunPlan.AllSucceededShape | crates/dag-runner/src/lib.rs:49-55 | Whether or not ids repeat, a report is all-succeeded exactly if there is a task and none failed. |
| RunPlan.OutputsListed | crates/dag-runner/src/lib.rs:59-65 | `outputs_in_order` lists the outputs of the tasks up to and including the failed one, in order. |
| RunPlan.ScriptWritesReport | crates/dag-runner/src/local.rs:98-141 | The rows that a run writes on a fresh run id are exactly its report's states and outputs. |
| RunPlan.EveryMoment | crates/dag-runner/src/local.rs:98-141 | After any number of row writes a prefix of tasks has its final rows and at most the next one is Running. |
| RunPlan.TerminalRowsStay | crates/dag-runner/src/local.rs:98-141 | While a run goes on, no row leaves a terminal state or changes its output. |
| RunPlan.RecordedStates | crates/dag-runner/src/local.rs:103-136 | The in-process runner records Running, Succeeded, Failed and Skipped only. |
| Schedule.FailFastOnGraph | crates/dag-runner/src/local.rs:98-141 | All transitive ancestors of a task that ran succeeded; all descendants of a failed or skipped task are Skipped. |
| Schedule.CompletedRunIsSettled | crates/dag-runner/src/local.rs:98-141 | Whether or not ids repeat, a completed run leaves every node's task terminal and at most one failed. |
| Schedule.AncestorsArePublished | crates/dag-runner/src/local.rs:115-118 | If no body writes another task's key, other keys being free: when a body executes, the context holds, under each transitive ancestor's id, the value that ancestor returned. |
| Schedule.StepRefinesEvaluation | crates/dag-runner/src/local.rs:115-139 | Each executed task returns what the recursive evaluation over its ancestors says. |
| Schedule.RunRefinesEvaluation | crates/dag-runner/src/local.rs:92-141 | Every recorded success or failure is the evaluation's, for every valid order. |
| Schedule.AllSucceededMeaning | crates/dag-runner/src/lib.rs:49-55 | A run is all-succeeded exactly if there is a task and every task evaluates to a value, independently of the order. |
| Schedule.ScheduleIndependence | crates/dag-runner/src/local.rs:92-141 | If bodies spare other tasks' keys and read only ancestors' values, two valid orders agree on all-succeeded, on the output of each task that succeeded in both, and on the whole report but its order if all succeeded. |
| Schedule.ValuesBeforeLast | crates/dag-runner/src/local.rs:98-141 | No task but the last failed exactly if every task but the last of the order evaluates to a value. |
| Recovery.AnyRunView | crates/dag-runner/src/local.rs:72-141 | On any earlier contents, and whether or not ids repeat, a completed run overwrites its tasks' rows with their last states and adds its edges. |
| Recovery.CompletedRunView | crates/dag-runner/src/local.rs:72-141 | With distinct ids these rows are those of the report. |
| Recovery.StoreAgreesWithReport | crates/dag-runner/src/local.rs:72-154 | On a fresh run id, rows match the report's states and outputs exactly, skipped rows alone lack an output, edge rows are the graph's edges, and all other runs keep every row. |
| Recovery.StoredFailure | crates/dag-runner/src/local.rs:126-138 | And that object is what its row holds after a completed run, so the message can be read back. |
| Recovery.EdgeRowsAreEdges | crates/dag-runner/src/local.rs:72-84 | With distinct ids edges and edge rows correspond one to one. |
| Recovery.EdgeCountBound | crates/dag-lineage/src/lib.rs:183-195 | Whether or not ids repeat, the store counts at most n(n-1)/2 edges for the run. |
| Recovery.EdgeCountAgrees | crates/dag-lineage/src/lib.rs:183-195 | With distinct ids it counts exactly the graph's edges. |
| Recovery.ChainRunRecords | contracts/dag-rust-v1.yaml:174-178 | A run of a pure n-task chain records n-1 edges. |
| Recovery.StepInvariant | crates/dag-runner/src/local.rs:69-141 | At every moment after the edges: all edges stored, a prefix of tasks with final rows, the next at most Running, the rest without rows. |
| Recovery.CrashedAttemptsOverlay | crates/dag-runner/src/local.rs:72-141 | Any number of attempts, of any runner, stopped anywhere, overlay only their tasks' rows and their edges, and touch no other run. |
| Recovery.CrashAndRerunConverge | crates/dag-lineage/src/lib.rs:135-179 | After any number of crashed attempts, completing a plan that covers their rows and edges leaves the states, outputs and edges of that plan alone, and no other run is touched. |
| Recovery.LocalPlanCovers | crates/dag-runner/src/local.rs:72-141 | A completed in-process run covers all its tasks and edges, whether or not ids repeat. |
| Recovery.LocalAttemptIsCrashed | crates/dag-runner/src/local.rs:72-141 | An in-process run stopped at any write, over any order and with any bodies, is such an attempt. |
| Recovery.StoppedRunIsAttempt | crates/dag-runner/src/local.rs:72-141 | What a failing call of `run` has written is one. |
| Recovery.LocalRerunConverges | crates/dag-runner/src/local.rs:72-141 | After any number of stopped in-process runs of a graph, a completed one leaves the states, outputs and edges of one uninterrupted run, whether or not ids repeat. |
| Recovery.RetryAfterFailure | crates/dag-runner/src/local.rs:72-141 | In particular after one failed run. |
| Recovery.PrefixAbsorbed | crates/dag-lineage/src/lib.rs:135-179 | Completing a plan rewrites whatever a prefix of it wrote, on any contents. |
| StoreAfterRun.RunOnFreshId | crates/dag-runner/src/local.rs:64-154 | A run of distinct ids on a fresh run id completes exactly if the graph is acyclic, the scratch directory can be made and the store takes the plan. Then the store object's rows say what the returned report says, its edges are the DAG's, its edge count is the DAG's, and other runs are unchanged. |
| StoreAfterRun.RunWithRetry | crates/dag-runner/src/local.rs:64-154 | Whatever the store held and wherever a first try stopped, a completed second try leaves the plan played once; and if the store refuses at most one write, the second try completes. |
| ForjarRecovery.ForjarStepInvariant | crates/dag-runner/src/forjar.rs:163-230 | At every moment after the edges: all edges stored, a prefix of tasks Running, then all Running but for a prefix of final rows. |
| ForjarRecovery.EitherAttemptIsCrashed | crates/dag-runner/src/forjar.rs:149-230 | A forjar run stopped at any write, under any answers of the CLI, touches only its tasks' rows and its edges. |
| ForjarRecovery.ForjarRerunConverges | crates/dag-runner/src/forjar.rs:149-230 | After stopped attempts of either runner, a forjar run that passed the probe and was not stopped by the store leaves what it leaves alone. |
| ForjarRecovery.LocalAfterEitherConverges | crates/dag-runner/src/local.rs:72-141 | And so does a completed in-process run after attempts of either runner. |
| Duplicates.RowsWithoutIdCheck | crates/dag-runner/src/local.rs:98-141 | Without any assumption on ids, the rows hold the last states, and no output where skipped. |
| Duplicates.AgreementMeaning | crates/dag-runner/src/local.rs:98-141 | Store and report agree exactly if no id is reported Skipped and also given an output. |
| Duplicates.RepeatedIdParts | crates/dag-runner/src/local.rs:98-141 | Whenever an id repeats, there are task bodies under which they part. |
| Duplicates.AgreementNeedsDistinctIds | crates/dag-runner/src/local.rs:98-141 | Store and report agree for all task bodies exactly if the ids are distinct. |
| Lineage.LineageStore.constructor | crates/dag-lineage/src/lib.rs:102-132 | A new store has empty tables and no attempts. |
| Lineage.LineageStore.RecordTaskRun | crates/dag-lineage/src/lib.rs:135-156 | A write fails exactly if the database refuses it; a success applies the upsert to the tables, a failure changes nothing. |
| Lineage.LineageStore.RecordEdge | crates/dag-lineage/src/lib.rs:160-179 | A write fails exactly if the database refuses it; a success appends one insert-or-ignore at some time, a failure nothing; the tables stay the replay of the log. |
| Lineage.LineageStore.EdgeCount | crates/dag-lineage/src/lib.rs:183-195 | The number of edges of a run, or of all runs. |
| Lineage.LineageStore.QueryUpstream | crates/dag-lineage/src/lib.rs:198-211 | The stored upstream ids of the task in the run, strictly sorted. |
| Lineage.LineageStore.QueryDownstream | crates/dag-lineage/src/lib.rs:214-227 | The stored downstream ids of the task in the run, strictly sorted. |
| Lineage.QueriesAreDual | crates/dag-lineage/src/lib.rs:198-227 | A task is upstream of another exactly if the other is downstream of it; both lists are strictly sorted. |
| Lineage.EdgeCountIsViewSize | crates/dag-lineage/src/lib.rs:184-188 | Counting rows of a run counts its edges. |
| Lineage.ReplayActsOnView | crates/dag-lineage/src/lib.rs:135-179 | Stamped writes of a run act on its states, outputs and edges as the intents do, whatever the clock. |
| Lineage.ReplaySparesOtherRuns | crates/dag-lineage/src/lib.rs:105-126 | They leave all rows and edges of other runs unchanged, timestamps included. |
| Lineage.PlayIsOverlay | crates/dag-lineage/src/lib.rs:135-179 | Writing over earlier contents equals overlaying what would be written on nothing. |
| History.UpsertHistory | crates/dag-lineage/src/lib.rs:135-156 | After any writes a row exists exactly if written, has `started_at` of the first record and everything else of the last. |
| History.FirstInsertionStays | crates/dag-lineage/src/lib.rs:160-179 | An edge keeps the time of its first insertion forever. |
| History.FinishTimes | crates/dag-runner/src/local.rs:165-177 | Over any history with a clock that does not go back, reruns included, a row is finished exactly if Succeeded, Failed or Skipped, and not before it started. |
| History.StampedWritesFinish | crates/dag-runner/src/forjar.rs:249-261 | The records that a runner writes for its intents have a finish time exactly if terminal. |
| History.RunsKeepRunnerLog | crates/dag-runner/src/local.rs:158-179 | Any call of a runner, however it ends, keeps the log in the form that this needs. |
| History.RunnersMakeRunnerLogs | crates/dag-runner/src/forjar.rs:242-263 | So does every sequence of calls of the runners on a new store, if the clock does not go back. |
| ForjarRunner.AddResources | crates/dag-runner/src/forjar.rs:272-277 | One node per resource key, with a table of their nodes. |
| ForjarRunner.TopoOrderFromResources | crates/dag-runner/src/forjar.rs:268-290 | Accepts exactly known, unrepeated, non-circular dependencies; returns the ids in the order of the sort. |
| ForjarRunner.KindOfResource | crates/dag-runner/src/forjar.rs:221-225 | The kind in a payload is the resource's declared type, or "unknown". |
| ForjarRunner.ForjarRunner.RecordEdges | crates/dag-runner/src/forjar.rs:149-161 | The declared pairs as edge rows, in order, cut off at the first refused write. |
| ForjarRunner.ForjarRunner.PersistAll | crates/dag-runner/src/forjar.rs:167-170 | The same state for every resource, in order, cut off at the first refused write. |
| ForjarRunner.ForjarRunner.PersistOrder | crates/dag-runner/src/forjar.rs:212-237 | Succeeded and its payload for every id of the order, with the matching report, cut off at the first refused write. |
| ForjarRunner.ForjarRunner.ValidateAndFinish | crates/dag-runner/src/forjar.rs:176-237 | What is written after Running under each answer of the CLI, and which report or error results. |
| ForjarRunner.ForjarRunner.StartAndFinish | crates/dag-runner/src/forjar.rs:167-237 | The rows from Running on, all of them unless the store refused one. |
| ForjarRunner.ForjarRunner.Run | crates/dag-runner/src/forjar.rs:142-238 | All of the plan is written unless the store refuses a write of it; the run completes exactly if the CLI answers well, the resources build and the store takes the plan; each other answer has its own error. |
| Equivalence.ForjarOutcome | crates/dag-runner/src/forjar.rs:149-230 | What a whole plan leaves: edges in any case, rows only after the probe, then one common state: Succeeded with a payload each, Failed, or stuck in Running. |
| Equivalence.ForjarPayloads | crates/dag-runner/src/forjar.rs:218-231 | A completed run reports and stores, for every resource, the object of its own id and its declared type, or "unknown". |
| Equivalence.CyclicResourcesStayRunning | crates/dag-runner/src/forjar.rs:163-212 | A resource that depends on itself is left Running. |
| Equivalence.BuildersAgree | crates/dag-cli/src/main.rs:205-232 | `build` accepts exactly what the other two builders accept among specifications with distinct ids. |
| Equivalence.DuplicateIdIsRunnable | crates/dag-cli/src/main.rs:208-218 | The runnable DAG accepts a repeated id. |
| Equivalence.OrphansAreAccepted | README.md:115 | Two unrelated tasks are accepted although the documentation says orphans are rejected. |
| Equivalence.OrphanFreeSpecs | crates/dag-core/src/lib.rs:170-181 | An accepted specification has no orphan exactly if every task has a dependency or is one. |
| Equivalence.NoRunnerQueues | README.md:55 | Neither runner ever records Queued. |
| Equivalence.RunnersAgree | crates/dag-runner/src/forjar.rs:207-237 | For every accepted specification and any valid orders, completed runs of both runners report the same task ids, the same order if they sorted alike, the same output keys exactly if no task but the last failed, and the same states if all succeeded. |
| Equivalence.OutputKeysAgree | crates/dag-runner/src/forjar.rs:214-230 | The output keys agree exactly if every task but the last of the order evaluates to a value. |
| Equivalence.OutputKeysCanDiffer | crates/dag-runner/src/local.rs:103-108 | Two tasks of which the first fails: the runners report different output keys. |
| Equivalence.LocalOutcome | crates/dag-runner/src/local.rs:72-154 | A completed in-process run on a fresh id stores the declared pairs, a row per task, and as many edges as the graph has, whether or not ids repeat. |
| Equivalence.LineageAgrees | crates/dag-runner/src/forjar.rs:149-161 | On their own fresh run ids and over their own orders both runners leave the same edges, the same task ids and the same edge count. |
| Equivalence.RenderingsAgree | crates/dag-lineage/src/lib.rs:282-311 | And their runs render as the same text. |
| Equivalence.PairsAreDependencies | crates/dag-runner/src/local.rs:72-84 | The edge rows of a specification's DAG are the declared pairs, in declaration order. |
| Queries.UpstreamIsParents | crates/dag-lineage/src/lib.rs:198-211 | Where a graph's edges are stored, the upstream answer is the sorted list of the parents' ids, nothing more or less. |
| Queries.DownstreamIsChildren | crates/dag-lineage/src/lib.rs:214-227 | And the downstream answer that of the children's ids. |
| Queries.QueriesMatchGraph | crates/dag-lineage/src/lib.rs:198-227 | After a completed run the queries are exactly the sorted ids of parents and children, and no task is an orphan exactly if each task has a non-empty answer. |
| DagCli.AddTasks | crates/dag-cli/src/main.rs:208-218 | One task node per entry that returns its own id, no duplicate check. |
| DagCli.BuildRunnableDag | crates/dag-cli/src/main.rs:205-232 | Accepts exactly known, unrepeated, non-circular dependencies and yields the described graph. |
| DagCli.EchoRun | crates/dag-cli/src/main.rs:210-218 | A run over tasks that return their ids never fails and reports each id as its own output, even if ids repeat. |
| DagCli.EchoReport | crates/dag-cli/src/main.rs:322-328 | A day's run is all-succeeded exactly if there is a task, even if ids repeat. |
| DagCli.SteppingIsDaily | crates/dag-cli/src/main.rs:311-331 | Stepping by a day makes floor((end - start) / 1 day) + 1 runs, one per successive day. |
| DagCli.RunIsDated | crates/dag-cli/src/main.rs:311-331 | The k-th run carries the date of the instant k times 86400 seconds after the start. |
| DagCli.LastRunInRange | crates/dag-cli/src/main.rs:314-331 | The last run starts within the range, and one more would start after it. |
| DagCli.DateOnlyRange | crates/dag-cli/src/main.rs:311-331 | With bounds at midnight the runs are those of the dates from the first to the last, each once, in order. |
| DagCli.BackfillDates | crates/dag-cli/src/main.rs:311-315 | Run ids are pairwise distinct and no run is dated outside the range. |
| DagCli.BackfillCoversRange | crates/dag-cli/src/main.rs:79-81 | Every date of the closed range has a run exactly if the start's time of day is not later than the end's. |
| DagCli.RunDay | crates/dag-cli/src/main.rs:315-328 | One day goes through exactly if there is a task, the DAG builds, the scratch directory can be made and the store takes the plan; each error has its own cause and leaves a prefix of the plan. |
| DagCli.NextDay | crates/dag-cli/src/main.rs:314-331 | One turn of the loop adds a complete day, or stops the backfill there for a reason that is really there. |
| DagCli.RunEachDay | crates/dag-cli/src/main.rs:311-331 | The loop terminates with all days complete, or stops on one day with the earlier ones complete and a reason. |
| DagCli.StopsForAReason | crates/dag-cli/src/main.rs:314-331 | Whatever stopped one day stands in the way of the whole backfill. |
| DagCli.Backfill | crates/dag-cli/src/main.rs:293-339 | A bad range is rejected before any write. Otherwise success, with one complete run per day and their number, exactly if there is a task, the DAG builds, every scratch directory can be made and the store takes every write; a failure is on one day, with its cause, the earlier days complete. |
| DagCli.BackfillViews | crates/dag-cli/src/main.rs:314-331 | Each backfilled run acts once on its own rows and edges, and no other run is touched. |
| DagCli.DayView | crates/dag-cli/src/main.rs:314-331 | A day on a fresh id, whether or not task ids repeat: every task Succeeded with its id as output, and the declared pairs as edges. |
| DagCli.RunAddsEdges | crates/dag-lineage/src/lib.rs:160-195 | A run on a fresh id adds exactly its edges to the total. |
| DagCli.BackfillEdgeTotal | crates/dag-lineage/src/lib.rs:183-195 | Runs times edges are added in all. |
| DagCli.BackfillStores | crates/dag-cli/src/main.rs:293-339 | A successful backfill on fresh run ids, of any specification that the builder accepts: each run's rows and edges, nothing else changed, and the total of edges. |
| DagCli.StoppedBackfill | crates/dag-cli/src/main.rs:322-328 | After a failure on some day the earlier days are complete and the later ones untouched. |
| DagCli.StoppedBackfillStores | crates/dag-cli/src/main.rs:322-328 | On fresh ids the earlier days then have every task Succeeded and the later days nothing. |
| DagCli.BackfillAgain | crates/dag-cli/src/main.rs:293-339 | A complete backfill after a stopped one leaves, whatever the store held, what the complete one leaves alone. |
| DagCli.BackfillAgainStores | crates/dag-cli/src/main.rs:293-339 | On fresh run ids every day then has all its tasks Succeeded and its edges. |
| Mermaid.EdgesForRun | crates/dag-lineage/src/lib.rs:231-251 | All edges of the run, strictly sorted by both ids, each with the time of its row. |
| Mermaid.TaskRunsForRun | crates/dag-lineage/src/lib.rs:254-278 | All rows of the run, strictly sorted by task id, unchanged. |
| Mermaid.GatherNodes | crates/dag-lineage/src/lib.rs:284-293 | The nodes are the endpoints of the edges and the recorded tasks. |
| Mermaid.AssignAliases | crates/dag-lineage/src/lib.rs:295-298 | The i-th id gets the i-th alias. |
| Mermaid.DecimalIsNumeral | crates/dag-lineage/src/lib.rs:295-298 | The digits of an alias are the decimal numeral of its number: read from left to right they give it back, without a leading zero. |
| Mermaid.AliasIsNumeral | crates/dag-lineage/src/lib.rs:295-298 | The i-th alias is `t` followed by the numeral of i. |
| Mermaid.RenderNodes | crates/dag-lineage/src/lib.rs:300-304 | The text after the node loop is that of the header and the node lines. |
| Mermaid.RenderEdges | crates/dag-lineage/src/lib.rs:305-309 | The edge loop appends the text of the edge lines, with the aliases of the endpoints. |
| Mermaid.RenderMermaid | crates/dag-lineage/src/lib.rs:282-311 | The pushed text is the text of the drawing's lines: header, nodes, edges. |
| MermaidText.OneEdgeText | crates/dag-lineage/src/lib.rs:300-310 | The exact characters of the rendering of one edge: header, two node lines, one arrow. |
| Mermaid.AliasInjective | crates/dag-lineage/src/lib.rs:296-298 | Different positions have different aliases. |
| Mermaid.Canonical | crates/dag-lineage/src/lib.rs:282-311 | The text depends only on the sets of ids and edges, not on order, repeats, states or times. |
| Mermaid.DecodeLines | crates/dag-lineage/src/lib.rs:282-311 | Decoding the lines through their alias table gives exactly the nodes and edges of the run. |
| MermaidText.TextRoundTrip | crates/dag-lineage/src/lib.rs:300-310 | A reader that cuts at line breaks gives the nodes and edges back for exactly the runs without a line break in an id; this concerns that reader only. |
| MermaidCollisions.OneLineRunsDiffer | crates/dag-lineage/src/lib.rs:300-310 | Runs of one-line ids with the same text have the same nodes and edges. |
| MermaidCollisions.SharedText | crates/dag-lineage/src/lib.rs:300-310 | Two runs have the same text exactly if the text of their node lines is the same and their edges join the same positions. |
| MermaidCollisions.CollisionsSwallow | crates/dag-lineage/src/lib.rs:301-304 | Two different drawings with the same text first differ where one id is the other one followed by the end of its node and the beginning of the next node line. |
| MermaidCollisions.MarkupFreeRunsDiffer | crates/dag-lineage/src/lib.rs:301-304 | Runs whose ids are free of such markup have the same nodes and edges if they have the same text. |
| MermaidCollisions.SharesText | crates/dag-lineage/src/lib.rs:300-310 | A run shares its text with a different drawing exactly if its node text can be cut in another way into ascending ids, at least as many as its edges need. |
| MermaidCollisions.LooseRunsCollide | crates/dag-lineage/src/lib.rs:300-310 | Any run, whatever its ids, with two nodes or more whose last node no edge touches shares its text with another drawing. |
| MermaidCollisions.SharesTextExactly | crates/dag-lineage/src/lib.rs:300-310 | For runs of one-line ids these are exactly the ones that do. |
| MermaidText.LineBreaksCollide | crates/dag-lineage/src/lib.rs:301-304 | With a line break in an id, different runs can render the same text. |
| Sorting.SortedIdsAreUnique | crates/dag-lineage/src/lib.rs:284-298 | A set of ids has one ascending listing, however it was gathered. |
| Sorting.BeforeMeaning | crates/dag-lineage/src/lib.rs:199-203 | The order of ids is lexicographic: it is decided at the first place where two ids differ, where one of them may have ended. |

## Left out

- SQLite, sqlx, files and the connection pool: the store is two maps, a write either happens or changes nothing, and
  reads do not fail.
- A write that commits and still reports an error, and a crash inside one write: only stops between writes are modelled.
- Timestamps as text, and the overflow of dates: times are unbounded integers, a day has 86400 seconds.
- The text of the state column and of JSON outputs: states are an enumeration, outputs a JSON value; a state that does
  not parse back cannot occur in the model.
- YAML parsing and serde: specifications start parsed, and resources are an ordered list with distinct keys.
- The forjar subprocess, its arguments and its messages: only the exit of `--version` and `validate`, and whether
  `validate` and `graph` could be started.
- Async execution, shared ownership of the context and tracing: a run is sequential, as in the code.
- Task bodies that are not deterministic functions of the context's bag: they could read clocks or files, and then
  nothing relates two runs.
- DagCore.Dag.Parents: the order of the list, which petgraph decides, is not stated.
- DagCore.Dag.Children: the order of the list, which petgraph decides, is not stated.
- DagCore.Dag.TopoSort: its tie-break is this model's own, because petgraph's body is not part of it; no result about
  runs depends on it.
- The scheduler crate, which wraps a cron library, and the commands that only parse and print.
- The five-task ETL example and its fixed-size assertions, which are instances of the general results.
- Labels of task states and their parsing: one-branch facts.
