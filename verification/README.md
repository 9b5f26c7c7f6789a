# Verified model of Celery Root's core

This project models, in Dafny, the parts of Celery Root whose correctness is hardest to see, and proves
what they promise. To verify it: `dafny verify dfyconfig.toml`.

- **Folding of self-scheduling tasks** (`SelfSchedulingFold`, `SelfSchedulingTheorems`,
  `SelfSchedulingConservation`, `SelfSchedulingFields`, over `GraphModel` and `Digraph`). The browser collapses
  chains and cycles of identical tasks onto one representative. The loops are methods, proved equal to a function
  of the model; about that function it is proved that the representative map is flat, that folding is idempotent
  on every model, where each node and edge goes, and what becomes of every field of it.
- **Path closure and filter** (`PathFilter`). The closure of the failed tasks is the least closed set.
- **Task store** (`TaskStore`, `TaskRows`, `RelationEdges`, `TaskStats`). The task table is a view of the event
  log: what each column of a row says about the log, which arrival orders agree, what duplicates do, how the edge
  list tolerates repeated relations, and what the throughput buckets, averages and percentiles are.
- **Metrics exporters** (`Exporters`, `ExporterRecount`). The incremental counts against a recount of the tracked
  tasks and against the fields of the events, the gauges of the one exporter against its counts under changing brokers, and the stream of differences of the
  other against both.
- **Database RPC** (`RpcServer`, `RpcAdmission`, `RpcReplies`, `RpcClient`, `ConcurrentIngest`). The server is a
  transition system over the steps of its connection threads; the invariant holds on every interleaving, and every
  reply is determined by the messages and the steps of the run. The client is the retry loop over
  a network that holds this very server: between any two moments the threads may take any steps, and other
  clients may send what they like under other ids.
- **Beat scheduler** (`BeatWorld`, `BeatAccount`, `BeatTimes`, `BeatScheduler`). The account of runs between memory
  and database over all sequences of reloads, firings and flushes, with stores that are refused or that time out
  and land later, and the last run times.
- **Smart retry** (`SmartRetry`, `RetryOrder`) and the **palette** (`Palette`). Breadth-first order with
  distances, and when it sends parents before children; coprime steps.

The loops of the modelled code are loops here, with invariants; what a loop computes is stated by a function on
values, or outright, and the theorems are lemmas about that function. Database queries and library sorting are
functions. Identifiers and signatures are strings, with the
string concatenations of the source. Times are integers (microseconds for the throughput), runtimes reals.

## What the proofs brought to light

- **A colon in a task id can lose an edge.** The fold compares edges by the text `source::target`. An edge is
  kept exactly when no matching edge has its text, its ends are nodes, and they do not collapse
  (`SelfSchedulingConservation.KeptExactly`, `SelfSchedulingConservation.EdgesConserved`). Without colons in
  the sources this is the promised rule (`KeptWithoutColons`); with one, `ColonLosesEdge` gives an edge that
  disappears between two live nodes.
- **A node with the empty id is never expanded** by the queue loops of the browser code; the fold leaves a
  model alone exactly when no matching edge leaves a non-empty id (`SelfSchedulingTheorems.FoldsExactly`).
- **The counts of the exporters equal a recount exactly as long as** no repeated event moves a received task
  to another name or worker, or a started one to another worker, and no worker reports a number that differs
  from the recount (`ExporterRecount.ReceivedCountsExact`, `ExporterRecount.StartedCountsExact`).
- **A worker whose broker labels change strands its counts** in the Prometheus gauges: over a run they always
  show the counts, under the present labels and nowhere else, if and only if that happens to no worker with
  tasks counted (`Exporters.GaugesRun`, `Exporters.StrandsExactly`).
- **"Parents go before their children"**, as the comment in `smart_retry` says, is not what breadth-first order
  gives: a task is sent after one of its parents, not after all (`RetryOrder.ParentAfterChild`). It holds in
  whatever order the database lists the relations if and only if every edge among the descendants leads one
  level deeper (`RetryOrder.ParentsFirstHoweverListed`); a single listing may do without
  (`RetryOrder.OneListingMayDo`). The model follows the code.
- **BUSY never reaches the caller as such.** The server gives a BUSY reply a fresh request id, and the client
  takes a reply under another id for a protocol error; see `RpcClient.DbRpcClient.Call`.
- **A retry event arriving late sends a task's row back**, as any state outside the ranked ones starts over
  (`TaskStore.UnrankedStartsOver`); final states never revert. Arrival orders agree on the rank if and only if
  some event is final, or all are ranked, or none is (`TaskStore.OrderMattersExactly`).
- **The beat scheduler loses a run if and only if** it reloads while a count is not stored
  (`BeatAccount.NeverLosesExactly`). That takes a store that fails (`BeatAccount.FailedStoreLosesRun`) or a tick
  that raises after firing (`BeatAccount.BrokenTickLosesRun`) before the reload; otherwise none is lost
  (`BeatAccount.RunsConserved`).
- **A store that times out may undo a later one that succeeds**, as the server may still carry it out
  (`BeatAccount.LateStoreLosesRun`), or let memory fall behind, so that a regular write-back lowers the stored
  count (`BeatAccount.WriteBackGoesDown`). Stored counts never go down nor get ahead of memory if and only if
  late writes land in time (`BeatAccount.InOrderExactly`); whatever lands, no run is invented
  (`BeatAccount.RunsNeverInvented`).

## Model

| member | source | states |
|---|---|---|
| SelfSchedulingFold.IndexMatches | frontend/graph-ui/src/graph/transforms.ts:167-200 | the loop over the edges builds the children lists, their key order, the child ids and the edge keys of exactly the matching edges |
| SelfSchedulingFold.FindLatest | frontend/graph-ui/src/graph/transforms.ts:246-258 | the scan with `>=` from minus infinity |
| SelfSchedulingFold.Claim | frontend/graph-ui/src/graph/transforms.ts:232-240 | the unseen successors of one node are claimed, each once |
| SelfSchedulingFold.Collect | frontend/graph-ui/src/graph/transforms.ts:219-262 | one collect pass claims the descendants of its root, overwriting earlier claims, in discovery order |
| SelfSchedulingFold.FindRoots | frontend/graph-ui/src/graph/transforms.ts:206-213 | the roots are the parents that are nobody's child, in key order |
| SelfSchedulingFold.CollectRoots | frontend/graph-ui/src/graph/transforms.ts:264 | the first phase |
| SelfSchedulingFold.CollectRemaining | frontend/graph-ui/src/graph/transforms.ts:265-269 | the second phase collects from the parents that are still unclaimed |
| SelfSchedulingFold.AssignClasses | frontend/graph-ui/src/graph/transforms.ts:206-269 | both phases together |
| SelfSchedulingFold.RewriteNodes | frontend/graph-ui/src/graph/transforms.ts:275-293 | claimed nodes go; a representative takes over its latest member's properties but not its place |
| SelfSchedulingFold.RewriteEdges | frontend/graph-ui/src/graph/transforms.ts:295-328 | edges are dropped or redirected one by one, then each live class gets its self-loop |
| SelfSchedulingFold.FoldSelfScheduling | frontend/graph-ui/src/graph/transforms.ts:165-339 | the whole transformation with both early returns is the function `Fold` that the theorems are about |
| SelfSchedulingFold.BuildGraphModel | frontend/graph-ui/src/graph/transforms.ts:93-102 | the model is the fold of the payload, and every node sits under its own id |
| Digraph.DescendantsExact | frontend/graph-ui/src/graph/transforms.ts:219-242 | queue discovery finds exactly the other nodes that the root reaches, each once, on cyclic graphs too |
| SelfSchedulingTheorems.IndexExact | frontend/graph-ui/src/graph/transforms.ts:171-200 | the children lists, parents and children are exactly those of the matching edges |
| SelfSchedulingTheorems.KeysExact | frontend/graph-ui/src/graph/transforms.ts:187 | the keys are exactly the texts of the matching edges |
| SelfSchedulingTheorems.SameSignature | frontend/graph-ui/src/graph/transforms.ts:142-186 | whatever is reached by matching edges exists, is foldable and has the same signature |
| SelfSchedulingTheorems.StillClaimed | frontend/graph-ui/src/graph/transforms.ts:232-240 | when a representative is claimed by a later pass, so is everything that mapped to it: the map stays flat |
| SelfSchedulingTheorems.CollectKeeps | frontend/graph-ui/src/graph/transforms.ts:219-262 | a collect pass from an unclaimed node keeps the invariant of the classes |
| SelfSchedulingTheorems.ClassesHold | frontend/graph-ui/src/graph/transforms.ts:206-269 | the invariant holds after both phases, and every parent is settled |
| SelfSchedulingTheorems.RepresentativesAreLive | frontend/graph-ui/src/graph/transforms.ts:206-278 | for every folded node: its representative is live and not mapped away, reaches it by matching edges and has its signature |
| SelfSchedulingTheorems.SharedNodesGoToLast | frontend/graph-ui/src/graph/transforms.ts:219-269 | a node that several collected heads reach belongs to the one collected last |
| SelfSchedulingTheorems.MatchedTargetsFolded | frontend/graph-ui/src/graph/transforms.ts:206-269 | folding is complete: the target of every matching edge from a non-empty id is folded or heads a class |
| SelfSchedulingTheorems.FoldsExactly | frontend/graph-ui/src/graph/transforms.ts:202-204 | the model is folded if and only if a matching edge leaves a non-empty id; both early returns are covered |
| SelfSchedulingConservation.NodesConserved | frontend/graph-ui/src/graph/transforms.ts:275-278 | live and folded nodes are disjoint and together the original nodes; the metadata stay and the two maps are handed out |
| SelfSchedulingConservation.KeptExactly | frontend/graph-ui/src/graph/transforms.ts:296-307 | an edge survives if and only if it shares no key with a matching edge, both ends are nodes and their representatives differ |
| SelfSchedulingConservation.EdgesConserved | frontend/graph-ui/src/graph/transforms.ts:295-315 | each kept edge appears exactly once, in order: its ends are the live nodes that stand for the original ends, its kind and label are unchanged, and its id is the text of these ends and the kind; other edges leave no trace |
| SelfSchedulingConservation.OutputEdges | frontend/graph-ui/src/graph/transforms.ts:295-328 | every output edge has live ends and is a kept edge moved to the nodes that stand for its ends, or the self-loop of a live class with the size of that class |
| SelfSchedulingConservation.OneLoopEach | frontend/graph-ui/src/graph/transforms.ts:317-328 | each live class has its self-loop exactly once, and its root no other |
| SelfSchedulingConservation.SelfLoopCounts | frontend/graph-ui/src/graph/transforms.ts:317-328 | a representative has exactly one self-loop, of kind self, with its own id text, and its label is the number of other nodes that it reaches by matching edges |
| SelfSchedulingConservation.NothingLeftToFold | frontend/graph-ui/src/graph/transforms.ts:165-339 | no edge of a folded model is a matching edge |
| SelfSchedulingConservation.FoldIdempotent | frontend/graph-ui/src/graph/transforms.ts:165-339 | folding twice is folding once, on every model |
| SelfSchedulingConservation.KeysSeparate | frontend/graph-ui/src/graph/transforms.ts:187 | without colons in the sources, equal keys mean equal ends |
| SelfSchedulingConservation.KeptWithoutColons | frontend/graph-ui/src/graph/transforms.ts:296-307 | with colon-free sources an edge between nodes is lost only between the ends of a matching edge or by collapsing |
| SelfSchedulingConservation.ColonLosesEdge | frontend/graph-ui/src/graph/transforms.ts:297 | a model whose unrelated edge is lost because its text equals that of a matching edge |
| SelfSchedulingConservation.LatestExact | frontend/graph-ui/src/graph/transforms.ts:246-258 | of the members, the latest is one that no other was heard of later than, by its finish or else its start, and among equals the last discovered |
| SelfSchedulingConservation.RepresentativeShowsLatest | frontend/graph-ui/src/graph/transforms.ts:279-293 | a representative has every property of that member, and its own where the member has none, but keeps its id and place in the tree |
| SelfSchedulingConservation.OtherNodesKept | frontend/graph-ui/src/graph/transforms.ts:275-293 | every other live node is unchanged |
| SelfSchedulingFields.LeftAloneExactly | frontend/graph-ui/src/graph/transforms.ts:140-204 | a model is left alone if and only if no edge between two nodes of the same task, outside groups, chords and maps, leaves a non-empty id; stated on the fields of nodes and edges |
| SelfSchedulingFields.SameTaskExactly | frontend/graph-ui/src/graph/transforms.ts:155-157 | without colons in name and arguments, the texts compared are equal if and only if name, arguments and keyword arguments are |
| SelfSchedulingFields.ParentsInOrder | frontend/graph-ui/src/graph/transforms.ts:189-206 | parents are listed by the first matching edge that leaves them |
| SelfSchedulingFields.SuccessorsInOrder | frontend/graph-ui/src/graph/transforms.ts:188-193 | the successors of a node are listed by the first matching edge that leads to them |
| SelfSchedulingFields.HeadsInOrder | frontend/graph-ui/src/graph/transforms.ts:206-269 | heads that are nobody's child are collected first, and otherwise the first matching edge that leaves them decides |
| SelfSchedulingFields.LoopsInOrder | frontend/graph-ui/src/graph/transforms.ts:317-328 | the self-loops follow the kept edges, in the order of their heads |
| SelfSchedulingFields.LastNodeWins | frontend/graph-ui/src/graph/transforms.ts:93-97 | of several payload nodes with one id the last is kept |
| PathFilter.BuildPathClosure | frontend/graph-ui/src/graph/transforms.ts:620-653 | the least set that contains the focus and is closed under edges in both directions from non-empty ids |
| PathFilter.PathClosureUnique | frontend/graph-ui/src/graph/transforms.ts:620-653 | that set is determined by the edges and the focus |
| PathFilter.FilterGraph | frontend/graph-ui/src/graph/transforms.ts:576-618 | the nodes kept are those that query and states select and, in failed-path mode, the ends of the walks along edges in either direction from failed and retrying ones; nodes are unchanged |
| PathFilter.EdgesWithinExact | frontend/graph-ui/src/graph/transforms.ts:609-611 | an edge is kept, with its multiplicity, if and only if both ends are kept |
| PathFilter.EdgesWithinConcat | frontend/graph-ui/src/graph/transforms.ts:609-611 | the edges kept stay in their order |
| PathFilter.ClosureIsWalks | frontend/graph-ui/src/graph/transforms.ts:620-653 | the closure of the failed and retrying tasks consists of the ends of the walks from them |
| TaskStore.Controller.StoreTaskEvent | celery_root/core/db/adapters/sqlite/__init__.py:220-234 | the log grows by the event, one row changes by the merge, and the table stays the replay of the log |
| TaskStore.Controller.GetTask | celery_root/core/db/adapters/sqlite/__init__.py:300-305 | the row returned is a function of that task's own events |
| TaskStore.ReplayByTask | celery_root/core/db/adapters/sqlite/__init__.py:220-234 | in any log the row of a task is determined by its own events in order |
| TaskStore.InterleavingIrrelevant | celery_root/core/db/adapters/sqlite/__init__.py:220-234 | logs that agree task by task lead to one table |
| TaskStore.EventsCommute | celery_root/core/db/adapters/sqlite/__init__.py:220-234 | events of different tasks commute |
| TaskStore.PreserveExactly | celery_root/core/db/adapters/sqlite/__init__.py:742-748 | a ranked event is held back exactly when it would lower the rank, any other exactly when the task is done |
| TaskStore.HeldBack | celery_root/core/db/adapters/sqlite/__init__.py:703-706 | an event that is held back changes only the retries |
| TaskStore.DuplicateHarmless | celery_root/core/db/adapters/sqlite/__init__.py:691-730 | delivering an event twice in a row leaves the row as once |
| TaskStore.DuplicateLeavesTable | celery_root/core/db/adapters/sqlite/__init__.py:220-234 | and the whole table |
| TaskStore.LateDuplicateHarmless | celery_root/core/db/adapters/sqlite/__init__.py:691-748 | over ranked states even a later redelivery changes neither rank nor retries |
| TaskStore.RetriesAreMax | celery_root/core/db/adapters/sqlite/__init__.py:132-137 | the row's retries are the greatest number ever reported, or absent if none was |
| TaskStore.LastFinalWins | celery_root/core/db/adapters/sqlite/__init__.py:691-748 | state and finish time are those of the last stored final event, whatever follows |
| TaskStore.FinishedExactly | celery_root/core/db/adapters/sqlite/__init__.py:724-729 | a finish time is set if and only if the state is final, if and only if a final event was stored |
| TaskStore.LastStartWins | celery_root/core/db/adapters/sqlite/__init__.py:724-729 | the start time is that of the last started event before the first final one |
| TaskStore.NothingForgotten | celery_root/core/db/adapters/sqlite/__init__.py:708-723 | no column of a row goes back to null, whatever arrives |
| TaskRows.HeldBackExactly | celery_root/core/db/adapters/sqlite/__init__.py:742-748 | an event is held back if and only if an earlier one of a higher rank still counts: a final one for ever, another until an unranked state starts over |
| TaskRows.RowExact | celery_root/core/db/adapters/sqlite/__init__.py:691-730 | state, received, started and finished time, runtime and each text column of a row show what the last event reported for them that was not held back, and are null if none did |
| TaskStore.StateHasMaxRank | celery_root/core/db/adapters/sqlite/__init__.py:742-748 | over pending, received, started and final events the state is one stored and has the greatest rank |
| TaskStore.UnrankedStartsOver | celery_root/core/db/adapters/sqlite/__init__.py:742-748 | any other state starts over: after it, the greatest rank since counts |
| TaskStore.OrderKeepsRetriesAndDone | celery_root/core/db/adapters/sqlite/__init__.py:691-748 | two arrival orders of any events agree on retries and on whether the task is done |
| TaskStore.OrderKeepsRank | celery_root/core/db/adapters/sqlite/__init__.py:742-748 | over ranked states they agree on the rank |
| TaskStore.OrderMattersExactly | celery_root/core/db/adapters/sqlite/__init__.py:742-748 | over any states, all arrival orders of some events agree on the rank if and only if one of them is final, or all are ranked, or none is |
| TaskStore.RetryOrderMatters | celery_root/core/db/adapters/sqlite/__init__.py:742-748 | the smallest case in which they do not: a pending and a retry event |
| RelationEdges.StoreRelations | celery_root/core/db/dispatch.py:88-116 | up to three relations are appended, for the non-empty parent, group and chord |
| RelationEdges.IngestTaskEvent | celery_root/core/db/dispatch.py:202-205 | an ingest stores the event and then its relations |
| RelationEdges.RelationsExact | celery_root/core/db/dispatch.py:88-116 | each non-empty link of an event is related to the task once, under its root or else itself, parent before group before chord |
| RelationEdges.BuildEdges | celery_root/components/web/views/graphs.py:113-134 | the loop with its seen set keeps first occurrences |
| RelationEdges.EdgesOfExact | celery_root/components/web/views/graphs.py:113-134 | each edge that a relation stands for, from its parent or else its root, a parent relation being a chain, is listed exactly once |
| RelationEdges.EdgesOfGrow | celery_root/components/web/views/graphs.py:113-134 | edges come in the order in which they first occur: more relations only add at the end |
| RelationEdges.RepeatsAddNothing | celery_root/components/web/views/graphs.py:113-134 | relations that occurred before add no edge |
| RelationEdges.RedeliveryKeepsEdges | celery_root/core/db/dispatch.py:88-116 | an event delivered again at any later time leaves the edges of every root as they were |
| RelationEdges.IngestTwice | celery_root/core/db/dispatch.py:202-205 | ingesting twice in a row leaves the task table and the edges as once |
| RelationEdges.AppendEdge | celery_root/components/web/views/graphs.py:215-229 | a non-empty link is listed afterwards, and its edge is added only if none listed covers it, a missing relation counting as a chain |
| RelationEdges.CollectNodesAndEdges | celery_root/components/web/views/graphs.py:232-263 | the relations' edges come first, every link of every task is listed, nothing else is, none is repeated; the nodes are exactly the root, the ends of the relations' edges, the tasks and the ends of their links |
| TaskStats.InitBuckets | celery_root/core/db/adapters/sqlite/__init__.py:945-954 | the boundaries run from the start, one size apart, up to the end and no further |
| TaskStats.BucketContains | celery_root/core/db/adapters/sqlite/__init__.py:956-962 | cutting to whole seconds and then dividing finds the bucket that contains the timestamp |
| TaskStats.KeyFound | celery_root/core/db/adapters/sqlite/__init__.py:446-456 | every timestamp in range lies in one initialised bucket, the one computed, and in no other |
| TaskStats.GetThroughput | celery_root/core/db/adapters/sqlite/__init__.py:446-456 | the i-th bucket starts i sizes after the start and counts the tasks that finished, or else started, or else were received within it; the counts add up to the tasks in range |
| TaskStats.AllCountedOnce | celery_root/core/db/adapters/sqlite/__init__.py:446-456 | the buckets together count every task in range once |
| TaskStats.FilterTasksExact | celery_root/core/db/adapters/sqlite/__init__.py:930-943 | the tasks selected are those of the name that finished, or else started, or else were received within the range, with multiplicity |
| TaskStats.FilterTasksConcat | celery_root/core/db/adapters/sqlite/__init__.py:930-943 | the tasks selected stay in their order |
| TaskStats.CountInExact | celery_root/core/db/adapters/sqlite/__init__.py:446-456 | the number counted between two times is that of the tasks in range that happened between them |
| TaskStats.RuntimesExact | celery_root/core/db/adapters/sqlite/__init__.py:429-434 | the runtimes aggregated are those of the selected tasks that have one, with multiplicity |
| TaskStats.PercentileExact | celery_root/core/db/adapters/sqlite/__init__.py:89-102 | a percentile is the mean of the two values around its place, weighted by how near they are |
| TaskStats.PercentileBounded | celery_root/core/db/adapters/sqlite/__init__.py:89-102 | on a sorted list a percentile lies between the first and the last value |
| TaskStats.PercentileMonotone | celery_root/core/db/adapters/sqlite/__init__.py:89-102 | percentiles are monotone across all pieces of the interpolation |
| TaskStats.GetTaskStats | celery_root/core/db/adapters/sqlite/__init__.py:429-444 | min <= p50 <= p95 <= p99 <= max; min and max are the extreme runtimes, the average is the sum of the runtimes over their number, and p50, p95 and p99 are the percentiles of the sorted runtimes |
| Exporters.PrefetchedStep | celery_root/components/metrics/prometheus/exporter.py:234-268 | one event keeps the received counts equal to a recount if and only if it does not move a received task |
| Exporters.ActiveStep | celery_root/components/metrics/prometheus/exporter.py:234-268 | one event keeps the running counts right if and only if it moves no started task and overrides nothing |
| Exporters.PrefetchedRun | celery_root/components/metrics/prometheus/exporter.py:234-278 | over a whole run the received counts are always the recount if and only if no event moves a received task |
| Exporters.ActiveRun | celery_root/components/metrics/prometheus/exporter.py:234-296 | the same for the running counts |
| ExporterRecount.MovesReceivedExactly | celery_root/components/metrics/prometheus/exporter.py:176-268 | an event moves a received task if and only if that task's latest event is a received one of another name or worker; missing and empty ones are read as unknown |
| ExporterRecount.MovesStartedExactly | celery_root/components/metrics/prometheus/exporter.py:176-296 | the same for started tasks of another worker, and for reported numbers that differ from the tasks started on the worker |
| ExporterRecount.ReceivedCountsExact | celery_root/components/metrics/prometheus/exporter.py:176-278 | over a whole run the count under a task name and worker is always the number of tasks whose latest event is a received one with that name and worker, if and only if no task is received twice in a row under different ones |
| ExporterRecount.StartedCountsExact | celery_root/components/metrics/prometheus/exporter.py:176-296 | the same for the tasks started on a worker, if also no worker reports another number |
| Exporters.NeverBelowZero | celery_root/components/metrics/prometheus/exporter.py:272-275 | what is taken down is positive, so the clamp at zero never acts |
| Exporters.CountsPositive | celery_root/components/metrics/prometheus/exporter.py:270-296 | a stored count is positive on every run |
| Exporters.RelabelExactly | celery_root/components/metrics/prometheus/exporter.py:194-203 | when workers get other labels, gauges that showed the counts under the present labels and nothing elsewhere go on doing so if and only if no count moves |
| Exporters.StrandsExactly | celery_root/components/metrics/prometheus/exporter.py:194-203 | a worker event moves a count if and only if it names a broker with other labels and the worker has tasks counted, so not if only the credentials in the url change |
| Exporters.GaugesStep | celery_root/components/metrics/prometheus/exporter.py:176-296 | one event leaves such gauges exact if and only if it moves no count |
| Exporters.GaugesRun | celery_root/components/metrics/prometheus/exporter.py:176-350 | over a whole run the gauges always show the counts under the present labels and nothing elsewhere if and only if no worker is given other labels while tasks of it are counted |
| Exporters.PrometheusExporter.UpdatePrefetched | celery_root/components/metrics/prometheus/exporter.py:270-278 | the count changes by the difference, and the gauge is set to it under the labels of the worker's present broker |
| Exporters.PrometheusExporter.UpdateActive | celery_root/components/metrics/prometheus/exporter.py:280-287 | likewise for the running tasks of a worker |
| Exporters.PrometheusExporter.SetActiveCount | celery_root/components/metrics/prometheus/exporter.py:289-296 | the reported number replaces the count, and the gauge is set to it under the labels of the worker's present broker |
| Exporters.PrometheusExporter.TrackTaskState | celery_root/components/metrics/prometheus/exporter.py:234-268 | states and counts move as `TrackTask` says, and the gauge of the count that changed is set, no other |
| Exporters.PrometheusExporter.OnTaskEvent | celery_root/components/metrics/prometheus/exporter.py:176-192 | counts and gauges stay those of the run |
| Exporters.PrometheusExporter.OnWorkerEvent | celery_root/components/metrics/prometheus/exporter.py:194-211 | counts and gauges stay those of the run, with the broker noted before the reported number is shown |
| Exporters.OtelExporter.UpdatePrefetched | celery_root/components/metrics/opentelemetry/exporter.py:291-302 | the difference actually made is emitted, so the sums stay the counts |
| Exporters.OtelExporter.UpdateActive | celery_root/components/metrics/opentelemetry/exporter.py:304-314 | likewise for the running tasks |
| Exporters.OtelExporter.SetActiveCount | celery_root/components/metrics/opentelemetry/exporter.py:316-326 | an override emits the difference to the old count |
| Exporters.OtelExporter.TrackTaskState | celery_root/components/metrics/opentelemetry/exporter.py:254-289 | the same state and counts as the other exporter |
| Exporters.OtelExporter.OnTaskEvent | celery_root/components/metrics/opentelemetry/exporter.py:176-193 | sums of differences stay the counts of the run |
| Exporters.OtelExporter.OnWorkerEvent | celery_root/components/metrics/opentelemetry/exporter.py:195-213 | the same while broker labels change |
| Exporters.RunBoth | celery_root/components/metrics/opentelemetry/exporter.py:291-326 | on every run, key by key, the emitted differences add up to the other exporter's counts, and to its gauges if no labels changed while tasks were counted |
| RpcServer.PermitsKeep | celery_root/core/db/manager.py:187-206 | permits and dispatches under way always add up to the limit, also when a dispatch raises |
| RpcServer.LockKeep | celery_root/core/db/manager.py:281-292 | only the lock's holder is in a handler, and what it has read is still the store |
| RpcServer.SerialKeep | celery_root/core/db/manager.py:281-292 | the store and all results stay those of running the handlers in lock order |
| RpcServer.OneReplyKeep | celery_root/core/db/manager.py:187-206 | every message taken in has had its reply, except the one under way, or at which the thread died |
| RpcServer.StepKeeps | celery_root/core/db/manager.py:180-292 | every step of every thread keeps the invariant |
| RpcServer.InflightBounded | celery_root/core/db/manager.py:140-206 | on every interleaving at most `rpc_max_inflight` dispatches run and one handler at a time; when no message is under way all permits are back |
| RpcServer.StoreSerial | celery_root/core/db/manager.py:281-292 | on every interleaving the store is that of a sequential run in lock order |
| RpcServer.RepliesRight | celery_root/core/db/manager.py:187-279 | one reply per message, in order; a reply without the message's id is BUSY or rejects an unreadable message, any other carries that id and either rejects the call without a handler run or reports the one run there was, with its result in the sequential run |
| RpcAdmission.AdmitsExactly | celery_root/core/db/manager.py:193-200 | a thread that asks for a permit is refused if and only if `rpc_max_inflight` dispatches are under way, and otherwise admitted with its message |
| RpcAdmission.BusyExactly | celery_root/core/db/manager.py:187-206 | on every run the n-th reply of a thread is BUSY if and only if the server was full when the n-th message asked |
| RpcAdmission.BusyWhenFull | celery_root/core/db/manager.py:187-206 | the same at the step of the run at which that message asked, with the dispatches under way counted there |
| RpcReplies.ReplyExact | celery_root/core/db/manager.py:187-279 | the n-th reply of a thread in full: BUSY if the server was full; the code of the rejection for an unreadable or faulty message; and otherwise, from the one handler run, its value under the id of the request, or the code of its failure, a result that cannot be encoded being a failure |
| RpcReplies.ConversationExact | celery_root/core/db/manager.py:187-206 | the messages of a thread are those it took in, and its replies are marked as delivered or not as its sending steps were |
| RpcReplies.StandsExactly | celery_root/core/db/manager.py:187-206 | where a thread stands follows from its last step; only a hang-up or a refusal that could not be sent ends it, and only a response that could not be built kills it |
| RpcServer.RunsBelong | celery_root/core/db/manager.py:187-292 | every handler run is the only one for its message, which was received and carries its id |
| RpcServer.Progress | celery_root/core/db/manager.py:187-206 | no deadlock: a thread at a message can go on, or the holder of the lock it waits for can |
| ConcurrentIngest.TablesAreReplay | celery_root/core/db/manager.py:281-292 | over any interleaving of connections the task and relation tables are those of one log in lock order |
| RpcClient.StepSeparate | celery_root/core/db/manager.py:180-206 | every server step keeps this client's messages delivered in order and its ids its own |
| RpcClient.DeliversExactly | celery_root/core/db/manager.py:187-192 | a waiting thread can be given exactly the next message that this client sent on the connection, or from other clients whatever does not use its ids |
| RpcClient.HandledAtMostSent | celery_root/core/db/manager.py:187-292 | at any time the handlers have run for an id at most as often as messages with it were sent |
| RpcClient.LastReplyTruthful | celery_root/core/db/rpc_client.py:184-202 | a reply under the id of the last message sent tells what became of that message: the reason of its rejection, or how its handler run ended |
| RpcClient.Transport.Connect | celery_root/core/db/rpc_client.py:130-134 | an open connection is kept; a new one has nothing sent on it yet |
| RpcClient.Transport.Close | celery_root/core/db/rpc_client.py:136-140 | afterwards there is no connection |
| RpcClient.Transport.Take | celery_root/core/db/rpc_client.py:184-208 | no reply, one that cannot be read and every other failure closes the connection; else the next reply sent on the connection is taken, and returned if it is well-formed and under the id of the request |
| RpcClient.Transport.SendAndReceive | celery_root/core/db/rpc_client.py:179-202 | the message is sent unless sending fails at once; the outcome is what the next reply on the connection amounts to, or the connection is closed; a reply returned tells what became of the message |
| RpcClient.Transport.Attempt | celery_root/core/db/rpc_client.py:175-210 | an attempt that is to be repeated has closed the connection; one that fails to authenticate ends the request; any other is decided by the last reply on the connection |
| RpcClient.Transport.TryAll | celery_root/core/db/rpc_client.py:172-213 | attempts are made until one decides: its fate and the last reply are the outcome, all others have closed the connection, and the request was sent once in each that got to send; only if all were made is it given up |
| RpcClient.Transport.Request | celery_root/core/db/rpc_client.py:142-213 | a request too large is not sent; else the last attempt decides; no reply is outstanding; a returned reply has this request's id and tells what became of it on the server; it is sent at most once per attempt and handled at most as often as sent |
| RpcClient.DbRpcClient.Call | celery_root/core/db/rpc_client.py:437-465 | the result is read off the last reply: the payload of an ok reply under this id that is valid, the code of an error under this id, and otherwise an exception; a value is the result of a handler run for this call, of which there were at least one and at most `max_retries + 1`; an error reported is never BUSY |
| BeatWorld.StepKeeps | celery_root/components/beat/db_scheduler.py:73-169 | every step keeps all enabled schedules of the app in memory, once loaded, and changes nothing in a row but its run state |
| BeatAccount.WriteCounts | celery_root/components/beat/db_scheduler.py:145-169 | exactly the changed entries whose store succeeds are written with the count held, and those whose store times out are on their way with it |
| BeatAccount.StepSound | celery_root/components/beat/db_scheduler.py:73-169 | no step brings in a count above the starting value plus the firings or below the starting value, late writes included |
| BeatAccount.RunsNeverInvented | celery_root/components/beat/db_scheduler.py:73-169 | over any run, whatever fails and whenever late writes land, a stored count lies between its starting value and that plus the firings |
| BeatAccount.FallsExactly | celery_root/components/beat/db_scheduler.py:73-169 | a step lowers a stored count if and only if it lands a late write with a smaller count, or writes a smaller count held |
| BeatAccount.InOrderExactly | celery_root/components/beat/db_scheduler.py:73-169 | over any run, stored counts never go down nor get ahead of memory if and only if every late write lands between the stored and the held count |
| BeatAccount.NeverFallsWithoutLate | celery_root/components/beat/db_scheduler.py:73-169 | over any run in which no store times out, stored counts never go down, whatever stores are refused and wherever ticks break off |
| BeatAccount.SettledFirst | celery_root/components/beat/db_scheduler.py:91-123 | after the first reload every entry loaded is stored as it is held; the five examples below start from such an entry |
| BeatAccount.StepLosesExactly | celery_root/components/beat/db_scheduler.py:91-123 | a step loses a run if and only if it loads the schedules while some count is not stored |
| BeatAccount.NeverLosesExactly | celery_root/components/beat/db_scheduler.py:73-169 | over any run, no run is ever lost if and only if every reload that takes effect finds all counts stored |
| BeatAccount.LostInTheEndExactly | celery_root/components/beat/db_scheduler.py:73-169 | if late writes land in time, the end of a run tells whether that was so |
| BeatAccount.RunsConserved | celery_root/components/beat/db_scheduler.py:73-169 | over any run in which no store fails and no tick breaks off, no run is ever lost, and after a flush each stored count is the starting value plus the firings |
| BeatAccount.BrokenTickLosesRun | celery_root/components/beat/db_scheduler.py:73-78 | a tick that raises after firing skips the write-back, and a following reload loses the run |
| BeatAccount.FailedStoreLosesRun | celery_root/components/beat/db_scheduler.py:164-169 | so does a store that fails |
| BeatAccount.LateStoreLosesRun | celery_root/components/beat/db_scheduler.py:164-169 | a store that times out and lands after a later store lowers the stored count, and a following reload loses a run that had been stored |
| BeatAccount.LateStoreRestoresRun | celery_root/components/beat/db_scheduler.py:164-169 | a store that times out can also bring back a run that a reload had lost |
| BeatAccount.WriteBackGoesDown | celery_root/components/beat/db_scheduler.py:145-169 | a late write that lands after a reload leaves memory behind, so that the next write-back lowers the stored count |
| BeatTimes.ReloadInstalls | celery_root/components/beat/db_scheduler.py:91-143 | after a reload that takes effect the entries are those of the enabled rows of the app, each with the stored last run time, or the clock if there is none, and the stored count or zero |
| BeatTimes.ReloadSkips | celery_root/components/beat/db_scheduler.py:91-107 | any other reload changes nothing but the time of the attempt, if it was due |
| BeatTimes.FireNotes | celery_root/components/beat/db_scheduler.py:73-78 | firing notes the time in every due entry held, counts each run, and touches nothing else |
| BeatTimes.FlushStores | celery_root/components/beat/db_scheduler.py:145-169 | a changed entry whose store succeeds is stored with the time and count held; every other row and field stays |
| BeatTimes.TimesExact | celery_root/components/beat/db_scheduler.py:73-169 | over any run in which no store fails and no tick breaks off, the last run time held is that of the last firing, or else the stored one, or else that of the last reload, and after a flush the row has it |
| BeatScheduler.DatabaseScheduler.BuildTables | celery_root/components/beat/db_scheduler.py:109-143 | the tables hold the enabled schedules of the app; one unreadable schedule stops the reload |
| BeatScheduler.DatabaseScheduler.LoadSchedules | celery_root/components/beat/db_scheduler.py:109-123 | all three tables are replaced, or none |
| BeatScheduler.DatabaseScheduler.Refresh | celery_root/components/beat/db_scheduler.py:91-107 | it reloads when forced or due and the database answers |
| BeatScheduler.DatabaseScheduler.FireDue | celery_root/components/beat/db_scheduler.py:73-78 | each due entry notes the time and counts a run |
| BeatScheduler.NoteChanges | celery_root/components/beat/db_scheduler.py:148-161 | the changed entries are collected and taken for written |
| BeatScheduler.DatabaseScheduler.Writeback | celery_root/components/beat/db_scheduler.py:145-169 | the changed entries are stored, refused or left with the server as `Written` says, and all are taken for written |
| BeatScheduler.DatabaseScheduler.Perform | celery_root/components/beat/db_scheduler.py:73-169 | reloads, firings, flushes and late writes do to tables and store what the account of runs is proved about |
| BeatScheduler.DatabaseScheduler.Tick | celery_root/components/beat/db_scheduler.py:73-78 | a tick is such a run of a reload, a firing and a flush, unless a schedule of the app is unreadable at a reload that is due, or Celery's part raises |
| SmartRetry.BuildAdjacency | celery_root/core/engine/retry.py:86-91 | the loop over the relations |
| SmartRetry.AdjacencyExact | celery_root/core/engine/retry.py:86-91 | the lists hold exactly the relations that name a parent |
| SmartRetry.NoShortcut | celery_root/core/engine/retry.py:94-107 | a path to an unvisited node is no shorter than the level of the queue's head |
| SmartRetry.DescendantsByDistance | celery_root/core/engine/retry.py:94-107 | the order of a search that queues each node once has exactly the reachable nodes, each once, the start first, in order of distance, each other node after one of its parents |
| SmartRetry.DescendantsBfs | celery_root/core/engine/retry.py:94-107 | the loop, which may queue a node several times, visits the nodes in that very order |
| SmartRetry.Retry | celery_root/core/engine/retry.py:42-83 | what is sent is the sendable part of that order, so exactly the tasks that the failed one leads to by relations of its root and that have a name and a worker; or the task is not found |
| SmartRetry.LeadsToExactly | celery_root/core/engine/retry.py:86-107 | reaching a task in the lists is being led to it by relations of the root, parent by parent |
| SmartRetry.SentExactly | celery_root/core/engine/retry.py:42-83 | the same set, each task once, with the root read off the failed task, or itself if it names none |
| SmartRetry.SendableExact | celery_root/core/engine/retry.py:68-82 | sent are exactly the known descendants with a name and a worker, each once |
| SmartRetry.SendableInOrder | celery_root/core/engine/retry.py:68-82 | of two tasks sent, the one earlier in the order is sent earlier |
| RetryOrder.ParentPosition | celery_root/core/engine/retry.py:51-53 | a parent precedes a deeper child and follows a shallower one |
| RetryOrder.ExchangeOnLevel | celery_root/core/engine/retry.py:94-107 | exchanging two nodes of one level makes another breadth-first order |
| RetryOrder.BfsParentsFirstExactly | celery_root/core/engine/retry.py:51-53 | in every breadth-first order all parents precede all their children if and only if every edge among the descendants leads one level deeper |
| RetryOrder.BeforeFirstChild | celery_root/core/engine/retry.py:94-107 | what is visited before the first child of the k-th node is the start or a child of an earlier node |
| RetryOrder.PathLeads | celery_root/core/engine/retry.py:94-107 | the nodes of a shortest path that is listed first are the first of their levels to be sent |
| RetryOrder.ParentsFirstExactly | celery_root/core/engine/retry.py:51-53 | in the order sent, however the lists of children are permuted, all parents precede all their children if and only if every edge among the descendants leads one level deeper |
| RetryOrder.ParentsFirstHoweverListed | celery_root/core/engine/retry.py:42-53 | the same for all orders in which the relations may be listed |
| RetryOrder.OneListingMayDo | celery_root/core/engine/retry.py:51-53 | a graph with an edge inside a level for which one listing still sends parents first |
| RetryOrder.ParentAfterChild | celery_root/core/engine/retry.py:51-53 | a graph in which a parent is always sent after its child |
| Palette.ChoosePaletteStep | frontend/graph-ui/src/GraphApp.tsx:86-98 | the first number from the target on that is coprime to the size; the fallback is never reached |
| Palette.SameEntryExactly | frontend/graph-ui/src/GraphApp.tsx:314-316 | two indexes share an entry if and only if they are congruent modulo the size |
| Palette.AssignColors | frontend/graph-ui/src/GraphApp.tsx:302-319 | the i-th name gets the entry at i times the step, the step being the first number from just above half the size that is coprime to it; names share a colour if and only if their places are congruent, so the first `n` names get distinct colours |

## Left out

- Django views, templates, React rendering, graph layout: user interface.
- SQLAlchemy, sqlite settings, migrations, `cleanup`, worker and broker tables, the heatmap: tables are maps and sequences; rows are never deleted here.
- Sockets, keys, JSON and pydantic: messages are records; oversized and undecodable ones are cases of a datatype, and what fails is left open.
- Celery and Kombu: firing, received events and sending are steps of the environment. In `BeatWorld` other writers of the schedule table are left out, and a restart of the scheduler is a forced reload.
- The order in which a JavaScript map lists nodes: node maps are unordered, and loops over them take any order. The order of edges, parents and classes is kept.
- Date parsing: a timestamp is absent, unparsable or a number. Display-only properties of a node are one map.
- Lower-casing, trimming and substring search in the filter: the query is a predicate on nodes.
- Upper-casing in the exporters: events carry upper-case states. Histograms, event counters and the online and heartbeat gauges are simple members.
- Exporters.GaugesRun: how labels are made from a broker url is left open; they are any function of it.
- TaskStats.GetThroughput: a size that is not positive makes the bucket loop run forever on a non-empty range; that case is not modelled.
- TaskStats.PercentileMonotone: stated over real numbers; floating-point rounding is not modelled.
- RpcServer.InflightBounded: starting and stopping the listener and failed authentication are not modelled; a thread may hang up whenever it waits for a message.
- RpcClient.Transport.Request: the polling time is not modelled, any attempt may time out; a random id is taken to be new; an ok reply always has a payload.
