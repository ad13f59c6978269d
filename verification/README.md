# QMTL: dependency graphs, scheduling and local execution

A Dafny model of the parts of QMTL that are algorithms and state machines: the graph
services that check and sort strategy graphs, the protocol that selects, queues and
completes ready nodes, the in-process execution engine with its interval history, and the
stateful indexes beside them (connection pool, node registry, default intervals, progress).
Objects whose methods update their fields are classes, loops are loops, and each method is
proved against functions and predicates whose own properties are proved as lemmas.

`dafny verify dfyconfig.toml` checks the whole project.

| file | contents |
|---|---|
| Sequences.dfy, Graphs.dfy, Levels.dfy | sequences without repeats, walks, cycles, topological orders, blocked nodes, longest-chain levels |
| ShortestCycles.dfy, Kahn.dfy, DagService.dfy, RepeatedIds.dfy | the DAG service: breadth-first cycle extraction, in-degree sort, the class, and what a repeated id can do to it |
| GraphBuilder.dfy, Pipelines.dfy, SortAgreement.dfy | the two depth-first sorts, and the agreement of all three |
| ReadySelection.dfy, WorkQueues.dfy, QueueWorkers.dfy | the selector, the Redis queue and the worker |
| Protocol.dfy, Rounds.dfy | their steps as one protocol, over all interleavings and in rounds |
| Evaluation.dfy, LocalEngine.dfy, RunLaws.dfy | the recursive meaning of a pipeline, the engine that computes it, and what a run leaves behind |
| HistoryStore.dfy, HistoryLaws.dfy, HistoryRuns.dfy, IntervalTtl.dfy | the two interval stores, each operation item by item, whole runs, expiry read off interval names |
| ConnectionPool.dfy, NodeRegistry.dfy, DefaultIntervals.dfy, Progress.dfy | stateful resources and indexes |

## What is established

- **Cycles.** `verify_acyclic` succeeds exactly on acyclic graphs and sets `verified` only
  then; `Valid()` carries "verified implies acyclic" through every method. `_find_cycle_path`
  returns `[]` exactly when its start lies on no cycle, and otherwise a shortest cycle through it.
- **Sorting.** The in-degree loop emits exactly the nodes that reach neither a cycle nor an
  unregistered id, in level order; the sort succeeds exactly on acyclic graphs without missing
  ids. This rests on the two adjacency maps being converse multisets, which holds after a build
  exactly when no node of the list resets a dependency list that is not empty by then (a repeated
  id that comes without dependencies). On any maps the loop computes `KahnOrder`, and after a
  reset that can put a node before its dependency: RepeatedIds.dfy gives a list of five nodes whose
  graph can be sorted and for which the service succeeds with another order. The three sorts of
  the repository accept the same graphs.
- **Scheduling.** Over every interleaving of select-and-enqueue, pop and complete, completions
  only grow and are closed under dependencies, everything queued waits for nothing, and ready
  nodes are pairwise unrelated; k rounds complete exactly the k lowest levels, and every sortable
  graph is finished after exactly as many rounds as it has levels. Two false variants
  are settled: queueing a stale selection keeps completions exactly when it lists no completed
  node, and completing an id that is not being processed is safe exactly when its dependencies
  are completed.
- **Execution.** The engine loop computes the recursive meaning of the pipeline, whatever order
  the sort found, and fails for a missing value exactly when a needed source is absent; without
  inputs it succeeds exactly on sortable pipelines. Its results are the only solution of the
  pipeline's equations for the inputs, and every history is accounted for: under a setting object
  with cap m the run's own result stands in front of at most m items and at most 100.
- **History.** The two stores agree on a node and an interval after every run of any operations
  exactly when neither name contains a colon. Cleaning up at any moments never costs a reader a live
  item, whatever the names, as long as caps are not negative. A negative cap breaks that (Python
  slices from the end): for each one there is a run of saves and one cleanup that loses the newest
  item, so a cap is harmless in all runs exactly when it is not negative.
- **Connections.** Under any interleaving permits are conserved, clients are exclusive and none is
  lost: each is pooled, held or closed. From every reachable state some continuation ends all
  sessions and frees every permit.
- **Default intervals.** Completing a node twice gives the verdict, the dictionary and the periods
  of completing it once, on shared setting objects.
- **Progress.** The stored percentage shows 100.0 exactly when the missing half-points are at most
  a thousandth of the nodes; below 1000 nodes that means everything is finished.

## Assumptions

- Ids are distinct where a statement says so (`DistinctIds`); `AddNode` itself is specified for repeated ids too.
- The selector, the worker and the queue share one status dictionary, and a selection is queued at once.
- Node functions are total and depend only on the map of upstream results; the clock never goes back.
- A setting object does not stand under two different interval keys (`Tidy`); only the statements that need it mention it.
- A session releases only the client it obtained.

## Model

| member | source | states |
|---|---|---|
| Graphs.WalkDescends | src/qmtl/dag_manager/strategy/dag_service.py:127-164 | in an order with dependencies first, every dependency chain moves strictly to earlier positions |
| Graphs.TopoOrderSortable | src/qmtl/dag_manager/strategy/dag_service.py:160-164 | only an acyclic graph whose dependencies are all registered has a dependencies-first permutation |
| Graphs.StuckIsBlocked | src/qmtl/dag_manager/strategy/dag_service.py:150-162 | a node that always keeps an unemitted dependency reaches a cycle or an unregistered id |
| Graphs.SortableIffUnblocked | src/qmtl/dag_manager/strategy/dag_service.py:160-162 | a graph is acyclic and closed exactly when no node reaches a cycle or an unregistered id |
| Levels.DeepestDependency | src/qmtl/dag_manager/strategy/dag_service.py:150-158 | a node's longest chain is one longer than that of one of its dependencies |
| Levels.UnfinishedMinimum | src/qmtl/dag_manager/core/ready_node_selector.py:37-44 | while something is unfinished, some unfinished node has only finished dependencies |
| Kahn.Decrement | src/qmtl/dag_manager/strategy/dag_service.py:155-158 | counting one dependent down keeps the exact in-degree counts and the level order of output and queue |
| Kahn.NewlyReadyLevel | src/qmtl/dag_manager/strategy/dag_service.py:155-158 | a node whose count reaches zero is exactly one level above the node just emitted |
| Kahn.Finish | src/qmtl/dag_manager/strategy/dag_service.py:150-162 | when the queue is empty, exactly the unblocked nodes were emitted, dependencies first and level by level, and the length test decides sortability |
| ShortestCycles.NearIsDone | src/qmtl/dag_manager/strategy/dag_service.py:108-123 | whatever is nearer to the start than the node being expanded has been expanded already |
| ShortestCycles.ClosingIsShortest | src/qmtl/dag_manager/strategy/dag_service.py:111-119 | when the search meets its start again, no closed walk through the start is shorter |
| ShortestCycles.ScanNeighbors | src/qmtl/dag_manager/strategy/dag_service.py:111-123 | stops exactly at the start and then knows the shortest length; otherwise every new dependency is queued one step further away |
| ShortestCycles.Exhausted | src/qmtl/dag_manager/strategy/dag_service.py:108-125 | an exhausted search means that the start lies on no cycle |
| ShortestCycles.ReadCycle | src/qmtl/dag_manager/strategy/dag_service.py:114-119 | the parent pointers spell a cycle along dependency edges with distinct inner nodes, as long as the distance says |
| Kahn.KahnOrderEmitsUnblocked | src/qmtl/dag_manager/strategy/dag_service.py:136-162 | followed on converse maps, the loop emits exactly the unblocked nodes, dependencies first and level by level |
| Kahn.QueueComesFirst | src/qmtl/dag_manager/strategy/dag_service.py:146-158 | whatever is queued is emitted in its order before anything that joins later |
| Kahn.SourcesComeFirst | src/qmtl/dag_manager/strategy/dag_service.py:146-158 | nodes without dependencies are emitted in the order in which they were added |
| DagServices.RecordDistinct | src/qmtl/dag_manager/strategy/dag_service.py:29-35 | with distinct ids the recorded lists are the nodes' own dependency lists |
| DagServices.ConverseAfterAdd | src/qmtl/dag_manager/strategy/dag_service.py:29-39 | adding a node keeps the two maps converse multisets exactly unless it resets a non-empty list |
| DagServices.MirroredIffNoResets | src/qmtl/dag_manager/strategy/dag_service.py:44-52 | the maps built from a list are converse multisets exactly when no node of it resets a non-empty list; a reset is never repaired |
| DagServices.DAGService.AddNode | src/qmtl/dag_manager/strategy/dag_service.py:21-42 | nodes, insertion order, recorded dependencies and the flag after an addition, and when the maps stay mirrored |
| DagServices.DAGService.ReverseEntry | src/qmtl/dag_manager/strategy/dag_service.py:17-18 | reading a missing key inserts an empty list and changes no recorded dependency |
| DagServices.DAGService.FindCyclePath | src/qmtl/dag_manager/strategy/dag_service.py:95-125 | returns nothing exactly when the start lies on no cycle, and otherwise a shortest cycle through it |
| DagServices.DAGService.DfsDetectCycle | src/qmtl/dag_manager/strategy/dag_service.py:67-85 | without a cycle everything below the id is finished and grounded; otherwise a shortest cycle is reported |
| DagServices.DAGService.VerifyAcyclic | src/qmtl/dag_manager/strategy/dag_service.py:55-93 | succeeds and sets the flag exactly when no cycle exists, and reports a shortest cycle otherwise |
| DagServices.DAGService.BuildDag | src/qmtl/dag_manager/strategy/dag_service.py:44-53 | records the whole list, says exactly when the maps are mirrored, and succeeds exactly when it is acyclic |
| DagServices.DAGService.InDegrees | src/qmtl/dag_manager/strategy/dag_service.py:136-144 | every registered node's count is the length of its dependency list, repeats included |
| DagServices.DAGService.EmitReady | src/qmtl/dag_manager/strategy/dag_service.py:146-158 | the queue loop terminates on any maps and emits the order they prescribe; on mirrored maps exactly the unblocked nodes in level order |
| DagServices.DAGService.GetTopologicalOrder | src/qmtl/dag_manager/strategy/dag_service.py:127-164 | a shortest cycle exactly on cyclic graphs, otherwise the order of the loop exactly when it has every node; on mirrored maps success exactly on sortable graphs, with a level-ordered dependencies-first permutation |
| DagServices.DAGService.GetTopologicalSortResult | src/qmtl/dag_manager/strategy/dag_service.py:166-175 | the same outcome and order, together with the registered node of every element |
| DagServices.DAGService.GetDependencies | src/qmtl/dag_manager/strategy/dag_service.py:212-228 | the registered nodes among the recorded dependencies, in order and with repeats |
| DagServices.DAGService.GetDependents | src/qmtl/dag_manager/strategy/dag_service.py:230-244 | the registered nodes among the recorded dependents, in order and with repeats |
| DagServices.ResolveConcat | src/qmtl/dag_manager/strategy/dag_service.py:212-244 | looking the ids of a list up keeps their order |
| DagServices.DAGService.QueriesAreConverse | src/qmtl/dag_manager/strategy/dag_service.py:212-244 | a node is listed among another's dependents exactly as often as the other among its dependencies |
| RepeatedIds.ResetBreaksOrder | src/qmtl/dag_manager/strategy/dag_service.py:29-39 | a concrete list with a reset whose graph can be sorted, while the loop emits a node before its dependency |
| RepeatedIds.BuildReadded | src/qmtl/dag_manager/strategy/dag_service.py:44-53 | building that list succeeds and leaves maps that are not mirrored |
| RepeatedIds.SortReadded | src/qmtl/dag_manager/strategy/dag_service.py:127-164 | sorting it succeeds with the wrong order |
| GraphBuilding.Visitor.Visit | src/qmtl/dag_manager/core/graph_builder.py:42-52 | the search below one id ends; it finishes it, or meets a real cycle, or names an unregistered dependency |
| GraphBuilding.GraphBuilder.GetTopologicalSortResult | src/qmtl/dag_manager/core/graph_builder.py:34-56 | succeeds exactly on sortable graphs with a dependencies-first permutation, and each error names its cause |
| GraphBuilding.GraphBuilder.BuildDag | src/qmtl/dag_manager/core/graph_builder.py:24-32 | the dictionary of nodes together with such an order |
| GraphBuilding.DeriveEdges | src/qmtl/dag_manager/core/graph_builder.py:61-68 | the edge list in node and dependency order |
| GraphBuilding.EdgeAt | src/qmtl/dag_manager/core/graph_builder.py:61-68 | the place of every edge: nodes in list order, and for each its dependencies in order |
| GraphBuilding.EdgeMultiplicity | src/qmtl/dag_manager/core/graph_builder.py:61-68 | an edge occurs exactly as often as its target lists its source |
| Pipelines.ColourSearch.Visit | src/qmtl/sdk/pipeline.py:223-241 | for any iteration order of upstream sets the search ends, and finishes the node or names one on a cycle |
| Pipelines.Pipeline.AddNode | src/qmtl/sdk/pipeline.py:116-128 | rejects a repeated name and changes nothing then; otherwise registers the node and drops the cached order |
| Pipelines.Pipeline.ValidateDependencies | src/qmtl/sdk/pipeline.py:181-197 | reports an unknown upstream exactly when there is one |
| Pipelines.Pipeline.TopologicalSort | src/qmtl/sdk/pipeline.py:199-248 | success, unknown upstream and circular dependency each exactly when they apply |
| Pipelines.Pipeline.GetExecutionOrder | src/qmtl/sdk/pipeline.py:250-259 | the cache is always a valid order of the current nodes, is reused when present, and filled otherwise |
| SortAgreement.SortThreeWays | src/qmtl/dag_manager/core/graph_builder.py:34-56 | the three sorts accept exactly the same graphs and return permutations of the same ids |
| ReadySelection.ReadyAmongExact | src/qmtl/dag_manager/core/ready_node_selector.py:37-44 | the selected ids are exactly the ready ones, each once |
| ReadySelection.EdgesMapMembers | src/qmtl/dag_manager/core/ready_node_selector.py:46-52 | the upstreams of an id are those of every node that carries it |
| ReadySelection.ReadyInOrder | src/qmtl/dag_manager/core/ready_node_selector.py:37-44 | the selection keeps the order it is taken from |
| ReadySelection.EdgesMapDistinct | src/qmtl/dag_manager/core/ready_node_selector.py:46-52 | with distinct ids the joined upstream lists are the graph's own |
| ReadySelection.ReadyNodeSelector.ReverseAdjacencyList | src/qmtl/dag_manager/core/ready_node_selector.py:46-52 | every id gets the joined upstream lists of the nodes that carry it |
| ReadySelection.ReadyNodeSelector.GetReadyNodes | src/qmtl/dag_manager/core/ready_node_selector.py:31-44 | succeeds exactly on sortable graphs; an id is selected exactly when its status is absent, PENDING or READY and every dependency is COMPLETED; topological order is kept |
| WorkQueues.RunConserves | src/qmtl/dag_manager/core/queue_repository.py:46-69 | in every run, popped items are a prefix of pushed ones and pushed items are waiting, processing or removed |
| WorkQueues.WithoutConcat | src/qmtl/dag_manager/core/queue_repository.py:57-69 | removing an item from the processing list keeps the order of the others |
| WorkQueues.RedisQueueRepository.Push | src/qmtl/dag_manager/core/queue_repository.py:46-48 | the item enters at the left end |
| WorkQueues.RedisQueueRepository.Pop | src/qmtl/dag_manager/core/queue_repository.py:50-52 | the rightmost waiting item moves to the left of the processing list |
| WorkQueues.RedisQueueRepository.Complete | src/qmtl/dag_manager/core/queue_repository.py:57-69 | true exactly when at least one copy was processing; all copies go, and only then the result is stored and all results live on |
| WorkQueues.RedisQueueRepository.GetResult | src/qmtl/dag_manager/core/queue_repository.py:74-82 | the stored result unless absent or expired |
| QueueWorkers.QueueWorker.EnqueueReadyNodes | src/qmtl/dag_manager/core/queue_worker.py:27-32 | every listed node is pushed in list order, so that the first is popped first, and marked READY; nothing else changes |
| QueueWorkers.QueueWorker.CompleteNode | src/qmtl/dag_manager/core/queue_worker.py:34-37 | the status becomes COMPLETED in any case; the result says whether the id was being processed |
| QueueWorkers.SelectAndEnqueue | src/qmtl/dag_manager/core/queue_worker.py:27-32 | selecting and queueing at once is the select step of the protocol |
| QueueWorkers.UnsolicitedCompletion | src/qmtl/dag_manager/core/queue_worker.py:36-37 | completing an id outside processing keeps the state safe exactly when its dependencies are completed |
| QueueWorkers.CompletedTooEarly | src/qmtl/dag_manager/core/queue_worker.py:36-37 | a concrete initial state in which completing one id keeps safety and completing another breaks it |
| Protocol.EnqueueKeepsCompletedIff | src/qmtl/dag_manager/core/queue_worker.py:29-31 | queueing a list takes no completion back exactly when it lists no completed node |
| Protocol.StaleSelectionUndoesCompletion | src/qmtl/dag_manager/core/queue_worker.py:29-31 | a concrete run in which queueing an old selection takes a completion back |
| Protocol.StepKeeps | src/qmtl/dag_manager/core/queue_worker.py:27-37 | each of the three steps keeps the safety invariant and loses no completion |
| Protocol.CompletedOnlyGrows | src/qmtl/dag_manager/core/queue_worker.py:34-37 | of two moments of one run the later has all completions of the earlier |
| Protocol.ReadyAntichain | src/qmtl/dag_manager/core/ready_node_selector.py:37-44 | in a safe state no ready node is an ancestor of another |
| Protocol.EveryRunIsSafe | src/qmtl/dag_manager/core/queue_repository.py:46-69 | every interleaving from an initial state keeps completions closed, queued nodes launchable and ready nodes unrelated |
| Rounds.RoundCompletesLevel | src/qmtl/dag_manager/core/queue_worker.py:27-37 | one executable round of select, drain and complete finishes exactly the next level |
| Rounds.RoundsCompleteLevels | src/qmtl/dag_manager/core/ready_node_selector.py:31-44 | after k rounds the completed nodes are exactly those with a longest chain shorter than k |
| Rounds.EveryRunEnds | src/qmtl/dag_manager/core/ready_node_selector.py:31-44 | every sortable graph has a number of levels, and in every run everything is completed exactly from that many rounds on |
| Rounds.SomethingIsReady | src/qmtl/dag_manager/core/ready_node_selector.py:37-44 | with nothing running or failed, the ready list is empty exactly when everything is completed |
| Evaluation.NoValueIffSourceMissing | src/qmtl/sdk/execution/local.py:194-197 | a node has no value exactly when it is, or descends from, a source that is not given |
| Evaluation.ProcessingInputsIgnored | src/qmtl/sdk/execution/local.py:42-48 | input values for processing nodes influence no node |
| LocalEngine.LocalExecutionEngine.PrepareNodeInputs | src/qmtl/sdk/execution/local.py:180-198 | the upstream results, or the upstream that lacks one |
| LocalEngine.LocalExecutionEngine.RunNode | src/qmtl/sdk/execution/local.py:41-97 | one turn takes an input, skips a source, or computes and records the evaluated value; the two middle branches are dead |
| LocalEngine.LocalExecutionEngine.RecordResult | src/qmtl/sdk/execution/local.py:112-150 | one save per interval of the node with its cap and its given or inferred expiry, and no other list changes |
| LocalEngine.LocalExecutionEngine.TrimAll | src/qmtl/sdk/execution/local.py:157-176 | exactly the configured intervals are cut to their caps, in both stores |
| LocalEngine.LocalExecutionEngine.ExecutePipeline | src/qmtl/sdk/execution/local.py:24-178 | results solve the pipeline's equations, every processing node from its upstreams and every given source from its input; each failure exactly when it applies, and none without inputs on a sortable pipeline; the histories after the run |
| IntervalTtl.InferredFromDecimal | src/qmtl/sdk/execution/local.py:130-141 | a decimal count with the unit d, h or m behind it is read as that many seconds, any other unit as nothing |
| IntervalTtl.SignedDecimal | src/qmtl/sdk/execution/local.py:133 | a plus or minus sign in front of the number is read |
| IntervalTtl.DigitsExact | src/qmtl/sdk/execution/local.py:133 | digits are read exactly when there are only digits with single underscores between them, with their decimal value |
| LocalEngine.LivesForItsInterval | src/qmtl/sdk/execution/local.py:130-141 | under a dictionary setting without a TTL an item stays readable exactly for the length its interval name says |
| LocalEngine.FailsIffSourceAncestorMissing | src/qmtl/sdk/execution/local.py:42-58 | a run lacks a value exactly when some node has a source ancestor absent from the inputs |
| LocalEngine.ResultsIndependentOfOrder | src/qmtl/sdk/pipeline.py:213-248 | two runs give equal results whatever orders were used |
| LocalEngine.ResultsSatisfyEquations | src/qmtl/sdk/execution/local.py:87-97 | without inputs each result is the node's function of its upstreams' results |
| LocalEngine.HistoryIsCapped | src/qmtl/sdk/execution/local.py:157-176 | after a run a configured interval holds at most `max_history` items, 100 for a dictionary, the run's own result in front |
| RunLaws.SolutionUnique | src/qmtl/sdk/execution/local.py:42-97 | the equations of a run have at most one solution for given inputs |
| RunLaws.ObjectHistory | src/qmtl/sdk/execution/local.py:143-176 | under a setting object a computed node's history gains the result in front and keeps the newest old items, `max_history` or 100 in all; a skipped node's is cut to `max_history` |
| RunLaws.DictionaryHistory | src/qmtl/sdk/execution/local.py:124-176 | under a dictionary likewise with its own cap, 100 at the end, and its TTL or the one its interval name suggests |
| RunLaws.UnconfiguredHistory | src/qmtl/sdk/execution/local.py:148-150 | a node without settings saves under "1d", at most 100 without expiry, and no other list changes |
| HistoryStore.Stores.SaveIntervalData | src/qmtl/sdk/execution/local.py:227-270 | in both stores the list has the new item in front, with this value, time and expiry, and behind it as many old ones as the cap allows |
| HistoryStore.Stores.GetIntervalData | src/qmtl/sdk/execution/local.py:200-225 | the live items of the nested store, or of the cache if that has none, up to the limit |
| HistoryStore.Stores.CleanupExpiredData | src/qmtl/sdk/execution/local.py:272-306 | only live items stay, and emptied lists and nodes lose their keys |
| HistoryStore.Stores.ClearCache | src/qmtl/sdk/execution/local.py:308-347 | the four forms of clearing, on both stores |
| HistoryStore.Stores.Trim | src/qmtl/sdk/execution/local.py:166-176 | one interval is cut in both stores and created in neither |
| HistoryLaws.ReadLaw | src/qmtl/sdk/execution/local.py:200-225 | a reader gets the first `limit` of the unexpired items of the nested list, or of the cached one if there is none |
| HistoryLaws.CleanupLaw | src/qmtl/sdk/execution/local.py:272-306 | each list keeps exactly its unexpired items in order; lists without any, and nodes without lists, disappear |
| HistoryLaws.ClearLaw | src/qmtl/sdk/execution/local.py:308-347 | the cache loses exactly the keys that can be read as names meant by the arguments, the nested store exactly those lists |
| HistoryLaws.OthersUntouched | src/qmtl/sdk/execution/local.py:166-176 | saving and trimming touch one cache key and one nested list, and trimming creates none |
| HistoryLaws.TrimLaw | src/qmtl/sdk/execution/local.py:166-176 | a trim keeps the newest items up to the cap in both stores |
| HistoryStore.CutIsPrefix | src/qmtl/sdk/execution/local.py:225 | a slice is a prefix of the bound's length, or shorter by a negative bound |
| HistoryRuns.KeyInjective | src/qmtl/sdk/execution/local.py:250 | a cache key built from colon-free names is built from no other names |
| HistoryRuns.ClearsMatching | src/qmtl/sdk/execution/local.py:317-342 | the prefix and suffix tests hit a colon-free entry exactly when its names match |
| HistoryRuns.AlwaysAgreeIffColonFree | src/qmtl/sdk/execution/local.py:227-347 | both stores hold the same list for a node and an interval after every run of saves, cleanups, clears and trims exactly when neither name has a colon |
| HistoryRuns.FallbackNeverMatters | src/qmtl/sdk/execution/local.py:213-218 | reading either store alone gives what the engine reads |
| HistoryRuns.CleanupThins | src/qmtl/sdk/execution/local.py:272-306 | in either store the list of a run without cleanups is, up to dead items, a prefix of the list with them |
| HistoryRuns.CleanupNeverLosesLiveData | src/qmtl/sdk/execution/local.py:272-306 | what is readable without cleanups is a prefix of what is readable with cleanups anywhere, for any names |
| HistoryRuns.NegativeCapLosesLiveData | src/qmtl/sdk/execution/local.py:257-259 | for every negative cap a run in which one cleanup costs the reader the newest live item |
| HistoryRuns.CapSafeIffNatural | src/qmtl/sdk/execution/local.py:257-259 | over all runs whose other caps are natural, cleanups never cost a live item exactly when the cap is not negative |
| HistoryRuns.HistoryFollowsLog | src/qmtl/sdk/execution/local.py:255-270 | every history is a newest-first subsequence of what was saved |
| HistoryRuns.LogIgnoresCleanups | src/qmtl/sdk/execution/local.py:272-306 | runs with and without cleanups are compared with one and the same log |
| ConnectionPool.StepKeeps | src/qmtl/common/db/connection_pool.py:57-107 | every atomic step, failed creation included, keeps permits conserved, clients exclusive and open clients bounded |
| ConnectionPool.PoolIsSafe | src/qmtl/common/db/connection_pool.py:57-107 | under any interleaving permits add up to the size, no client is shared, closed while in use or lost, and at most the size are open |
| ConnectionPool.StepLeaksNothing | src/qmtl/common/db/connection_pool.py:57-107 | after every step each client ever created is pooled, held or closed |
| ConnectionPool.EverythingReturns | src/qmtl/common/db/connection_pool.py:66-87 | from every safe pool some executable run ends all sessions, and then every permit is free |
| ConnectionPool.WaitingIsServed | src/qmtl/common/db/connection_pool.py:57-87 | after any run from a fresh pool, a waiting session can be given a permit by some continuation |
| ConnectionPool.Neo4jConnectionPool.GetClient | src/qmtl/common/db/connection_pool.py:57-77 | the last pooled client, or a new one if none is pooled; a failed creation leaves the pool as it was |
| ConnectionPool.Neo4jConnectionPool.ReleaseClient | src/qmtl/common/db/connection_pool.py:79-87 | the client joins the pool at its end and a permit is free again |
| ConnectionPool.Neo4jConnectionPool.CloseAll | src/qmtl/common/db/connection_pool.py:102-107 | exactly the pooled clients are closed and forgotten |
| NodeRegistry.InMemoryNodeService.AddContainsRelationship | src/qmtl/dag_manager/registry/services/node/memory_impl.py:116-136 | the relation gains this pair if the node is registered, appended once on both sides |
| NodeRegistry.InMemoryNodeService.RemoveContainsRelationship | src/qmtl/dag_manager/registry/services/node/memory_impl.py:138-158 | the relation loses exactly this pair, and emptied lists lose their keys |
| NodeRegistry.InMemoryNodeService.DeleteNode | src/qmtl/dag_manager/registry/services/node/memory_impl.py:36-50 | the node and every pair with it disappear, and nothing else |
| NodeRegistry.InMemoryNodeService.GetNodeRefCount | src/qmtl/dag_manager/registry/services/node/memory_impl.py:160-167 | the number of strategies whose node list contains the node |
| NodeRegistry.InMemoryNodeService.GetNodeRefStrategies | src/qmtl/dag_manager/registry/services/node/memory_impl.py:169-176 | exactly the strategies related to the node, each once |
| NodeRegistry.InMemoryNodeService.GetStrategyNodes | src/qmtl/dag_manager/registry/services/node/memory_impl.py:178-189 | exactly the registered nodes related to the strategy, in list order |
| NodeRegistry.RemoveFirstSplit | src/qmtl/dag_manager/registry/services/node/memory_impl.py:138-158 | removing an entry keeps the order of the others |
| NodeRegistry.RefCountIsNumberOfStrategies | src/qmtl/dag_manager/registry/services/node/memory_impl.py:160-189 | the two maps being converse, the length of a node's list counts the strategies that list it |
| DefaultIntervals.MergeIdempotent | src/qmtl/sdk/pipeline.py:70-78 | merging twice is merging once, and every default key is present |
| DefaultIntervals.MergeCompletes | src/qmtl/sdk/pipeline.py:70-78 | a period other than 1 stays, an absent one or 1 takes the default if there is one, and missing keys come from the defaults |
| DefaultIntervals.CompleteExact | src/qmtl/sdk/pipeline.py:79-101 | settings are complete when there is one, each has a period other than 0 and a non-empty interval |
| DefaultIntervals.ConfiguredPipeline.FillFromDefaults | src/qmtl/sdk/pipeline.py:70-78 | the loop over shared objects computes the merge and leaves the defaults as they were |
| DefaultIntervals.ConfiguredPipeline.CheckSettings | src/qmtl/sdk/pipeline.py:79-101 | accepts exactly complete settings, a period of 0 counting as missing; periods are checked first |
| DefaultIntervals.ConfiguredPipeline.ApplyDefaultIntervals | src/qmtl/sdk/pipeline.py:46-101 | the node keeps its own setting objects and gets the defaults' for missing keys; explicit periods stay, absent ones and 1 take the default; acceptance exactly when the result is complete |
| DefaultIntervals.ConfiguredPipeline.ApplyTwice | src/qmtl/sdk/pipeline.py:46-101 | the second application gives the same verdict, and after both the dictionary and the periods are those of a single merge and the defaults as before |
| DefaultIntervals.ConfiguredPipeline.AddNode | src/qmtl/sdk/pipeline.py:103-128 | a taken name changes nothing; a node with rejected settings is merged but not registered; an accepted one is registered complete, and the cached order dropped |
| Progress.ExactInRange | src/qmtl/dag_manager/execution/status_service.py:280-288 | progress lies between 0 and 100 and is 100 exactly when every node is finished |
| Progress.RoundTenthClose | src/qmtl/dag_manager/execution/status_service.py:295 | the stored value is within 0.05 of the exact one |
| Progress.RoundTenthExact | src/qmtl/dag_manager/execution/status_service.py:295 | the stored value is a whole number of tenths, and the even one of two equally near |
| Progress.ExactCounts | src/qmtl/dag_manager/execution/status_service.py:279-288 | COMPLETED and FAILED nodes count fully, RUNNING ones half, others not |
| Progress.StoredHundred | src/qmtl/dag_manager/execution/status_service.py:288-295 | 100.0 is stored exactly when the missing half-points are at most a thousandth of the nodes |
| Progress.HundredMeansFinished | src/qmtl/dag_manager/execution/status_service.py:288-295 | below 1000 nodes 100.0 is stored exactly when every node is finished |
| Progress.ThousandNodesRoundUp | src/qmtl/dag_manager/execution/status_service.py:288-295 | from 1000 nodes on, one running node among finished ones already shows as 100.0 |
| Progress.ForwardNeverFalls | src/qmtl/dag_manager/execution/status_service.py:280-295 | exact progress falls exactly on a move that is not forward, and the stored value never falls on a forward one |
| Progress.StatusService.CountPoints | src/qmtl/dag_manager/execution/status_service.py:279-285 | the two sums count the finished and the running nodes |
| Progress.StatusService.UpdatePipelineProgress | src/qmtl/dag_manager/execution/status_service.py:264-297 | the stored progress of a known, non-empty pipeline is its rounded percentage; otherwise nothing changes |
| Progress.StatusService.UpdateNodeStatus | src/qmtl/dag_manager/execution/status_service.py:151-210 | unknown pipelines and nodes are refused without a change; otherwise the status and the stored progress are current |

## Left out

- HTTP routers, gateway middlewares, clients, Kafka, Redis and Neo4j connections, Cypher, container generation and visualisation: I/O around the modelled logic.
- Protobuf and Pydantic serialisation, including writing a changed period back to a protobuf copy.
- The parallel execution engine: it rebuilds its inputs from a single message, so nodes with several upstreams never run.
- Query nodes, selectors and the results cache of `Pipeline.execute`; root and leaf queries of the DAG service; node metadata: they would only add easy members.
- Timeouts, debug output and execution times of the local engine, and exceptions raised by node functions.
- The `interval_settings` attribute the engine consults before the stream settings: no node class of the SDK sets it. In interval names only ASCII digits and ASCII space are read as numbers.
- The binding of upstream results to the parameter names of a node function: a node function takes the map of upstream results.
- In the engine a node's settings are values; the sharing and updating of setting objects is modelled in DefaultIntervals.dfy only, where a setting is always an object and never a plain dictionary.
- The remaining fields and methods of the status service: timestamps, result maps, pipeline status and clean-up by age. Progress is exact, not floating point.
- Node status, dependency editing and tag queries of the node registry.
- The Redis pop timeout: a pop that stays without an item returns nothing. Results are stored without JSON encoding.
- Pipelines.Pipeline.AddNode: does not include the merge of default intervals, which is modelled on shared objects as DefaultIntervals.ConfiguredPipeline.AddNode; a node it rejects is not registered.
- DagServices.DAGService.GetTopologicalOrder: promises a dependencies-first order only for mirrored maps, because it can fail otherwise (RepeatedIds.ResetBreaksOrder; MirroredIffNoResets says when the maps are mirrored).
- SortAgreement.SortThreeWays: stated for distinct ids, because a repeated id is rejected by the pipeline, overwrites in the builder and accumulates in the service.
- HistoryRuns.CleanupNeverLosesLiveData: stated for caps that are not negative, because it fails in some run for any other (NegativeCapLosesLiveData).
- HistoryRuns.FallbackNeverMatters: stated for names without a colon, because the stores differ after some run for any other (AlwaysAgreeIffColonFree).
