# Verified model of the trading-agent components

This project models the self-contained components of the crypto-swarms agent system that carry hard
properties, and proves those properties for all inputs, all runs and all interleavings. `dafny verify
dfyconfig.toml` checks everything.

Every component has the same layers. Pure functions say what one operation does to a value; a run is a
sequence of operations, and the theorems are about every state of every run. Where the Python code updates
objects, dicts or lists in place, a class does the same with the same branches, loops and order of effects,
and the postconditions of its methods equate the new state with those functions. A loop of the source is a
loop here, with its invariant.

| file | component |
|---|---|
| `EventStreams.dfy` | the retrying event bus over Redis streams |
| `RateLimiter.dfy` | the token buckets and the limiter with a shared default bucket |
| `MemoryDag.dfy` | the memory graph, its iterative search, its two writers, saving and loading |
| `PositionManager.dfy` | positions, trailing stops, exits and the book |
| `RuntimeMiddleware.dfy` | nested retry layers |
| `SignalDeduplicator.dfy` | the in-memory TTL cache with a capacity limit |
| `ExecutionCoordinator.dfy` | orders under per-symbol locks |
| `SubagentExecutor.dfy`, `ValidationPipeline.dfy` | tasks under a semaphore, and the parallel validation gates built on them |
| `ParameterSweep.dfy` | the backtracking sweep over one shared dict |
| `AuditChain.dfy` | the hash-chained log |
| `NightlyOptimizer.dfy`, `AutoResearch.dfy` | the hill climber and the promotion loop around it |
| `BayesianUpdate.dfy`, `EvidenceOrder.dfy` | sequential updates with clamping, and when the order of the evidence matters |
| `Drawdown.dfy` | maximum drawdown |
| `StableSort.dfy`, `Common.dfy` | Python's stable sort, shared vocabulary |

Conventions. Floats are reals and `round` is the identity. Clock readings, uuids and the answers of handlers,
gates, order functions and score functions are inputs; clocks do not go back where a theorem says so, and
uuids are fresh. Hashes are function parameters, with injectivity as a precondition only where it is needed.
Exceptions are result values. Code between two awaits is one step.

Where the code and its surroundings disagree, the model follows the code:

- the retry loop of the orchestrator gives `max_retries + 2` attempts per entry, not `max_retries + 1`
  (agents/orchestration/runtime_middleware.py:72);
- the acknowledgement after a successful handler is inside the `try`, so an error there re-queues an event that
  was handled (cryptoswarms/common/stream_bus.py:98-105);
- a long trailing stop follows the highest price only while the trailing percentage is at most 1, or the trail cannot
  come between stop and target; `PositionManager.TrailingStopExactlyWhen` has the exact condition;
- clamping makes the posterior depend on the order of the evidence; `EvidenceOrder.OrderIrrelevantExactlyWhen` says
  exactly when it does not;
- the parallel validation verdict ignores gates that crash or time out, so a candidate can pass with fewer gates;
- the audit chain protects neither extra keys nor the end of the log;
- `acquire` with more tokens than the capacity never returns.

## Model

| member | source | states |
|---|---|---|
| `EventStreams.RunLosesNothing` | cryptoswarms/common/stream_bus.py:68-105 | In every run of publish, read, process and crash steps, with failing acknowledgements anywhere, each published event keeps a copy that is unacknowledged or was handled successfully (a dead-letter copy is unacknowledged until someone processes it); every copy has the published body and lies in the home stream or a dead-letter stream of it. |
| `EventStreams.ExactlyOneCarrier` | cryptoswarms/common/stream_bus.py:68-105 | Without faults every published event has exactly one such copy, and where it lies tells how many handler calls failed. |
| `EventStreams.ProcessDuplicatesExactlyWhen` | cryptoswarms/common/stream_bus.py:76-77 | One processing step leaves every event with a single carrier if and only if the handler succeeds without an acknowledgement error, or the worker dies before it writes the new copy, or a failed message is replaced without a crash; a crash between the two writes, or an acknowledgement error after success, duplicates. |
| `EventStreams.HandlerCallsBounded` | cryptoswarms/common/stream_bus.py:97-109 | In every run, faults included, the handler runs at most max(1, max_attempts) times on the copies outside dead-letter streams of an event first published with zero attempts, and a live copy carries the number of runs so far. |
| `EventStreams.DeadLetteredIffAllFail` | cryptoswarms/common/stream_bus.py:101-105 | Without faults an event first published with zero attempts has a dead-letter copy if and only if exactly max(1, max_attempts) handler runs failed. |
| `EventStreams.ScheduleDrains` | cryptoswarms/common/stream_bus.py:91-109 | Along every publish-free schedule of reads, process steps (dead-letter copies included) and crashes, the number of handler calls on live copies plus the work left never exceeds the work at the start, the sum of remaining attempts. |
| `EventStreams.DrainedIffNoWork` | cryptoswarms/common/stream_bus.py:102-105 | The work measure is zero exactly when no live copy is left. |
| `EventStreams.FullScheduleDrains` | cryptoswarms/common/stream_bus.py:91-109 | A publish-free schedule that makes as many steps on live copies as there is work ends with no live copy. |
| `EventStreams.FullScheduleExists` | cryptoswarms/common/stream_bus.py:42-109 | From every well-formed state, hence from every reachable one, such a schedule exists: the bound is exact and the bus can always be drained. |
| `EventStreams.RedisStreams.XReadGroup` | cryptoswarms/common/stream_bus.py:48-54 | Delivers the oldest undelivered entries of one stream, in order and at most count of them, and marks exactly these as pending. |
| `EventStreams.RedisStreams.XAck` | cryptoswarms/common/stream_bus.py:65-66 | Acknowledges a pending entry of the named stream and answers 1 exactly then; otherwise nothing changes. |
| `EventStreams.StreamBus.Read` | cryptoswarms/common/stream_bus.py:42-63 | Every message returned describes its entry, was fresh before, and exactly the returned entries became pending. |
| `EventStreams.StreamBus.Retry` | cryptoswarms/common/stream_bus.py:68-78 | A copy in the same stream with one more attempt, the error if there is one, and everything else unchanged is written first; the old entry is acknowledged unless the worker dies in between. |
| `EventStreams.StreamBus.DeadLetter` | cryptoswarms/common/stream_bus.py:80-89 | A copy with the flag and the error, and everything else unchanged, is written first to the stream named with ":dlq"; the old entry is acknowledged unless the worker dies in between. |
| `EventStreams.StreamBus.ProcessWithRetry` | cryptoswarms/common/stream_bus.py:91-105 | The effect on the streams, for every handler outcome and every point of failure, is the process step of the run theorems; a failure buries the message exactly if attempts + 1 reaches max_attempts and retries it otherwise. |
| `RateLimiter.RefillAdditive` | cryptoswarms/adapters/rate_limiter.py:31-36 | Refilling at t and then at u is refilling once at u, for all t <= u. |
| `RateLimiter.WindowBound` | cryptoswarms/adapters/rate_limiter.py:31-54 | In every run with a nondecreasing clock and any mix of acquire passes and reads, the tokens granted in any window from s to t are at most capacity + (t - s) * capacity / refill_seconds. |
| `RateLimiter.GrantedOneMore` | cryptoswarms/adapters/rate_limiter.py:44-54 | The tokens granted grow by exactly what an attempt within the window asks for when the bucket holds that much, and by nothing else. |
| `RateLimiter.BoundAttained` | cryptoswarms/adapters/rate_limiter.py:31-54 | The bound is attained: a full bucket grants its capacity and then whatever was earned since. |
| `RateLimiter.ReadsChangeNothing` | cryptoswarms/adapters/rate_limiter.py:56-59 | Leaving the available_tokens reads out of a run changes no grant in any window and, from its last instant on, not the bucket. |
| `RateLimiter.OneFullSleep` | cryptoswarms/adapters/rate_limiter.py:47-52 | For a request within the capacity, one sleep of the computed time is enough and any shorter one is not. |
| `RateLimiter.AcquirableExactlyWhen` | cryptoswarms/adapters/rate_limiter.py:47-53 | Some later refill satisfies a request if and only if it is within the capacity; a larger request never returns. |
| `RateLimiter.WaitedHasPassed` | cryptoswarms/adapters/rate_limiter.py:44-54 | When no sleep is cut short, the waited time that acquire reports is at most the time that passed, and equal to it when none is prolonged. |
| `RateLimiter.SharedBucketBound` | cryptoswarms/adapters/rate_limiter.py:100-123 | Endpoints that share a bucket -- its own name, or for the default one all without a bucket -- get together, in every window, no more than the bucket's bound. |
| `RateLimiter.SharedGrants` | cryptoswarms/adapters/rate_limiter.py:100-123 | What these endpoints get is exactly what the bucket grants, when they make all the requests that concern it. |
| `RateLimiter.EachBucketAlone` | cryptoswarms/adapters/rate_limiter.py:100-123 | In every run of requests each bucket goes through exactly the requests for its own endpoint, the default one also through those for endpoints without a bucket; nothing else touches it. |
| `RateLimiter.OwnBucketsSpareDefault` | cryptoswarms/adapters/rate_limiter.py:110-114 | Requests for endpoints with a bucket of their own never charge the default one. |
| `RateLimiter.TokenBucket.RefillNow` | cryptoswarms/adapters/rate_limiter.py:31-36 | Adds capacity / refill_seconds tokens for every second passed, up to the capacity, and moves the clock. |
| `RateLimiter.TokenBucket.AvailableTokens` | cryptoswarms/adapters/rate_limiter.py:56-59 | Answers the refilled token count and is a read step of the run model. |
| `RateLimiter.TokenBucket.Acquire` | cryptoswarms/adapters/rate_limiter.py:38-54 | All passes but the last find too few tokens, the last one decides; however often it looped, the bucket ends as after a single attempt at the last reading, and the time reported is the sum of the deficits seen. A request within the capacity whose first sleep was a full one is granted by the second pass at the latest. |
| `RateLimiter.ExchangeRateLimiter.Acquire` | cryptoswarms/adapters/rate_limiter.py:100-123 | An endpoint with its own bucket is served by it, any other by the default one, and with neither the call returns at once; the serving bucket does one acquire, every other keeps its state, and the endpoint's own counter goes up by one when the call is granted. |
| `MemoryDag.LinkStaysAcyclic` | cryptoswarms/memory_dag.py:78-83 | An edge whose target does not reach its source closes no cycle. |
| `MemoryDag.RefusedExactlyWhenCyclic` | cryptoswarms/memory_dag.py:78-83 | On every graph, one more edge leaves it acyclic if and only if it was and the edge's target does not reach its source. |
| `MemoryDag.EveryRunSound` | cryptoswarms/memory_dag.py:34-130 | Every run of node, edge, checkpoint and summary writes from the empty graph, with id collisions that overwrite nodes, keeps the graph acyclic and all edge endpoints present. |
| `MemoryDag.EveryRunPreserves` | cryptoswarms/memory_dag.py:34-183 | The same from any graph, loaded ones with cycles included: endpoints stay present, and the graph is acyclic after any number of writes exactly when it was at the start. |
| `MemoryDag.NothingRefused` | agents/orchestration/dag_memory_bridge.py:100-109 | Linking into a node without outgoing edges is never refused, so the swallowed exception loses no edge. |
| `MemoryDag.WantedAre` | agents/orchestration/dag_memory_bridge.py:104-109 | The edges a writer adds are exactly those from a prior other than the target to the target, one per prior and in order when none is the target. |
| `MemoryDag.FreshCheckpointLinksAll` | agents/orchestration/dag_memory_bridge.py:74-111 | A checkpoint under a new id links each other node among the two latest of its topic to it. |
| `MemoryDag.FreshSummaryLinksAll` | cryptoswarms/dag_summarizer.py:39-58 | A summary under a new id links each of the at most eight latest nodes of its topic to it. |
| `MemoryDag.TokensOneMore` | cryptoswarms/dag_summarizer.py:26 | Each row adds a quarter of its length, rounded down and at least one, to the token estimate. |
| `MemoryDag.ChildrenAreLinked` | cryptoswarms/memory_dag.py:99-104 | The children of a node are exactly the present targets of its edges. |
| `MemoryDag.InTimeOrder` | cryptoswarms/memory_dag.py:93-104 | nodes() and children() ascend in time, and nodes of the same time keep the order of the dict and of the edges. |
| `MemoryDag.LatestAreNewest` | cryptoswarms/memory_dag.py:113-116 | At most max(1, limit) nodes are returned, all of the topic and newest first. |
| `MemoryDag.LeftOutIsOlder` | cryptoswarms/memory_dag.py:113-116 | A node of the topic that is not returned is no newer than any returned one, and then exactly max(1, limit) are returned. |
| `MemoryDag.RoundTrip` | cryptoswarms/memory_dag.py:132-183 | Loading what was saved gives the same node map and edge list, the same nodes() and latest_by_topic() sequences for every topic and limit, ties in time included, and an identical second save; soundness survives. |
| `MemoryDag.LoadSoundExactlyWhen` | cryptoswarms/memory_dag.py:154-183 | Every payload loads into a consistent graph with all endpoints present, whose edges are the payload's edges between its readable nodes, in order; the graph is sound if and only if these edges are acyclic. |
| `MemoryDag.LastEntryCounts` | cryptoswarms/memory_dag.py:157-174 | Of several readable entries with one id the last counts, with all its fields. |
| `MemoryDag.LoaderAcceptsCycle` | cryptoswarms/memory_dag.py:176-183 | An edge from any readable node of any payload to itself is kept, and the loaded graph is then cyclic. |
| `MemoryDag.MemoryDag.AddNode` | cryptoswarms/memory_dag.py:34-57 | Inserts the node under its digest, keeping the place of an id that is overwritten, and leaves the edges alone. |
| `MemoryDag.MemoryDag.Children` | cryptoswarms/memory_dag.py:99-104 | The targets of the node's edges in stable time order. |
| `MemoryDag.MemoryDag.Reachable` | cryptoswarms/memory_dag.py:118-130 | On every graph with its endpoints present, cyclic ones included, the iterative search ends and answers true if and only if a path exists. |
| `MemoryDag.MemoryDag.AddEdge` | cryptoswarms/memory_dag.py:78-83 | On every such graph, adds the edge if and only if both endpoints exist and the target does not reach the source; a refusal changes nothing. |
| `MemoryDag.MemoryDag.LatestByTopic` | cryptoswarms/memory_dag.py:113-116 | Filtering, sorting in reverse and slicing give the sequence that LatestAreNewest and LeftOutIsOlder are about. |
| `MemoryDag.MemoryDag.FromDict` | cryptoswarms/memory_dag.py:154-183 | Builds exactly the specified graph from any payload: entries without id or timestamp and edges without both endpoints are skipped; the result is a valid object, cyclic or not. |
| `MemoryDag.LinkPriors` | agents/orchestration/dag_memory_bridge.py:104-109 | The loop of both writers: the edges of the specification, refusals skipped, the graph still sound. |
| `MemoryDag.WriteDecisionCheckpoint` | agents/orchestration/dag_memory_bridge.py:74-111 | Adds the node under its scoped topic and links the two latest of the topic, as the run model's checkpoint step. |
| `MemoryDag.MaybeSummarizeTopic` | cryptoswarms/dag_summarizer.py:23-58 | Writes a summary if and only if the topic has too many nodes or tokens, and is then the run model's summary step. |
| `PositionManager.TrailingStop` | cryptoswarms/position_manager.py:221-234 | After one or more priced checks the enabled trailing stop is the better of the initial stop and the extreme price seen times (1 - trail) for a long with a trail of at most 1, (1 + trail) for a short, whatever the path. |
| `PositionManager.TrailingStopExactlyWhen` | cryptoswarms/position_manager.py:211-246 | That formula holds on every price path that checks can apply to the position before it closes if and only if it is a short, its trail is at most 1, or, with f = max(entry, 0) * (1 - trail), f is at most the initial stop, or the target is at most f, or max_hold <= 1. |
| `PositionManager.StopOnlyTightens` | cryptoswarms/position_manager.py:225-234 | No check ever loosens a stop. |
| `PositionManager.SlippageNeverHelps` | cryptoswarms/position_manager.py:150-208 | With a positive entry price and a nonnegative size and price, more slippage never raises the profit of a closed trade, for longs and shorts. |
| `PositionManager.PartitionAndConservation` | cryptoswarms/position_manager.py:97-208 | In every run each opened position is in exactly one of open and closed, at most once; no two open positions share symbol and strategy; the total size ever opened is the portfolio heat plus the sizes of the closed trades. |
| `PositionManager.OpenPositionsAreCurrent` | cryptoswarms/position_manager.py:97-253 | In every run an open position that has been checked at prices ps has held n = the length of ps candles, at most max_hold - 1, has the extremes of ps, a last price strictly between stop and target, and, wherever TrailingStopExactlyWhen allows it, the stop max(entry * (1 - sl), highest * (1 - trail)) or min(entry * (1 + sl), lowest * (1 + trail)) of the order that opened it. |
| `PositionManager.Position.Touch` | cryptoswarms/position_manager.py:221-234 | The in-place updates of one priced check equal the specified marking. |
| `PositionManager.PositionManager.OpenPosition` | cryptoswarms/position_manager.py:97-147 | Returns the object that has the order's symbol and strategy if there is one, raises on a zero entry price, else appends one new object, which is what the order opens, field by field. |
| `PositionManager.NewPositionOpens` | cryptoswarms/position_manager.py:118-145 | The new position carries the order's fields; "buy" and "long" in any case are longs and all else is a short; a long has its target at entry * (1 + tp) and its stop at entry * (1 - sl), a short the reverse; size_tokens * entry is the size; no price but the entry has been seen. |
| `PositionManager.LimitsEncloseEntry` | cryptoswarms/position_manager.py:121-127 | With a positive entry and positive percentages, stop < entry < target for a long and target < entry < stop for a short. |
| `PositionManager.PositionManager.ClosePosition` | cryptoswarms/position_manager.py:150-208 | Removes exactly the position with the id and records its trade, whose price, profit, percentage and fees are as ClosingCloses states; an unknown id changes nothing. |
| `PositionManager.ClosingCloses` | cryptoswarms/position_manager.py:163-202 | The exit price is worse than the given one by the slippage, the profit is the relative move times the size less fees of 0.1% of the size, and the percentage is that move alone, for longs and shorts. |
| `PositionManager.PositionManager.CheckExits` | cryptoswarms/position_manager.py:211-253 | Iterating over a copy while closing: exactly the positions that are unpriced, or still strictly inside their limits and holding time after being marked, stay, in order; each of the others leaves one trade, in order, at its price and 5 bps, for the stop before the target before the time. |
| `RuntimeMiddleware.VisitCounts` | agents/orchestration/runtime_middleware.py:38-91 | With the first missing flag at stage d and A = max_retries + 2, stage k <= d appears exactly A^(k+1) times in the timeline, later stages and the terminal never. |
| `RuntimeMiddleware.FailingCount` | agents/orchestration/runtime_middleware.py:52-87 | Without assuming distinct names: a name appears the sum of A^(j+1) over the stages j <= d that bear it. |
| `RuntimeMiddleware.PassingIsOnceEach` | agents/orchestration/runtime_middleware.py:38-91 | The timeline of a successful run is every stage once, in order, then the terminal. |
| `RuntimeMiddleware.WrittenKeys` | agents/orchestration/runtime_middleware.py:52-87 | The checkpoint and retry maps have exactly the names of the entered stages as keys, all with the same value. |
| `RuntimeMiddleware.RuntimeOrchestrator.Wrapped` | agents/orchestration/runtime_middleware.py:52-87 | The retry loop around everything beneath stage i ends and leaves exactly the specified timeline, checkpoints and retry counts. |
| `RuntimeMiddleware.RuntimeOrchestrator.RunStage` | agents/orchestration/runtime_middleware.py:99-104 | A required flag that is absent or false raises "required flag missing" with its name before anything beneath runs; else the layer beneath decides. |
| `RuntimeMiddleware.RuntimeOrchestrator.Execute` | agents/orchestration/runtime_middleware.py:38-91 | ok holds exactly when every required flag is present and true; then every stage is entered once, in order, before the terminal. Otherwise the first stage d with a flag absent or false is named: the stages down to d are entered in order, and (max_retries + 2)^(k+1) times each, and each ends with d's error after max_retries + 2 attempts and max_retries + 1 retries. |
| `SignalDeduplicator.AcceptsExactlyWhen` | agents/orchestration/signal_deduplicator.py:70-121 | In every reachable state a signal is accepted if and only if no acceptance of its key happened within the last TTL, or the capacity rule dropped the key. |
| `SignalDeduplicator.RefinesHistory` | agents/orchestration/signal_deduplicator.py:70-139 | While fewer than max_cache_size entries are live at every call, the cache decides exactly as the plain acceptance history does. |
| `SignalDeduplicator.EveryRun` | agents/orchestration/signal_deduplicator.py:70-139 | In all runs the cache holds at most max(1, max_cache_size) entries, each stamped with the latest acceptance of its key, and every recent acceptance is cached or was dropped for capacity. |
| `SignalDeduplicator.CapacityRemovesOldest` | agents/orchestration/signal_deduplicator.py:125-139 | The capacity rule removes exactly the surplus, and nothing removed is newer than anything kept. |
| `SignalDeduplicator.EvictedMeans` | agents/orchestration/signal_deduplicator.py:125-139 | Every entry past its time goes; below the limit everything else stays, and at or above it all but max_cache_size - 1 go, none newer than one that stays. |
| `SignalDeduplicator.RawKeyInjective` | agents/orchestration/signal_deduplicator.py:65-68 | Symbols and signal types without a colon never share the text that is hashed, whatever the timestamps. |
| `SignalDeduplicator.RawKeyAmbiguousExactlyWhen` | agents/orchestration/signal_deduplicator.py:65-68 | Some other signal shares the hashed text of a signal if and only if its symbol, timestamp or signal type contains a colon. |
| `SignalDeduplicator.SignalDeduplicator.EvictExpired` | agents/orchestration/signal_deduplicator.py:125-139 | The two deletion loops leave exactly the specified cache, for every clock reading per entry. |
| `SignalDeduplicator.SignalDeduplicator.ProcessSignal` | agents/orchestration/signal_deduplicator.py:70-121 | Answer, new cache and counters are those of the model step, and total = passed + deduplicated is kept. |
| `ExecutionCoordinator.EveryInterleaving` | agents/execution/execution_coordinator.py:50-102 | After every step of every interleaving of waits, timeouts, successes, failures and cancellations, locks, active map and history fit the calls. |
| `ExecutionCoordinator.MutualExclusionAndHistory` | agents/execution/execution_coordinator.py:50-102 | At most one call holds a symbol's lock, so at most one order function runs per symbol; the active map holds exactly the running calls' records; each call leaves one record when it ends and none before, and none if cancelled while waiting. |
| `ExecutionCoordinator.RecordsTell` | agents/execution/execution_coordinator.py:71-102 | In every interleaving a record tells how its call ended: success that the order returned, an error with completion the one it raised, an error without completion the lock timeout, neither a cancellation while the order ran. |
| `ExecutionCoordinator.ActiveIsHeld` | agents/execution/execution_coordinator.py:76-102 | Whenever no call has been granted its lock without having resumed, the active map holds exactly the lock holders' records. |
| `ExecutionCoordinator.LocksAreReleased` | agents/execution/execution_coordinator.py:76-102 | A waiting call can take its lock, or the call that holds it can go on; with no lock held all locks are free and the active map is empty. |
| `ExecutionCoordinator.ExecutionCoordinator.Start` | agents/execution/execution_coordinator.py:70-74 | Get or create the symbol's lock: the begin step of the model. |
| `ExecutionCoordinator.ExecutionCoordinator.OnTimeout` | agents/execution/execution_coordinator.py:78-82 | The failed record goes to the history and nothing else changes. |
| `ExecutionCoordinator.ExecutionCoordinator.Grant` | agents/execution/execution_coordinator.py:77 | The lock is taken and its holder has not resumed yet. |
| `ExecutionCoordinator.ExecutionCoordinator.OnAcquired` | agents/execution/execution_coordinator.py:84-85 | The lock's holder resumes and its record becomes the active one of the symbol. |
| `ExecutionCoordinator.ExecutionCoordinator.OnOrderDone` | agents/execution/execution_coordinator.py:87-102 | The finally clause on every path: out of the active map, into the history, lock released. |
| `SubagentExecutor.BoundedParallelism` | agents/orchestration/subagent_executor.py:54-78 | In every interleaving at most max(1, max_parallelism) tasks run at once, permits are conserved, and each step uses up one of 2n. |
| `SubagentExecutor.NeverStuck` | agents/orchestration/subagent_executor.py:58-70 | While a task is not done some step is possible. |
| `SubagentExecutor.OrderIndependent` | agents/orchestration/subagent_executor.py:58-78 | A complete interleaving leaves every task done with its own outcome, in task order, whatever the schedule. |
| `SubagentExecutor.GatherInOrder` | agents/orchestration/subagent_executor.py:58-78 | The results are one per task, in task order, under its id and role, with status ok, error or timeout as its function returned, raised or expired. |
| `SubagentExecutor.CountIsNumber` | agents/orchestration/subagent_executor.py:82-84 | Each count of the report is the number of results with that status. |
| `SubagentExecutor.CountsAddUp` | agents/orchestration/subagent_executor.py:81-84 | The ok, error and timeout counts add up to the number of tasks. |
| `SubagentExecutor.Batch.EnterSemaphore` | agents/orchestration/subagent_executor.py:60 | Taking a permit is the start step of the model. |
| `SubagentExecutor.Batch.LeaveSemaphore` | agents/orchestration/subagent_executor.py:61-76 | Leaving returns the permit on every path and gives the status of the outcome. |
| `ValidationPipeline.EveryRunReports` | agents/backtest/validation_pipeline.py:105-157 | Every complete interleaving of the five gate tasks, at the pipeline's parallelism of five, gives the one report that the gates and timeouts determine. |
| `ValidationPipeline.AgreesExactlyWhen` | agents/backtest/validation_pipeline.py:45-157 | Past the prerequisites, the parallel path returns what the sequential one does if and only if all five gate tasks end ok and no optional gate is configured. |
| `ValidationPipeline.ParallelResults` | agents/backtest/validation_pipeline.py:149-157 | Past the prerequisites the parallel path returns these two and then, in gate order, exactly the gates that gave their result in time. |
| `ValidationPipeline.ParallelVerdict` | agents/backtest/validation_pipeline.py:105-162 | The parallel verdict is positive if and only if every gate that did end ok passed: gates that crash or time out are not counted against the candidate. |
| `ValidationPipeline.ValidationPipelineRun.Run` | agents/backtest/validation_pipeline.py:45-103 | A prerequisite that raises or does not pass ends the run after it; past them the five gates and the configured optional ones, swarm, recipe, consensus, and funding only for funding arbitrage, all run in order whatever the others gave, until one raises; the persisted rows are exactly the gates returned. |
| `ValidationPipeline.ValidationPipelineRun.RunParallel` | agents/backtest/validation_pipeline.py:105-157 | Collecting by role after the executor reported gives the specified parallel summary. |
| `ParameterSweep.NumberIsLexicographic` | agents/backtest/production.py:46-66 | The numbering of index vectors preserves and reflects lexicographic order and is injective. |
| `ParameterSweep.EveryPositionIsNumbered` | agents/backtest/production.py:46-66 | Every position below the product size is the number of some index vector. |
| `ParameterSweep.PointsAreProduct` | agents/backtest/production.py:46-66 | The point at an index vector's number is the candidate's own parameters overlaid with that vector's values. |
| `ParameterSweep.SweptIsLexicographicPrefix` | agents/backtest/production.py:33-69 | The sweep has exactly min(max_combinations, product size) results, and result n is the evaluation of the n-th member of the lexicographic product. |
| `ParameterSweep.Sweep.Walk` | agents/backtest/production.py:46-66 | The recursion over one shared, never restored dict, with its early returns, appends exactly the evaluations of the first points below the prefix; leftovers of earlier branches never show. |
| `ParameterSweep.Run` | agents/backtest/production.py:33-69 | The results are those the lexicographic theorem is about; an empty space gives the candidate alone, whatever the limit. |
| `AuditChain.VerifyMeans` | cryptoswarms/immutable_audit.py:48-77 | A log is accepted if and only if every record carries the hash of its payload and every payload the hash of the previous one; the final hash is that of the last record. |
| `AuditChain.FirstBadLine` | cryptoswarms/immutable_audit.py:48-75 | A rejecting verdict names the first line at fault, everything before it being accepted, and its kind tells whether that line is no JSON, no object, names another predecessor, or carries another hash than its payload's. |
| `AuditChain.SameEndSameLog` | cryptoswarms/immutable_audit.py:48-77 | With an injective hash that is never GENESIS, two accepted logs with the same last hash hold the same hashed payloads in the same order. |
| `AuditChain.PrefixAccepted` | cryptoswarms/immutable_audit.py:48-77 | Every prefix of an accepted log is accepted: truncation is invisible without the last hash. |
| `AuditChain.ExtraKeysUnprotected` | cryptoswarms/immutable_audit.py:48-77 | Keys outside the hashed payload can change without changing any verdict. |
| `AuditChain.LastHashIsEnd` | cryptoswarms/immutable_audit.py:79-89 | On an accepted log _last_hash is the hash verify_chain ends on. |
| `AuditChain.LastHashMeans` | cryptoswarms/immutable_audit.py:79-88 | On any log, _last_hash raises exactly if some line is no JSON object, and is else the last nonempty hash, or GENESIS if there is none. |
| `AuditChain.AppendKeepsAccepted` | cryptoswarms/immutable_audit.py:29-46 | Appending keeps an accepted log accepted, and it then ends on the new record's hash. |
| `AuditChain.AppendedBodies` | cryptoswarms/immutable_audit.py:29-46 | After appending any list of bodies to an accepted log, the log is accepted and records what it did before followed by exactly that list. |
| `AuditChain.AppendNeverRepairs` | cryptoswarms/immutable_audit.py:29-77 | A rejected log stays rejected whatever record is appended. |
| `AuditChain.ImmutableJsonlAuditLog.ReadLastHash` | cryptoswarms/immutable_audit.py:79-89 | The reading loop gives the last nonempty hash, GENESIS on a log without one, and raises on a line that is no JSON object. |
| `AuditChain.ImmutableJsonlAuditLog.Append` | cryptoswarms/immutable_audit.py:29-46 | One line is added; its record carries exactly the arguments under their own keys, the last hash as predecessor and the hash of this payload; nothing is written when reading the log raises. |
| `AuditChain.ImmutableJsonlAuditLog.VerifyChain` | cryptoswarms/immutable_audit.py:48-77 | The checking loop gives the specified verdict with the first bad line, and raises at a line that is JSON but no object. |
| `NightlyOptimizer.ScoresClimb` | agents/evolution/deap_nightly.py:23-29 | The score of the current parameters never falls from one generation to a later one. |
| `NightlyOptimizer.ClimbsOrStops` | agents/evolution/deap_nightly.py:23-29 | A generation raises the top score strictly, or the search has stopped for good and the parameters never move again. |
| `NightlyOptimizer.StopsExactlyWhen` | agents/evolution/deap_nightly.py:23-28 | A generation moves to a move of one parameter, or not at all, and stays exactly when no such move, up or down by the step, scores higher. |
| `NightlyOptimizer.StoppedAtLocalBest` | agents/evolution/deap_nightly.py:19-39 | When the last generation did not move, the first candidate returned scores at least as high as every move of one parameter from where the search stands. |
| `NightlyOptimizer.FirstBeatsMoves` | agents/evolution/deap_nightly.py:19-39 | The first candidate returned scores at least as high as every move of one parameter from the start of any generation. |
| `NightlyOptimizer.FirstIsBestEver` | agents/evolution/deap_nightly.py:19-39 | The first candidate returned is the best ever evaluated in any generation and scores what the last generation reached; nothing is returned exactly when there is no generation. |
| `NightlyOptimizer.ResultShape` | agents/evolution/deap_nightly.py:31-39 | The result is sorted by score, has distinct parameters, contains only evaluated candidates, and has five members or all distinct ones remembered. |
| `NightlyOptimizer.BestTwoRemembered` | agents/evolution/deap_nightly.py:25-29 | Each generation adds exactly its two best candidates to what is remembered, its one if there are no parameters. |
| `NightlyOptimizer.KeysKept` | agents/evolution/deap_nightly.py:41-46 | No generation changes a key or the order of the keys. |
| `NightlyOptimizer.SlippageReplaced` | agents/evolution/deap_nightly.py:48-49 | For scoring, the slippage replaces an entry of that name in its place. |
| `NightlyOptimizer.SlippageAppended` | agents/evolution/deap_nightly.py:48-49 | Without such an entry the slippage comes last. |
| `NightlyOptimizer.NothingBetterLeftOut` | agents/evolution/deap_nightly.py:29-39 | Remembered parameters that are not returned score no more than any candidate returned, of which there are then five. |
| `NightlyOptimizer.NightlyOptimizer.Mutate` | agents/evolution/deap_nightly.py:41-46 | 2n + 1 variants for n parameters: the dict itself, and for every parameter in order the dict with it moved up, and moved down, by the step, and nothing else changed. |
| `NightlyOptimizer.NightlyOptimizer.Run` | agents/evolution/deap_nightly.py:19-39 | The generation loop and the deduplication give the result the theorems are about; the first candidate scores at least as high as every move, up or down by the step, of one base parameter. |
| `NightlyOptimizer.NightlyOptimizer.Unique` | agents/evolution/deap_nightly.py:31-38 | The loop with the seen set keeps the first candidate of each parameter dict. |
| `AutoResearch.IncumbentRises` | agents/evolution/autoresearch.py:112-133 | Whatever the experiments return, the final incumbent is at least the initial one plus the threshold for every promotion. |
| `AutoResearch.PromotionsAreLadder` | agents/evolution/autoresearch.py:112-133 | Each promotion starts from the incumbent the previous one set and raises it by at least min_score_improvement; every experiment is kept or discarded. |
| `AutoResearch.EachDecidedOnce` | agents/evolution/autoresearch.py:90-133 | Exactly the experiments 1..n have a decision, and none is both kept and discarded. |
| `AutoResearch.EveryDecisionRecords` | agents/evolution/autoresearch.py:101-131 | Every decision records the incumbent it met, the best score of its experiment, their difference, and that candidate exactly if the difference reaches the threshold; an experiment without candidates is discarded as such. |
| `AutoResearch.SameResults` | agents/evolution/autoresearch.py:90-133 | With a deterministic score every experiment gives the same candidates: below the threshold nothing is promoted, with a positive threshold only the first experiment, with any other all of them. |
| `AutoResearch.PromotesAtMostOne` | agents/evolution/autoresearch.py:75-142 | With a positive threshold at most one experiment is promoted: the first, if and only if one starts, there are generations and the search beats the incumbent by the threshold; the final incumbent is then the best score ever evaluated. |
| `AutoResearch.ReportKeepsEarliest` | agents/evolution/autoresearch.py:133 | The final sort and slice keep the earliest promotions. |
| `AutoResearch.BestPromotionFirst` | agents/evolution/autoresearch.py:133 | The final sort puts the best promotion first and keeps the order of equal ones. |
| `AutoResearch.LeadingIsPrefix` | agents/evolution/autoresearch.py:133 | keep_top_k keeps that many from the front, and a negative one drops that many from the end. |
| `AutoResearch.StartedExactly` | agents/evolution/autoresearch.py:87-92 | Experiments start until the first whose clock reading has reached the deadline, or max_experiments have. |
| `AutoResearch.AutoResearchRunner.Run` | agents/evolution/autoresearch.py:75-142 | The promotion loop gives the report the theorems are about, clock readings included; with a positive threshold the final incumbent is the best score the search reaches, if that beats the initial one by the threshold, and else the initial one. |
| `BayesianUpdate.PosteriorUnclamped` | cryptoswarms/bayesian_update.py:4-32 | The posterior lies in [0.001, 0.999] for every prior and evidence. |
| `BayesianUpdate.PosteriorMonotone` | cryptoswarms/bayesian_update.py:8-32 | A higher prior, or evidence that speaks more strongly for the hypothesis entry by entry, never lowers the posterior, clamping included. |
| `BayesianUpdate.PosteriorMirrored` | cryptoswarms/bayesian_update.py:8-32 | A hypothesis and its negation, with likelihoods exchanged, always have posteriors that add up to one, clamping included. |
| `BayesianUpdate.SentimentMoves` | cryptoswarms/bayesian_update.py:20-32 | Sentiment scores that are nowhere lower never lower the posterior. |
| `BayesianUpdate.SentimentMirrored` | cryptoswarms/bayesian_update.py:20-32 | Reversing the sign of every score mirrors the posterior. |
| `BayesianUpdate.SentimentIsMixed` | cryptoswarms/bayesian_update.py:20-25 | The likelihoods run linearly from 0.5 against 0.5 without sentiment to 0.85 against 0.30 at the strongest, and a negative sentiment says the opposite. |
| `BayesianUpdate.BayesExactlyWhenUnclamped` | cryptoswarms/bayesian_update.py:8-32 | Every intermediate posterior equals p*prod lt / (p*prod lt + (1-p)*prod lf) if and only if that ratio stays within the clamping bounds all along. |
| `EvidenceOrder.PosteriorOdds` | cryptoswarms/bayesian_update.py:8-32 | In odds, the whole update is a walk that multiplies by the clamped likelihood ratios and cuts to [1/999, 999] after each of them. |
| `EvidenceOrder.SupportFirstIsLowest` | cryptoswarms/bayesian_update.py:28-32 | Of all orders of the same evidence, taking what supports the hypothesis first gives the lowest posterior and taking what opposes it first the highest, for every prior and evidence list. |
| `EvidenceOrder.OrderIrrelevantExactlyWhen` | cryptoswarms/bayesian_update.py:28-32 | All orders of the evidence give the same posterior if and only if the product U of the ratios above one is 1, or the product D of those below one is 1, or o*U <= 999 and o*D >= 1/999 for the clamped prior odds o. |
| `EvidenceOrder.OrderMattersClamped` | cryptoswarms/bayesian_update.py:8-32 | A witness of the other case: 0.001 against 0.5 on four reordered observations. |
| `BayesianUpdate.SequentialBayesUpdate` | cryptoswarms/bayesian_update.py:28-32 | The loop computes the posterior the theorems are about. |
| `Drawdown.MaxDrawdown` | cryptoswarms/paper_trading.py:57-67 | The one-pass loop gives the largest fall S_i - S_j over all 0 <= i <= j <= n: attained, and exceeded by none. |
| `Drawdown.DashboardMaxDrawdown` | cryptoswarms/dashboard_insights.py:77-85 | The dashboard's loop gives the same quantity before display rounding. |
| `Drawdown.DrawdownOfConcatenation` | cryptoswarms/paper_trading.py:57-67 | The drawdown of two periods in a row is the largest of either drawdown and the fall from the first one's peak to the second one's trough; it is at least that of each part. |
| `StableSort.SortStable` | cryptoswarms/memory_dag.py:93-116 | The model of sorted keeps the order of elements with equal keys. |
| `StableSort.SortedUnique` | cryptoswarms/memory_dag.py:93-116 | Order and stability determine the sorted sequence, so any stable sort is this one. |
| `StableSort.SortKeepSort` | cryptoswarms/memory_dag.py:113-116 | Sorting, filtering by topic and sorting in reverse forgets the first sort, ties included, when the second key is at least as fine. |

## Left out

- EventStreams.RunLosesNothing: one consumer group and one reader per message; pending entries of a dead worker stay pending, since the bus never claims them, and that counts as not lost. Published events carry new event ids and no dead-letter flag.
- EventStreams.StreamBus.Read: undecodable payloads, blocking and the byte decoding of Redis replies are outside the model.
- RateLimiter.TokenBucket.Acquire: takes a nonnegative number of tokens, capacity and refill time are positive, and the passes seen are as many as there are clock readings; the asyncio lock that keeps the passes of two calls apart is not a separate step: the runs of the model allow every order of passes, with or without it.
- RateLimiter.ExchangeRateLimiter.Acquire: `get_stats` is one read of every bucket and a copy of the counters; its rounding is not modelled.
- MemoryDag.MemoryDag.AddNode: SHA-1 is a parameter that gives a nonempty id for every input, collisions allowed; metadata are opaque.
- MemoryDag.RoundTrip: printing and parsing JSON and ISO timestamps is the identity on what `to_dict` writes.
- MemoryDag.WriteDecisionCheckpoint: the rendered text and metadata are inputs; `recall_for_decision` is a read-only query and not modelled.
- MemoryDag.MaybeSummarizeTopic: the summary text is an input function of the nodes; `maybe_summarize_topics` only repeats this call.
- PositionManager.PositionManager.ClosePosition: timestamps and the trade's own uuid are not modelled, and money is not rounded.
- RuntimeMiddleware.RuntimeOrchestrator.Wrapped: the layers are stage-flag middlewares; a user-defined `run` with other effects is not modelled.
- SignalDeduplicator.SignalDeduplicator.ProcessSignal: the Redis branch is foreign state; the key is the hashed text itself, so hash collisions are not modelled.
- ExecutionCoordinator.EveryInterleaving: `max_concurrent_symbols` is stored and never enforced, so no global bound is claimed. Durations and the result value of an order are not in the records, and the timeout value is not in the error text.
- SubagentExecutor.OrderIndependent: latencies, ratios and timestamps of the report are not modelled; a timeout is an outcome the scheduler chooses.
- ValidationPipeline.AgreesExactlyWhen: compares the returned gate list and verdict; database rows are modelled on the sequential path only, because the parallel path does not write rows for the prerequisites.
- ParameterSweep.Run: sharpe, drawdown and return of a combination are one evaluation function; the stress test and the report export are not modelled.
- AuditChain.SameEndSameLog: JSON is not modelled below the level of keys; the file is a list of lines and a failing write is not modelled.
- NightlyOptimizer.NightlyOptimizer.Run: a parameter dict is its list of items; `run` never changes keys or their order, so equality of dicts is equality of lists.
- AutoResearch.AutoResearchRunner.Run: `load_program_policy` and the rounding of the reported improvement are left out; clock readings are numbers in one time zone.
- Drawdown.DashboardMaxDrawdown: rounding to four decimals for display.
- Risk tiers, budget guards, scorecards, delegation and registry checklists: one reading of the branches settles them.
- Sharpe ratios, volatility and decay formulas, and everything over pandas or numpy: square roots and exponentials.
- Exchange, HTTP, WebSocket, Redis, database and LLM clients, the API, the scripts, the frontend and the migrations: input and output.
- `DecisionCouncil.decide`, the backtest engine and the deep agent evolver: not modelled.
