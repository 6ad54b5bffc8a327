# SystemForge: verified model

SystemForge simulates distributed systems deterministically, runs canonical simulations through a
lease-based job queue, and searches for better designs. This project models its hardest parts and proves
what they promise, for every input, every run and every interleaving. Numbers are exact (`real`, unbounded
`int`), the generator state is `bv32`.

`dafny verify dfyconfig.toml` checks everything.

## Parts

- **Topology.** `Graph` and `Paths` say what reachability, cycles, schedules and path sums mean on
  multigraphs. `TopologyBounds` is the analysis in front of every run: a worklist pass, a ready-list
  schedule and the traffic amplification of every node, which is proved to be the sum over all paths.
  `ExecutionPlan` finds reachability and order a second time, on ids and maps and ignoring edges into entry
  nodes; the two are proved to agree. `PlanValidation` is proved to accept exactly the graphs that meet a
  declarative condition.
- **Traffic.** `EdgeTransfer` is one edge, one class, one second. `TrafficFlow` pushes a class through the
  graph, `TrafficLaws` holds what one second keeps, `TrafficRuns` whole runs with interventions that change
  retry policies, `TrafficEngine` is the object that does all this in place with its aggregates.
  `AdmissionBound` relates the engine to the analysis, `QueryFanout` says for which classes the bound holds.
  `FlowPaths` gives the engine's flow its meaning, a sum over paths, and `LateFlow` says when it has it.
- **Canonical runs.** `RunQueue` has one step per SQL statement, in any interleaving, `RunProtocol` the
  theorems over whole runs, `RunStore` and `MemoryStore` the two stores as objects.
- **Per-second machines.** `FifoQueue`, `Autoscaler` (with load shedding), `IncidentIds` and
  `StochasticIncidents`, `CausalEvents` and `CausalChain`.
- **Solver.** `ArchitectureSchema`, `SolverMutations`, `SolverSearch`, `SolverNames`, `SolverCandidates`,
  `SolverRanking`, `SolverFlags`, `SolverScoring`, and `Solver` for the whole call.
- **Small algorithms.** `XorShift` and `Prng`, `DirectiveParser`.
- `Collections`, `Numbers`, `Wrappers` and `Architecture` are shared vocabulary.

## Where the code does not do what it seems to promise

- Pending autoscaler capacity is not always active by the end of the second it is ready in. It is exactly
  when starting up takes at least a second; without startup time it arrives one second late
  (`Autoscaler.ArrivesWhenReadyIffStartupTakesTime`, `Autoscaler.InstantStartupArrivesLate`).
- The Pareto flag of a candidate is compared by id, and candidates can share an id, so a dominated candidate
  can be flagged. Ids lose case and every character outside `a-z0-9_-`, and an id of one change can read like
  the id of two (`SolverNames.CandidateIdsCollide`, `SolverNames.NestedIdCollides`); on one valid architecture
  the flag is wrong (`SolverFlags.SharedIdHidesDominance`). The flag is right for all objectives exactly when
  candidate ids differ (`SolverFlags.FlagAlwaysExactIff`). For a search that was not cut off, with one or two
  changes per candidate, that is a condition on the changes the architecture offers: of the selections that
  are the first to lead to their architecture no two may spell the same strategies and slugs
  (`SolverFlags.CompleteSearchExactIff`). With one change it says that the slugs of the nodes one strategy
  changes differ (`SolverFlags.SingleFlagsExactIff`).
- The in-memory store evicts settled runs before it refuses a submission for lack of room, which the database
  never does. With one store limit nothing is ever lost by that, whatever the queue limit: the store stays
  within the limit, and a refused submission leaves it as it was (`MemoryStore.Store.QueueRun`,
  `MemoryStore.ServeUnderOneLimit`). Only a limit that falls between calls costs settled runs
  (`MemoryStore.FallingLimitLosesRuns`).
- Retention that deletes rows between count and eviction can make the database refuse a run although
  the table is empty (`RunProtocol.RetentionCanStarveEviction`, a run of the protocol). Eviction fails exactly
  when the table was full when counted, and active rows and rows deleted since then make up the limit
  (`RunProtocol.EvictionFailsIff`); without such a deletion it never does (`RunProtocol.EvictionFindsEnough`).
- The admission bound does not cover every class: users who ask their database several times per request
  break it under every plan (`QueryFanout.MultiplyingEdgeBreaksTheBound`). Over all architectures, plans and
  seconds without retries, a class without an authored route is always bounded exactly when it asks a database
  at most once per request (`QueryFanout.AlwaysBoundedIff`).
- The engine does not always forward what the paths of the graph carry. The order leaves edges into entries
  aside, so an entry can be visited before an edge brings it more, and what comes late goes no further. All
  classes are always forwarded by their path sums exactly when no usable edge leads to a node that was visited
  already and has a usable edge of its own (`LateFlow.AlwaysPathSumsIff`); such a node is always an entry
  (`LateFlow.LateIsIntoEntry`). Users behind users lose flow when they are authored first
  (`LateFlow.UsersBehindUsersLoseFlow`).

## Model

| member | source | states |
|---|---|---|
| TopologyBounds.BuildAdjacency | packages/contracts/src/index.ts:1009-1028 | the adjacency lists every usable edge of a node in authored order, and the counts are the numbers of usable edges into each node |
| TopologyBounds.Sources | packages/contracts/src/index.ts:1030-1038 | entry nodes are the authored users and regions, or else the nodes without a usable incoming edge |
| TopologyBounds.Reach | packages/contracts/src/index.ts:1039-1047 | the worklist ends with exactly the nodes on a usable path from a source, each once |
| TopologyBounds.CountWithinReachable | packages/contracts/src/index.ts:1049-1056 | every node's count is the number of usable edges, parallel ones apart, from reached nodes |
| TopologyBounds.ReleaseOne | packages/contracts/src/index.ts:1069-1074 | giving up one edge keeps counts and ready list in step; the count it lowers is positive, so the cut at zero never binds |
| TopologyBounds.Schedule | packages/contracts/src/index.ts:1057-1076 | the order is the ready list itself, so every node becomes ready at most once; it is a duplicate-free topological order, and every node left out has a usable edge from a node left out |
| Graph.LeftOutIsCyclic | packages/contracts/src/index.ts:1060-1079 | a schedule that stops leaves out exactly the reachable nodes on a reachable cycle or downstream of one |
| Graph.BlockedHasCycle | packages/contracts/src/index.ts:1062-1076 | walking back from a node left out runs into a cycle that leads to it |
| Graph.NothingLeftIffAcyclic | packages/contracts/src/index.ts:1077-1079 | nothing is left out exactly when no reachable node is on a cycle |
| TopologyBounds.Amplify | packages/contracts/src/index.ts:1081-1096 | along the order every node ends with its own entry plus what its scheduled predecessors send, and the peak is the greatest value |
| Paths.PathsToComplete | packages/contracts/src/index.ts:1084-1096 | the enumeration of paths used as the meaning of amplification lists every path up to a length and nothing else |
| Paths.ScheduledPathSum | packages/contracts/src/index.ts:1084-1096 | values that satisfy the recurrence along a topological order are the total weights of all paths |
| Paths.SettledPathSum | packages/sim-core/src/simulate.ts:1488-1580 | the same for a list in which only nodes that send on come after everything that feeds them |
| Paths.PathSumUnique | packages/contracts/src/index.ts:1084-1096 | the path sum of a node does not depend on how its paths are listed |
| TopologyBounds.AmplificationIsPathSum | packages/contracts/src/index.ts:1081-1096 | amplification of a node not behind a cycle is the sum over all usable paths from the sources of the product of shares, parallel edges apart |
| TopologyBounds.FanoutIsGreatest | packages/contracts/src/index.ts:1083-1097 | without a reachable cycle the fanout is the greatest path sum of any node |
| TopologyBounds.CycleIdsEmptyIffAcyclic | packages/contracts/src/index.ts:1077-1079 | the reported cycle ids are empty exactly when the reachable graph is acyclic |
| TopologyBounds.Analyze | packages/contracts/src/index.ts:1006-1098 | the whole pass: cycle ids, order, amplification and peak together |
| TopologyBounds.AnalyzeTopologyExecutionBounds | packages/contracts/src/index.ts:1006-1098 | the exported result in terms of paths and cycles: cycle ids in authored order, and for acyclic graphs the greatest path sum |
| ExecutionPlan.TopologySources | packages/sim-core/src/simulate.ts:499-514 | counting per target id selects the same entry nodes as the analysis, in the same order |
| ExecutionPlan.ReachIds | packages/sim-core/src/simulate.ts:556-565 | the pass over ids reaches exactly the ids on a usable path from a source, each once |
| ExecutionPlan.CountIncoming | packages/sim-core/src/simulate.ts:566-574 | counts per reached id the usable edges from reached nodes, edges into entry nodes left aside |
| ExecutionPlan.ScheduleIds | packages/sim-core/src/simulate.ts:575-594 | a topological order of the graph without edges into entry nodes, blocked nodes left out, starting with the nodes no such edge enters as they were authored |
| ExecutionPlan.PathsAgree | packages/sim-core/src/simulate.ts:556-565 | the position graph and the id graph have the same paths |
| ExecutionPlan.ReachAgrees | packages/sim-core/src/simulate.ts:556-565 | the two independently coded reachability passes agree on every node |
| ExecutionPlan.ForwardReachSame | packages/sim-core/src/simulate.ts:572-589 | leaving edges into entry nodes aside changes nothing about what is reached |
| ExecutionPlan.ForwardAcyclic | packages/sim-core/src/simulate.ts:575-594 | a graph the analysis finds acyclic is acyclic for the plan |
| ExecutionPlan.AppendCyclicRemainder | packages/sim-core/src/simulate.ts:595-600 | the order lists every reached node once, the scheduled ones first |
| ExecutionPlan.NothingRemains | packages/sim-core/src/simulate.ts:595-600 | without a reachable cycle the remainder loop adds nothing |
| ExecutionPlan.VisitFrom | packages/sim-core/src/simulate.ts:606-628 | the walk behind a buffer visits exactly the nodes connected over edges with positive share and loss below one |
| ExecutionPlan.WorkersDownstream | packages/sim-core/src/simulate.ts:602-634 | a buffer's workers are exactly the workers connected to it over such edges, in authored order |
| ExecutionPlan.BuildTopologyExecutionPlan | packages/sim-core/src/simulate.ts:516-653 | the whole plan: entries, reached ids, order as a permutation of them, workers per buffer, and by position the outgoing edges and the cache coverage |
| ExecutionPlan.CacheBranchCoverage | packages/sim-core/src/simulate.ts:526-547 | the share a node sends to caches it waits for, kept between zero and one |
| ExecutionPlan.CacheSharesSign | packages/sim-core/src/simulate.ts:528-546 | with shares and loss rates in range that share is never negative, so cutting it off at zero never applies |
| PlanValidation.CheckShares | packages/sim-core/src/simulate.ts:680-701 | no error exactly when the usable shares leaving every node are all absent, or all authored and adding up to one; an error names a node that authors some of them only, or all of them with another sum |
| PlanValidation.CheckEntries | packages/sim-core/src/simulate.ts:706-729 | no error exactly when every authored entry is connected to a node that is no entry; an error names an entry that is not |
| PlanValidation.ValidatedTopologyExecutionPlan | packages/sim-core/src/simulate.ts:655-729 | accepts exactly the graphs that are acyclic, within the fanout limit, resolved, balanced and connected; the order then respects every usable edge not entering an entry; a refusal is that of the first check that fails, and names an edge, node or fanout that fails it |
| EdgeTransfer.ModelIsValid | packages/sim-core/src/simulate.ts:1285-1379 | every edge model built from schema ranges keeps its rates in range, passes on at a cache what it takes, and without an authored route carries at most its authored share |
| EdgeTransfer.OnlyQueriesMultiply | packages/sim-core/src/simulate.ts:1296-1347 | an edge passes on more than it is given only towards a database that is queried several times per request, and there it does |
| EdgeTransfer.RetryPressureSign | packages/sim-core/src/simulate.ts:1274-1283 | the retry pressure of a node is positive exactly when it allows retries |
| EdgeTransfer.TransferConserves | packages/sim-core/src/simulate.ts:1537-1616 | on one edge attempted equals arrived plus lost plus turned away, all non-negative, and synchronous amounts are part of the whole |
| EdgeTransfer.LossesByRate | packages/sim-core/src/simulate.ts:1607-1616 | what the transport loses and what the target turns away are the complementary rates of what was offered to each |
| EdgeTransfer.CacheSplits | packages/sim-core/src/simulate.ts:1643-1652 | at a cache hits plus misses equal the accepted traffic, so cutting hits off at zero never applies |
| EdgeTransfer.CacheThroughput | packages/sim-core/src/simulate.ts:1607-1652 | at a cache the recorded throughput is the accepted traffic |
| TrafficFlow.CacheHitRateForEdge | packages/sim-core/src/simulate.ts:1381-1409 | the loop computes the share-weighted hit rate of the caches beside the edge |
| TrafficFlow.HitRateIsAverage | packages/sim-core/src/simulate.ts:1391-1407 | the rate lies between the lowest and highest rate of those caches, so cutting it off never applies |
| TrafficFlow.RouteDistinct | packages/sim-core/src/simulate.ts:1488-1501 | following the order visits every edge at most once |
| TrafficFlow.TotalsUpdate | packages/sim-core/src/simulate.ts:1576-1656 | one class taking one edge keeps every aggregate equal to the sum over the classes |
| TrafficEngine.Engine.EnterClasses | packages/sim-core/src/simulate.ts:1423-1486 | after the entries every class stands at the start of its route and the aggregates are the sums |
| TrafficEngine.Engine.TakeEdge | packages/sim-core/src/simulate.ts:1512-1656 | one class on one edge changes that class as specified, no other, and the aggregates with it |
| TrafficEngine.Engine.ExecuteRequestClasses | packages/sim-core/src/simulate.ts:1411-1665 | the nested loops leave every class with its specified flow, aggregates equal to the sums, every aggregate edge accounted for, and at an aggregate edge into a cache hits plus misses equal to the throughput |
| TrafficEngine.Engine.UpdateRetries | packages/sim-core/src/simulate.ts:3992-4042 | for the edges retried since the start, the loops set every class's retries to the specified ones and keep them valid for the next second |
| TrafficEngine.Engine.RefreshRetryPolicyForNode | packages/sim-core/src/simulate.ts:2465-2474 | the nested loops put the retry pressure of a node into the models of all edges out of it, in every class, and change nothing else |
| TrafficEngine.Engine.ApplyInterventions | packages/sim-core/src/simulate.ts:2494-2530 | interventions in order leave nodes and models as specified, every model following its source |
| TrafficEngine.Engine.RunSecond | packages/sim-core/src/simulate.ts:2590-4042 | the object stays where the run of the specification is, interventions, flow and retries, second after second |
| TrafficLaws.FlowAlongConserves | packages/sim-core/src/simulate.ts:1488-1656 | after any part of any route every edge accounts for what it attempted and synchronous flow is at most total flow |
| TrafficLaws.EdgeSumConserves | packages/sim-core/src/simulate.ts:1634-1641 | aggregates of an edge account for what was attempted because every class does |
| TrafficLaws.EdgeSumSplits | packages/sim-core/src/simulate.ts:1643-1656 | over all classes hits plus misses of an edge into a cache equal its throughput, and any other edge has none |
| TrafficLaws.NextRetryIsValid | packages/sim-core/src/simulate.ts:3997-4040 | next retries are non-negative, within the retry budget, and synchronous ones are part of them, none on asynchronous edges |
| TrafficRuns.RetriesStayValid | packages/sim-core/src/simulate.ts:3992-4042 | in every run, whatever interventions change retry policies, the retries left behind are what the next second needs |
| TrafficRuns.PolicyKeepsSetup | packages/sim-core/src/simulate.ts:2465-2525 | an intervention leaves every edge model valid and following its source |
| TrafficRuns.RetriedNeverChanges | packages/sim-core/src/simulate.ts:2372-2380 | in every second of every run the edges that are retried are those found at the start |
| TrafficRuns.EverySecondConserves | packages/sim-core/src/simulate.ts:1411-1665 | in every second of every run, with the models then in force, the flow of every class is accounted for on every edge |
| AdmissionBound.IndexedTopologyIsValid | packages/sim-core/src/simulate.ts:636-651 | a plan turned into positions is well formed and names reachable nodes only |
| AdmissionBound.AlongStaysWithin | packages/sim-core/src/simulate.ts:1488-1580 | edge by edge, no node forwards more than demand times the part of its amplification the visited edges bring |
| AdmissionBound.AmplificationBoundsForward | packages/sim-core/src/simulate.ts:1452-1580 | with default entries, no authored route, no retries and forwarded factors of at most one, the engine ends with every node forwarding at most requested rate times share times its amplification, whatever the two orders are |
| AdmissionBound.SingleQueryModelsFit | packages/sim-core/src/simulate.ts:1285-1379 | classes without an authored route that query databases at most once per request meet the conditions of the bound |
| AdmissionBound.IndexedOutgoingIsPlanned | packages/sim-core/src/simulate.ts:644-650 | the engine visits the outgoing edges that the plan lists |
| QueryFanout.MultiplyingEdgeBreaksTheBound | packages/sim-core/src/simulate.ts:1303-1325 | users who ask their database several times per request: whatever the analysis and the plan, the database forwards more than demand times amplification, though all else the bound asks for holds |
| QueryFanout.EdgeExceedsDemand | packages/sim-core/src/simulate.ts:1537-1580 | one lossless edge with a factor above one makes its target forward more than the demand of the class |
| QueryFanout.AlwaysBoundedIff | packages/sim-core/src/simulate.ts:1285-1580 | in all architectures, analyses, plans and seconds without retries a class without an authored route stays within the bound, exactly when it asks a database at most once per request |
| FlowPaths.SenderIsComplete | packages/sim-core/src/simulate.ts:1488-1536 | where nothing comes late, a node has received everything by the time it sends |
| FlowPaths.AlongIsArrived | packages/sim-core/src/simulate.ts:1452-1580 | then, edge by edge, every node stands at its entries and what the visited edges bring, measured by what their sources forward in the end |
| FlowPaths.FlowIsPathSum | packages/sim-core/src/simulate.ts:1452-1580 | then, without pending retries and with any terminal, every node forwards the sum over all paths from the entries of demand carried by share, forwarded factor, survival and forwarding |
| LateFlow.AlwaysPathSumsIff | packages/sim-core/src/simulate.ts:1423-1580 | on a planned acyclic architecture every class in every second without retries is forwarded by its path sums, exactly when no usable edge leads to a node visited already that has a usable edge of its own |
| LateFlow.DetourIsLost | packages/sim-core/src/simulate.ts:1488-1536 | over such an edge and the next one a class forwards nothing at the end, though its path carries something there |
| LateFlow.LateIsIntoEntry | packages/sim-core/src/simulate.ts:566-594 | under the plan that is built, such an edge leads into an entry |
| LateFlow.UsersBehindUsersLoseFlow | packages/sim-core/src/simulate.ts:566-594 | two users in a row, the second authored first: under every plan that is built some class is not forwarded by its path sums |
| RunQueue.StepKeepsInvariant | apps/api/src/postgresStore.ts:176-227 | every statement of every party keeps rows, limits, lock holder and claims in order |
| RunQueue.EvictKeeps | apps/api/src/postgresStore.ts:193-211 | evicting under the lock keeps what the count established |
| RunQueue.CommitKeeps | apps/api/src/postgresStore.ts:212-217 | inserting keeps both limits, whatever happened since the count |
| RunQueue.ClaimKeeps | apps/worker/src/jobStore.ts:40-62 | claiming keeps attempts, leases and the record of claims in order; an older claim of the run has expired |
| RunQueue.WriteKeeps | apps/worker/src/jobStore.ts:91-112 | completing or failing, also by a stale worker, keeps everything in order |
| RunQueue.MaintainKeeps | apps/worker/src/jobStore.ts:64-79 | failing exhausted runs and deleting old ones keeps everything in order |
| RunProtocol.EveryStateWithinLimits | apps/api/src/postgresStore.ts:183-217 | in every reachable state active runs stay within the queue limit and rows within the storage limit, queued runs have no attempts, leases belong to running runs only |
| RunProtocol.TerminalIsAbsorbing | apps/worker/src/jobStore.ts:91-112 | a completed or failed run keeps its whole row until the row is removed, and its id is never used again |
| RunProtocol.OnlySettledRunsAreRemoved | apps/api/src/postgresStore.ts:197-208 | eviction and retention remove settled runs only |
| RunProtocol.CompletedHoldsCanonicalResult | apps/worker/src/jobStore.ts:91-102 | a completed run holds the canonical result of its submission, whichever worker wrote it |
| RunProtocol.AtMostThreeClaims | apps/worker/src/jobStore.ts:44-47 | no run is handed out more than three times |
| RunProtocol.EvictionFailsIff | apps/api/src/postgresStore.ts:193-211 | eviction fails exactly when the table was full when counted and the active rows and those deleted since make up the limit |
| RunProtocol.EvictionFindsEnough | apps/api/src/postgresStore.ts:185-211 | over any run, without retention between count and eviction and with the configured order of limits, exactly the required rows are evicted |
| RunProtocol.RetentionCanStarveEviction | apps/api/src/postgresStore.ts:209-210 | a run of the protocol in which a deletion in between has a submission refused by an empty table |
| RunProtocol.TooFewSettledIffActiveFill | apps/api/src/postgresStore.ts:193-211 | uninterrupted, too few settled rows means active runs alone fill the table |
| RunProtocol.LiveClaimIsUnique | apps/worker/src/jobStore.ts:44-56 | of all claims of a run at most one still has its lease |
| RunProtocol.LeaseCoversTheTimeout | apps/worker/src/index.ts:45 | the lease covers the time limit and fifteen seconds, by less than a second more |
| RunProtocol.KeepingTheTimeoutIsInTime | apps/worker/src/index.ts:45 | in every run in which leases are computed from the time limit and workers write within it and fifteen seconds of their claim, all writes come before the lease is over |
| RunProtocol.InTimeWriteHits | apps/worker/src/index.ts:62-112 | when all workers write in time, the first write of every claim settles its run |
| RunProtocol.PromptWriteHits | apps/worker/src/index.ts:45-112 | so does every first write of workers that keep the time limit, and no other claim of that run still has its lease |
| RunProtocol.UnheldRunCanProceed | apps/worker/src/jobStore.ts:40-75 | a run without a live lease can always be claimed or failed for good |
| RunProtocol.StepsLeadToTheEnd | apps/worker/src/jobStore.ts:40-112 | every step that changes a run brings it nearer to its end and none takes it further away |
| RunProtocol.AtMostFourChanges | apps/worker/src/jobStore.ts:40-112 | over any run of the protocol a run changes at most four times: three claims and its end |
| RunStore.SelectEvicted | apps/api/src/postgresStore.ts:197-208 | the rows evicted are the first settled ones by completion and creation time, as many as required or all |
| RunStore.RunTable.CountRuns | apps/api/src/postgresStore.ts:185-192 | the count step, and a refusal exactly when the queue is full |
| RunStore.RunTable.EvictRuns | apps/api/src/postgresStore.ts:193-211 | the eviction step, and a refusal exactly when too few rows are settled |
| RunStore.RunTable.InsertRun | apps/api/src/postgresStore.ts:212-217 | the insert step, visible with the eviction at commit |
| RunStore.RunTable.QueueRun | apps/api/src/postgresStore.ts:176-227 | uninterrupted: refused exactly when the queue is full or too few rows are settled, a refusal changes nothing, otherwise the oldest settled rows make room for the new one |
| RunStore.OldestClaimable | apps/worker/src/jobStore.ts:42-50 | the claimable row not locked by another claim that was created first, and none only when there is none |
| RunStore.RunTable.Claim | apps/worker/src/jobStore.ts:40-62 | hands out the longest-waiting claimable run that is not locked and nothing when there is none |
| RunStore.RunTable.HandOut | apps/worker/src/jobStore.ts:51-58 | the update of the claimed row is a claim step of the protocol |
| RunStore.RunTable.Complete | apps/worker/src/jobStore.ts:91-102 | the write is a step of the protocol and touches a running row only |
| RunStore.RunTable.Fail | apps/worker/src/jobStore.ts:104-111 | the same for a failure, with code and message cut to their lengths |
| RunStore.Shortened | apps/worker/src/jobStore.ts:109 | the longest beginning of a text that fits |
| RunStore.RunTable.MaintainExhausted | apps/worker/src/jobStore.ts:64-75 | fails every run whose third lease is over and reports their number |
| RunStore.RunTable.MaintainRetention | apps/worker/src/jobStore.ts:76-79 | the retention statement is a step of the protocol |
| RunStore.RunTable.RunOnce | apps/worker/src/index.ts:62-112 | one round of a worker, taking any time, settles exactly the run it claimed, a failure under the code of its message |
| MemoryStore.SettledByCreation | apps/api/src/memoryStore.ts:115-117 | all settled runs, each once, sorted by creation |
| MemoryStore.Store.EvictOldest | apps/api/src/memoryStore.ts:118-124 | removes as many settled runs as needed, none younger than one that stays, and leaves the others and their submissions unchanged |
| MemoryStore.Store.QueueRun | apps/api/src/memoryStore.ts:106-134 | refused exactly when the queue is full or active runs fill the store; active runs and what stays are unchanged; a store within its limit stays within it, and then a refusal changes nothing, whatever the queue limit; a refusal loses runs exactly when the queue was not full and something was settled |
| MemoryStore.ServeUnderOneLimit | apps/api/src/memoryStore.ts:106-134 | from the empty store, over any submissions and ends of runs under one store limit and any queue limits, the limit holds and no refusal changes anything |
| MemoryStore.FallingLimitLosesRuns | apps/api/src/memoryStore.ts:118-125 | a sequence of calls, the store limit lowered before the last, in which a refused submission costs a completed run |
| FifoQueue.CohortQueue.Advance | packages/sim-core/src/queueing.ts:146-175 | served is the smaller of work and capacity, depth is the exact excess less at most one residue, cohorts stay strictly ordered, at most so many residues in so many calls, and the age is that of the oldest arrival not departed |
| FifoQueue.CohortQueue.Drain | packages/sim-core/src/queueing.ts:159-168 | the loop serves from the front until capacity or queue is used up and drops at most one residue |
| FifoQueue.HeadIsOldestOwed | packages/sim-core/src/queueing.ts:170-173 | the head is the oldest cohort whose cumulative arrivals exceed the cumulative departures, dropped residue included |
| FifoQueue.EnqueuedAccounts | packages/sim-core/src/queueing.ts:152-157 | arrivals of a second join its cohort or open one, and stay accounted for |
| Autoscaler.AlwaysSound | packages/sim-core/src/simulate.ts:3019-3026 | in every run at least one instance is active and active plus pending stay within the maximum |
| Autoscaler.LandingKeepsSound | packages/sim-core/src/simulate.ts:3019-3026 | arriving capacity is never cut at the maximum |
| Autoscaler.ShrinkingKeepsSound | packages/sim-core/src/simulate.ts:3186-3198 | a bad-autoscaling incident leaves at least one instance and cancels what is pending |
| Autoscaler.RequestedIsLeast | packages/sim-core/src/simulate.ts:3513-3516 | a scale-up asks for the least number that is thirty-five percent, at least one, within the headroom |
| Autoscaler.ScaleUpsAreSpaced | packages/sim-core/src/simulate.ts:3505-3518 | two automatic scale-ups are at least a cooldown apart |
| Autoscaler.PendingArrives | packages/sim-core/src/simulate.ts:3019-3026 | uncancelled capacity arrives in full at its due second and not before |
| Autoscaler.ArrivesWhenReadyIffStartupTakesTime | packages/sim-core/src/simulate.ts:3019-3026 | in every run, uncancelled capacity is active by the end of the second it is ready in exactly when starting up takes at least a second |
| Autoscaler.ReadyTimesAreEarlier | packages/sim-core/src/simulate.ts:3513-3518 | at the start of a second every ready time comes from a request of an earlier one |
| Autoscaler.InstantStartupArrivesLate | packages/sim-core/src/simulate.ts:3517 | without startup time capacity ready in second 0 arrives in second 1 |
| Autoscaler.AdmissionStaysInRange | packages/sim-core/src/simulate.ts:3462-3471 | the admission factor stays between 0.05 and 1 |
| Autoscaler.SevenFramesRestoreAdmission | packages/sim-core/src/simulate.ts:3462-3471 | seven frames without shedding bring it back to 1 |
| Autoscaler.SixFramesMayNotSuffice | packages/sim-core/src/simulate.ts:3462-3471 | six frames need not |
| Autoscaler.NodeState.ApplyActions | packages/sim-core/src/simulate.ts:2484-2489 | scale actions of a second, in order, each cancelling what is pending |
| Autoscaler.NodeState.Decide | packages/sim-core/src/simulate.ts:3501-3549 | the automatic decision as specified |
| Autoscaler.NodeState.Advance | packages/sim-core/src/simulate.ts:3019-3549 | one second of a node keeps it sound and follows the specified order of steps |
| Autoscaler.NodeState.Run | packages/sim-core/src/simulate.ts:3019-3549 | after any seconds the node is where the specified run is |
| IncidentIds.SuffixedInjective | packages/sim-core/src/simulate.ts:945-948 | different suffixes give different ids |
| IncidentIds.SuffixedFits | packages/sim-core/src/simulate.ts:945-948 | an id with a suffix has at most eighty characters exactly when its marker has |
| IncidentIds.TriedAtMostReserved | packages/sim-core/src/simulate.ts:944-949 | no more suffixes can be taken than ids are reserved |
| IncidentIds.GeneratedIncidentId | packages/sim-core/src/simulate.ts:936-952 | the search ends with the first free id, which is new, reserved, and at most eighty characters as long as markers fit |
| StochasticIncidents.Generator.Occur | packages/sim-core/src/simulate.ts:2614-2655 | an occurrence keeps caps, spacing, numbering and fresh ids |
| StochasticIncidents.Generator.GenerateSecond | packages/sim-core/src/simulate.ts:2599-2663 | exactly the rules whose turn it is occur, once each and in order, as many as the cap leaves room for; their counters and next seconds move on, the others stay |
| StochasticIncidents.GenerateRun | packages/sim-core/src/simulate.ts:2599-2663 | over any run: never more than the cap or a rule's maximum, occurrences of a rule at least cooldown plus one apart, ids fresh, distinct and short |
| CausalEvents.EventLog.Emit | packages/sim-core/src/simulate.ts:2459-2463 | an id is logged once, and the log stays one whose parents come earlier |
| CausalEvents.LastId | packages/sim-core/src/simulate.ts:2979-2985 | the last event that matches, or nothing when none does |
| CausalEvents.EventLog.Observe | packages/sim-core/src/simulate.ts:2529-2539 | every place that emits adds its event, with parents taken from the log, unless its id is there |
| CausalEvents.RecordRun | packages/sim-core/src/simulate.ts:2459-2463 | whatever is observed in whatever order, ids are unique and parents strictly earlier |
| CausalChain.Walk.Visit | apps/web/src/components/TelemetryPanel.tsx:291-299 | the walk ends on every log and lists what led to an event, parents first, then the event |
| CausalChain.ListedHoldsAncestors | apps/web/src/components/TelemetryPanel.tsx:293-296 | a list with parents first holds all ancestors of what it holds |
| CausalChain.ChainFor | apps/web/src/components/TelemetryPanel.tsx:282-302 | the chain is exactly the selected event and its ancestors, each once, parents before children; nothing for an unknown event |
| SolverMutations.ApplyIsMap | packages/sim-core/src/solve.ts:248-257 | updating found nodes in place changes exactly the named nodes |
| SolverMutations.GrownIsLeast | packages/sim-core/src/solve.ts:299-305 | horizontal growth is the least number half as many again and at least one more, short of the cap |
| SolverMutations.ChangeKeepsValid | packages/sim-core/src/solve.ts:284-597 | a change made from the baseline leaves a node valid also after one other change |
| SolverMutations.OneChangeIsSound | packages/sim-core/src/solve.ts:284-597 | one change leaves a node so that another still fits |
| SolverSearch.MutationCatalog | packages/sim-core/src/solve.ts:272-598 | the catalog is exactly the offers of allowed strategies that touch no locked node, by strategy and then by node, the bottleneck first |
| SolverSearch.CatalogOrderIsStrict | packages/sim-core/src/solve.ts:272-598 | the order fixes the catalog: nothing twice, and no two changes may change places |
| SolverSearch.CatalogIsUnique | packages/sim-core/src/solve.ts:272-598 | an architecture has one catalog only |
| SolverSearch.BottleneckFirst | packages/sim-core/src/solve.ts:259-270 | the bottleneck comes before all other nodes, which keep their order |
| SolverSearch.SingleChangeKeeps | packages/sim-core/src/solve.ts:284-597 | a single change applies, keeps the architecture valid by the schema and locked nodes as they are |
| SolverSearch.PairOfChangesKeeps | packages/sim-core/src/solve.ts:649-663 | so do two changes one after the other |
| SolverSearch.SameWork | packages/contracts/src/index.ts:1104-1131 | a candidate's work estimate is the baseline's |
| SolverCandidates.SelectionKeeps | packages/sim-core/src/solve.ts:622-624 | no selection ever names a missing node, and all keep the baseline's guarantees |
| SolverCandidates.SelectionsListed | packages/sim-core/src/solve.ts:646-664 | the single changes and then the pairs of different strategies are exactly the selections, in the order of the loops |
| SolverCandidates.CollectedIsFirst | packages/sim-core/src/solve.ts:620-643 | a candidate comes from the first selection that leads to its architecture |
| SolverCandidates.FirstIsCollected | packages/sim-core/src/solve.ts:620-643 | every such first selection that changes anything gives a candidate |
| SolverCandidates.CandidateBlueprints | packages/sim-core/src/solve.ts:600-666 | at most so many candidates, all new and different, a beginning of those of all selections in their order; not truncated means all of them |
| SolverCandidates.LimitFitsBudget | packages/sim-core/src/solve.ts:984-993 | baseline and candidates within the limit cost at most the budget |
| SolverCandidates.Explore | packages/sim-core/src/solve.ts:966-995 | refused exactly when the baseline alone is over budget; otherwise valid, different candidates that together with it stay within the budget, covering every selection of the catalog unless truncated at the limit |
| SolverNames.NameIsStrategyAndSlug | packages/sim-core/src/solve.ts:630-635 | of two changes that may be made, the names agree exactly when strategy and slug of the node do |
| SolverNames.SingleIdsDistinctIff | packages/sim-core/src/solve.ts:630-635 | ids of single changes differ exactly when the slugs of nodes one strategy may change differ |
| SolverNames.IdTellsChanges | packages/sim-core/src/solve.ts:630-635 | with such slugs, and for pairs none with two underscores in a row, an id tells which changes made the candidate |
| SolverNames.CandidateIdsCollide | packages/sim-core/src/solve.ts:630-635 | nodes that differ in case only, or in a character that is replaced, give candidates one id |
| SolverNames.NestedIdCollides | packages/sim-core/src/solve.ts:630-635 | a single change of a node whose id reads like a pair has the id of that pair |
| SolverRanking.SummarizeIsSummarized | packages/sim-core/src/solve.ts:164-167 | summarized objectives lie on the six- and four-digit grids |
| SolverRanking.DominanceIsNotTransitive | packages/sim-core/src/solve.ts:768-785 | dominance with its tolerance is not transitive, also on the grids |
| SolverRanking.DominanceIsAhead | packages/sim-core/src/solve.ts:768-785 | on the grids dominance implies a strict order |
| SolverRanking.DominanceIsAcyclic | packages/sim-core/src/solve.ts:768-785 | on the grids dominance never runs in a circle |
| SolverRanking.FlagMeansUndominated | packages/sim-core/src/solve.ts:1033-1040 | an undominated candidate is flagged; a flagged one is undominated when ids are distinct, and otherwise only an entry with its own id hides what dominates it |
| SolverFlags.FlagIsExact | packages/sim-core/src/solve.ts:1013-1040 | for every search whose node ids have clear slugs, an eligible candidate is flagged exactly when nothing eligible dominates it |
| SolverFlags.FlagAlwaysExactIff | packages/sim-core/src/solve.ts:1013-1040 | whatever the objectives, the flag is exact exactly when every explored candidate has an id of its own |
| SolverFlags.SameIdIff | packages/sim-core/src/solve.ts:626-640 | the ids of two selections agree exactly when their strategies and slugs spell the same |
| SolverFlags.CompleteSearchExactIff | packages/sim-core/src/solve.ts:600-1040 | after a complete search, with one or two changes, the flag is exact under all objectives exactly when, in the catalog of the architecture, no two selections that are the first to lead to their architectures spell the same |
| SolverFlags.SingleFlagsExactIff | packages/sim-core/src/solve.ts:626-640 | with one change per candidate that is exactly when candidates of one strategy change nodes with different slugs |
| SolverFlags.SharedIdHidesDominance | packages/sim-core/src/solve.ts:1013-1040 | a valid architecture whose two candidates share an id, so that the dominated one is flagged |
| SolverRanking.FrontierIsNotEmpty | packages/sim-core/src/solve.ts:1033-1048 | as soon as anything is eligible, something eligible is undominated and flagged |
| SolverScoring.NormalizedWeightsAddUp | packages/sim-core/src/solve.ts:668-683 | accepted weights are non-negative and add up to one |
| SolverScoring.UtilityInUnitInterval | packages/sim-core/src/solve.ts:814-837 | every eligible utility lies between 0 and 1 |
| SolverScoring.UtilityIsMonotone | packages/sim-core/src/solve.ts:814-837 | at least as good in all objectives never has the lower utility |
| SolverScoring.ScoreEvaluations | packages/sim-core/src/solve.ts:787-842 | eligible entries get their utility over the eligible ranges, between zero and one, the others minus one |
| SolverScoring.Rank | packages/sim-core/src/solve.ts:1049-1057 | a permutation of the candidates by eligibility, utility, passed requirements and id |
| SolverScoring.Recommend | packages/sim-core/src/solve.ts:1077-1083 | the recommendation meets all conditions, beats the baseline's utility, and no other candidate that meets them has a higher utility |
| SolverScoring.Decide | packages/sim-core/src/solve.ts:1020-1089 | the frontier is empty only when nothing is eligible; something is recommended exactly when a candidate is flagged, not dominated by the baseline and scores above it; it is on the frontier, its utility is above the baseline's, and no other such candidate has a higher one |
| Solver.SolveArchitecture | packages/sim-core/src/solve.ts:949-1117 | from request to answer: refused exactly when an option is invalid or the baseline alone is over budget; otherwise all candidates are valid, different, within the budget and leave locked nodes alone, one is recommended exactly when one qualifies, it has the greatest utility of those, and with clear ids nothing dominates it and no other has its id |
| Solver.EntriesAreSummarized | packages/sim-core/src/solve.ts:996-1032 | what the decision sees are the rounded evaluations of the baseline and of exactly these candidates |
| XorShift.StepInjective | packages/sim-core/src/prng.ts:16-20 | no two states have the same next state |
| XorShift.StepNonZero | packages/sim-core/src/prng.ts:16-20 | only zero leads to zero |
| Prng.EverySeedIsPeriodic | packages/sim-core/src/prng.ts:15-22 | every state comes back to itself |
| Prng.FractionBounds | packages/sim-core/src/prng.ts:21 | a nonzero state gives a draw strictly between 0 and 1 |
| Prng.DeterministicRandom.Next | packages/sim-core/src/prng.ts:15-22 | the state follows the step and the draw lies strictly between 0 and 1 |
| Prng.CountDraws | packages/sim-core/src/queueing.ts:57-64 | the loop ends for every state and positive limit within an explicit number of draws, and counts how long the product of draws stays above the limit |
| Prng.SamplePoissonCount | packages/sim-core/src/queueing.ts:49-72 | refuses negative means only; for small means the draws whose product stays above exp of minus the mean, for large ones the mean and a normal deviation of two draws, rounded |
| DirectiveParser.AcceptedIsSpelled | scripts/edge_contract.py:58-79 | what is accepted spells the tree that is returned, to the last token |
| DirectiveParser.SpelledIsAccepted | scripts/edge_contract.py:58-79 | every spelling of a well-formed tree is accepted and gives the tree back |
| DirectiveParser.AcceptsIffSpelled | scripts/edge_contract.py:56-81 | accepted exactly when the tokens, read as marks and words, spell the tree |
| DirectiveParser.Parser.Block | scripts/edge_contract.py:58-79 | the loop with its shared index and recursion computes the specified parse and ends |
| DirectiveParser.Directives | scripts/edge_contract.py:56-81 | all tokens are consumed and spell the tree, or no tree spells them |
| DirectiveParser.RoundTrip | scripts/edge_contract.py:56-81 | writing a tree and parsing it gives the tree back; quoted braces and semicolons stay words |

## Left out

- Floating point: rounding and the early return on a non-finite amplification are not modelled; `exp`, square roots and what two draws make of a normal one are parameters.
- Edge and node ids are unique, as the schema demands; edges are identified by position.
- Request class plans (authored routes, terminals, entry weights, and the cache coverage along a route) are inputs of the traffic model with the ranges the code gives them.
- TrafficEngine.Engine.EnterClasses: of the node aggregates only demand and synchronous demand are kept, not the sums of reads, payload, compute, latency, jitter and bandwidth.
- TrafficEngine.Engine.TakeEdge: the same aggregates are kept and left out.
- TrafficEngine.Engine.ExecuteRequestClasses: the same aggregates are kept and left out.
- TrafficEngine.Engine.RunSecond: client retries, incidents and everything else between the flow and the retries of a second are the arbitrary errors it takes.
- Arrays that the traffic engine updates element by element are sequence fields that its methods reassign.
- Per-class edge records are kept for every class, where the code keeps the full record for traced classes in sampled seconds only.
- Node forwarding factors, hit rates, error rates and utilizations are arbitrary inputs in their ranges; the formulas behind them are left out.
- The scenario checks behind the topology checks (incident targets, regions, zones) are left out.
- SQL text, connection pools, hashing and UUID generation: a statement is one atomic step, time a non-decreasing integer, an id any unused number.
- RunStore.RunTable.Claim: which rows concurrent claims have locked is an input; the protocol lets a claim take any claimable row.
- RunStore.RunTable.RunOnce: nothing else happens between its claim and its write; what other workers may do meanwhile is part of the protocol.
- The worker's `stopping` flag, polling delays, heartbeats and shared-scenario cleanup are left out; one round of its loop is modelled.
- The digest stored beside a result is not a field of its own; a result stands for both.
- The timestamps of the in-memory store are integers, compared as such.
- Requirement fitness, resilience fitness and the other summary formulas are arbitrary values that are then rounded.
- Solver.SolveArchitecture: what simulating an architecture yields is a parameter, so leaving hidden requirements out is part of it; options have no defaults and can only name known strategies.
- Candidates are compared by value where the code compares their serialized text, so an equal architecture with another key order would count as new there.
- Labels, titles, details and explanations of candidates, and characters outside ASCII in candidate ids, are left out.
- SolverScoring.Rank: the order a locale puts ids in is a parameter.
- Trigger evaluation, hazard draws, target selection and trace scheduling of stochastic incidents: which rules fire is an input.
- Effects, titles, recommendations and trace evidence of causal events are left out; the seconds in autoscale event ids are given as text.
- CausalChain.ChainFor: returns positions in the log instead of the events themselves.
- The tokenizer of the directive parser and Python's recursion limit are left out.
- Prng.DeterministicRandom.constructor: takes the low 32 bits of the seed; converting a number to them is left out.
- Queueing delay estimates, arrival patterns other than the Poisson count, and `between` are left out: formulas without a stated law.
- HTTP routes, rate limits, the AI provider, configuration loading, migrations and the user interface apart from `causalChain` are left out.
