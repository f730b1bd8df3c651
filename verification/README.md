# Verification of the master's control plane

A Dafny model of a small LLM-serving cluster: a Go master that admits chat
requests, routes them to workers, measures the traffic and scales the workers;
the agent's port allocator; and the worker's priority queue. `dafny verify
dfyconfig.toml` checks everything.

The model follows the code, also where the code's comments or documents say
something else (see the end of this file). Each module matches one component:

| module | component |
|---|---|
| `Limits` | constants and shared types |
| `RequestProtocol` | a chat request from arrival to release as interleaved atomic steps, any number at once; the accounting invariant over every run |
| `RequestBounds` | how far the check-then-add races let the counters overshoot |
| `RequestRaces` | runs that attain those bounds; the stale queue gauge |
| `Admission` | `AdmissionController.Admit` as code, with other requests interleaved, each operation proved to be a protocol step |
| `Workers` | worker objects, lifecycle, registry, the three routing strategies and the health check; who refers to a worker |
| `Router` | the registry together with the requests that use it |
| `Routability` | exactly when admission guarantees a worker with room |
| `ChatHandler` | the two nested retry loops of a request |
| `Sorting` | the in-place insertion sort used by metrics and scaling |
| `RollingWindow` | the ring buffer and its percentiles |
| `Trend` | the least-squares traffic trend |
| `Smoothing` | the exponentially weighted average |
| `InFlight` | in-flight requests and the truncated completion log |
| `ScaleUp` | a scale-up under arbitrary failures |
| `Placement`, `SpawnPlacement` | greedy placement; where a scale-up puts its workers |
| `AgentHealth` | escalating spawn penalties in 64-bit arithmetic |
| `DrainSelection` | which workers a scale-down drains |
| `Scaling` | the autoscaler's decisions and the worker total over whole runs |
| `PortAllocator` | the agent's cyclic port cursor |
| `WorkerQueue` | the heap that a worker's handlers share |

Time, the network, map iteration order, port probes and the agents' answers are
parameters or oracles that may take any value. Samples are reals. Where a
method loops over a Go map, the order is a parameter.

Seven properties one would expect are false of the code. Each has a run or a
state that breaks it, and the exact condition under which it holds:

- The active count does not respect the global limit (`RequestRaces.ActiveWithinExactly`), nor the queue its size (`RequestRaces.QueueWithinExactly`).
- An admitted request may find every worker full (`Routability.RoutableExactly`).
- The queue gauge can stay wrong for good (`RequestRaces.GaugeCanStayStale`, `RequestRaces.GaugeRightExactly`).
- Draining is not final: a request or a ping that began before can undo it (`Workers.SendUndoesDrain`, `Workers.PingUndoesDrain`, `Workers.MayReturnExactly`).
- The doubled spawn penalty wraps around: with the default base every failure in a row is penalised as described up to the 29th, and after that only now and then (`AgentHealth.PenaltyRightExactly`, `AgentHealth.DefaultPenaltyRightAt`).
- A drain can empty an agent (`DrainSelection.KeepsOneExactly`).
- A drain can leave fewer healthy workers than the minimum (`Scaling.MinimumCanFail`, `Scaling.KeepsMinimumExactly`).

## Model

| member | source | states |
|---|---|---|
| RequestProtocol.ReachableInv | master/lib/admission.go:81-159 | in every state of every interleaving, active = slots held + adds about to be undone, queueSize = queued requests, requests = errors + latencies + requests still unrecorded, the in-flight store holds exactly the requests between its add and remove, and each worker's counter is its number of calls |
| RequestProtocol.RunKeepsInv | master/lib/server.go:117-204 | every finite run of arrivals, limit updates and thread steps preserves that accounting |
| RequestProtocol.RunRecords | master/lib/server.go:129-192 | over every run each arrival is counted as a request, each reply as a latency sample, and each failure and each refusal as an error |
| RequestProtocol.CountersNest | master/lib/router.go:306-308 | for any distinct workers, sum of their activeRequests ≤ in-flight count ≤ slots held ≤ active |
| RequestProtocol.TotalLoadIsCallers | master/lib/worker.go:152-154 | the loads of distinct workers add up to the number of requests inside Send on them, without double counting |
| RequestProtocol.AllReturned | master/lib/server.go:134-151 | when all requests have returned, every counter is zero, the in-flight store is empty, and each counted request recorded exactly one error or latency |
| RequestBounds.ActiveBound | master/lib/admission.go:82-112 | active never exceeds the largest limit + the top burst of the arriving tiers (50 elite, 20 pro, 0 free) + T − 1, where T bounds the threads at once between a passed check and its add |
| RequestBounds.QueueSizeBound | master/lib/admission.go:115-122 | queueSize never exceeds MaxQueueSize + T − 1, where T bounds the threads at once between the queue check and its add |
| RequestBounds.AdmissionWithinLimit | master/lib/admission.go:103-106 | a fast-path or poll add admits exactly when the count was below the limit it read, and then at most that many slots are held in all |
| RequestBounds.HeldBound | master/lib/admission.go:150-156 | with free traffic only, the slots held never exceed the largest limit, whatever the races |
| RequestRaces.ActiveBoundAttained | master/lib/admission.go:86-112 | for every limit, every tier and every number T of racing threads some run reaches limit + burst + T − 1, so the bound is tight; racing free requests overshoot by adds they then undo |
| RequestRaces.ActiveWithinExactly | master/lib/admission.go:81-112 | the active count is sure to stay within the limit exactly when no burst tier arrives and no two threads are at once between a passed check and its add |
| RequestRaces.QueueBoundAttained | master/lib/admission.go:115-122 | for every queue size, every tier that can queue and every number of racing threads some run fills the queue to MaxQueueSize + T − 1 |
| RequestRaces.QueueWithinExactly | master/lib/admission.go:115-122 | the queue is sure to stay within MaxQueueSize exactly when no two threads are at once between the queue check and its add |
| RequestRaces.GaugeRightWhenSerial | master/lib/admission.go:122-131 | if queue changes are published one at a time, the collector's queue size is right whenever none is pending |
| RequestRaces.GaugeRightExactly | master/lib/admission.go:122-131 | the collector's queue size is sure to be right whenever no change is pending exactly when at most one request at a time is between a queue change and its publication |
| RequestRaces.GaugeCanStayStale | master/lib/admission.go:126-131 | two requests that leave together can publish in the wrong order: all have returned, the queue is empty, the gauge says 1 |
| RequestRaces.GaugeCanBeStale | master/lib/admission.go:122-131 | a request that leaves can publish after one that entered later: nothing is pending, one request is queued, the gauge says 0 |
| Admission.AdmissionController.constructor | master/lib/admission.go:58-67 | the controller starts in the protocol's initial state with the limit of one worker |
| Admission.AdmissionController.UpdateLimits | master/lib/admission.go:69-76 | the limit becomes fifty for each healthy worker, zero for none or fewer, as one protocol step |
| Admission.AdmissionController.LoadActive | master/lib/admission.go:82-83 | the count read is the controller's count at that moment, and it decides the next operation |
| Admission.AdmissionController.AddActive | master/lib/admission.go:105-151 | the value an add returns is the count it leaves, and it decides between a slot and the undo |
| Admission.AdmissionController.Poll | master/lib/admission.go:143-158 | whatever runs in between, the first signal that is not a tick decides: context done cancels, the timer times out, and only ticks before it can admit; when nobody else runs it admits exactly if the first signal is a tick and the count is below the limit |
| Admission.AdmissionController.Tick | master/lib/admission.go:149-157 | one tick ends with a slot or with its add undone; when nobody else runs it admits exactly below the limit |
| Admission.AdmissionController.Queue | master/lib/admission.go:115-158 | refuses or waits; on every way out the queue count is given back and the gauge published; when nobody else runs it refuses exactly at the queue size |
| Admission.AdmissionController.BurstPath | master/lib/admission.go:85-99 | a burst admits exactly an elite or pro request whose reading of the count is below the limit plus its burst |
| Admission.AdmissionController.FastPath | master/lib/admission.go:103-112 | the fast path ends with a slot, or with its add undone and on to the queue |
| Admission.AdmissionController.Unqueued | master/lib/admission.go:82-112 | from the two loads on, a request either gets a slot at once or stands at the queue; when nobody else runs it gets one exactly below the limit plus 50 (elite) or 20 (pro), or below a positive limit (free) |
| Admission.AdmissionController.Admit | master/lib/admission.go:81-159 | one request, with any other requests between any two of its operations, performs only protocol steps and ends holding a slot exactly when told it was admitted; when nobody else runs, count, limit, queue size and the signals determine the answer |
| Workers.Registry.SpawnAccepted | master/lib/server.go:347-352 | a named spawn overwrites the registry entry with an unconnected STARTING placeholder and keeps the registry's invariant |
| Workers.Registry.WorkerReady | master/lib/server.go:289-302 | the callback registers a connected HEALTHY worker exactly when dialling succeeds |
| Workers.Registry.ReAdopt | master/lib/server.go:234-249 | a surviving worker is adopted exactly when it has a name, is not registered and can be dialled |
| Workers.Registry.RemoveWorker | master/lib/admin.go:44-64 | takes out that id only, closes that worker's connection and no other, and asks its agent, if it has one, to destroy it |
| Workers.Registry.SetDown | master/lib/autoscaler.go:694-720 | draining, stopping and killing set the state of one worker and keep status and lifecycle consistent |
| Workers.Registry.LeastLoaded | master/lib/strategy.go:57-73 | for every iteration order the scan finds a HEALTHY worker of minimum load, or none exactly when there is none |
| Workers.Registry.PickLeastConnections | master/lib/strategy.go:56-83 | for every iteration order: a HEALTHY worker of minimum load below 50, or none exactly when every HEALTHY worker has at least 50 |
| Workers.Registry.OpenWorkers | master/lib/strategy.go:128-138 | for every iteration order exactly the HEALTHY workers below 50 are collected |
| Workers.Registry.PickRandom | master/lib/strategy.go:123-146 | a HEALTHY worker below 50, or none in exactly the same states as least connections |
| Workers.Registry.PickRoundRobin | master/lib/strategy.go:85-121 | the routable worker at the counter, or the first of a second scan; while that one is full it fails and the counter stays, whatever room the others have |
| Workers.Registry.TurnIs | master/lib/strategy.go:89-111 | the worker whose turn it is has as many routable ones before it in the scan as the counter says; when there are not that many it is the first routable one of the second scan; none exactly without routable workers |
| Workers.Registry.CountIn | master/lib/worker.go:152-154 | a send on a picked worker always has a client, in every order of operations, and counts it once |
| Workers.Registry.CountOut | master/lib/worker.go:152-154 | the return of a call gives its count back, and nothing else |
| Workers.Registry.MarkAfterReply | master/lib/router.go:310-311 | some time after a successful send the worker is made healthy from whatever state it then has; it has a client |
| Workers.Registry.CollectForPing | master/lib/server.go:382-390 | the health check collects exactly the registered workers that are HEALTHY or WARMING |
| Workers.Registry.StartPing | master/lib/server.go:391-395 | the health check pings a collected worker exactly when its counter is zero at that moment, and the worker then has a client, in every order of operations |
| Workers.Registry.PingReturned | master/lib/server.go:396-407 | the answer makes the worker healthy, its absence drains it, whatever state and load it has by then |
| Workers.BecomesRoutableExactly | master/lib/router.go:310-313 | over any sequence of operations a worker that is not routable becomes so exactly when one of them marks it after a successful send or is an answered ping of it |
| Workers.RoutableAfterExactly | master/lib/server.go:391-407 | it is routable at the end exactly when such an operation occurs and no later one takes it down, an unanswered ping included |
| Workers.MayReturnExactly | master/lib/autoscaler.go:694-720 | a worker that has been taken down can become routable in some possible run exactly when a request has picked it, is calling it or has yet to mark it, or the health check has collected it or is pinging it |
| Workers.SendUndoesDrain | master/lib/router.go:301-311 | a concrete registry: picked, called, set to draining, answered and marked, a worker is HEALTHY again |
| Workers.PingUndoesDrain | master/lib/server.go:382-407 | another: picked, found idle and pinged, called, set to draining while busy, a worker is HEALTHY again when the ping is answered |
| Workers.Registry.HealthyWorkerCount | master/lib/router.go:119-129 | for every iteration order the count that sets the admission limit is the number of registered HEALTHY workers |
| Workers.Registry.HolderHasOpen | master/lib/strategy.go:56-83 | when slots held ≤ 50 × routable workers and the counters are the sends under way, a slot holder that is not sending has a routable worker below 50 |
| Router.Router.Follows | master/lib/router.go:301-308 | a pick, the start and the end of a send move the registry's counters and picks exactly as the requests' steps do, for every worker |
| Router.Router.KeepsValid | master/lib/router.go:106-110 | spawn, callback, adoption, removal, drain, ping and mark change neither, so they stay those of the requests |
| Router.Router.SendStarts | master/lib/worker.go:152-154 | a request that has picked a worker can always enter Send on it, whatever happened meanwhile: there is a client, and it is one protocol step that moves that worker's counter with it |
| Router.Router.SendEnds | master/lib/router.go:307-308 | leaving Send is one protocol step and moves that worker's counter with it |
| Router.Router.PickWorker | master/lib/strategy.go:19-83 | in every reachable state, whenever the slots held fit on the routable workers, an admitted request is routed to a HEALTHY worker of minimum load below 50 |
| Workers.HolderHasRoom | master/lib/strategy.go:75-82 | pigeonhole: the sends under way cannot fill all workers while a slot holder is not sending |
| Routability.AdmittedFindsRoom | master/lib/admission.go:70-76 | over any run of free requests whose limits fit the workers, an admitted request that is not sending always has a worker with room |
| Routability.AdmittedFindsNone | master/lib/admission.go:86-99 | with a burst tier, for any number of workers some run without a race fills all of them while one more admitted request has nowhere to go |
| Routability.RoutableExactly | master/lib/strategy.go:75-82 | in all runs whose limit fits the workers every admitted request finds room, exactly when neither burst tier arrives |
| ChatHandler.Handler.HandleChat | master/lib/router.go:289-330 | in terms of the cluster's answers alone: it replies exactly if each pick up to the first successful of at most three sends finds a worker, and reports no workers exactly if the first pick finds none; the sends are those, the first with the request's tier and the others elite, and no others |
| ChatHandler.Handler.ChatRequest | master/lib/server.go:131-199 | unavailable exactly if ten picks in a row find no worker; otherwise the first pick that finds one starts the sends, and the answer is the reply exactly if they get one, else bad gateway; each request adds one to requests and one to errors or latencies |
| Sorting.ShiftRight | master/lib/metrics.go:136-142 | one round shifts exactly the larger elements one place right and drops the new one into the gap |
| Sorting.InsertionSort | master/lib/metrics.go:134-144 | the in-place sort computes `Sorted` |
| Sorting.SortedAscends | master/lib/autoscaler.go:628-636 | `Sorted` is ascending and has the same elements |
| Sorting.SortedStable | master/lib/autoscaler.go:628-636 | elements with equal keys keep their order |
| Sorting.SortedCount | master/lib/metrics.go:134-144 | sorting keeps how many elements pass any test |
| Sorting.CountIs | master/lib/autoscaler.go:600-607 | a count is the number of places that pass the test |
| RollingWindow.OverwriteKeepsOrder | master/lib/metrics.go:71-78 | writing at the cursor and moving on drops exactly the oldest sample, across the wrap |
| RollingWindow.RollingWindow.Add | master/lib/metrics.go:71-78 | after any number of adds the buffer in arrival order is the last `size` samples of the history |
| RollingWindow.RollingWindow.Values | master/lib/metrics.go:87-97 | the copy is exactly the last min(count, size) samples in arrival order |
| RollingWindow.RollingWindow.Percentile | master/lib/metrics.go:100-119 | computes `PercentileOf` of the last samples |
| RollingWindow.PercentileInterpolates | master/lib/metrics.go:108-118 | for every window: between the sorted samples of rank k and k + 1 the percentile is s[k] + (p(n−1)/100 − k)(s[k+1] − s[k]) |
| RollingWindow.PercentileOfLine | master/lib/metrics.go:108-118 | samples on a rising line, in any order, have percentiles on that line, at the rank |
| RollingWindow.PercentileOfFew | master/lib/metrics.go:101-105 | an empty window has percentile 0, a single sample is every percentile |
| RollingWindow.PercentileMonotone | master/lib/metrics.go:100-119 | a higher percentile is never smaller |
| RollingWindow.PercentileExtremes | master/lib/metrics.go:100-119 | percentile 0 is the minimum of the window and 100 the maximum |
| RollingWindow.PercentileRanks | master/lib/metrics.go:108-118 | at least floor(rank) + 1 samples are ≤ it and at least n − ceil(rank) are ≥ it |
| RollingWindow.PercentileOfMultiset | master/lib/metrics.go:100-119 | depends only on the multiset of samples, not their order |
| Trend.ComputeRPSTrend | master/lib/metrics.go:354-376 | the loop over the window computes `Slope` of the last samples |
| Trend.DenominatorIs | master/lib/metrics.go:371-374 | the denominator is n²(n²−1)/12, positive from two samples on, so the zero guard never fires |
| Trend.NumeratorIsPairs | master/lib/metrics.go:361-375 | Chebyshev's identity: the numerator is the sum over pairs i < j of (j−i)(yⱼ−yᵢ) |
| Trend.SlopeSign | master/lib/metrics.go:352-353 | a non-decreasing window never has a negative trend, a non-increasing one never a positive |
| Trend.SlopeReversed | master/lib/metrics.go:361-375 | traffic run backwards has the opposite trend |
| Trend.NormalEquations | master/lib/metrics.go:361-375 | the slope and its intercept solve both normal equations |
| Trend.SlopeFitsBest | master/lib/metrics.go:361-375 | no line has a smaller squared error over the window than the one with the code's slope |
| Trend.SlopeFitsExactly | master/lib/metrics.go:354-376 | the trend is a best-fitting slope exactly unless the window is two different samples: below three samples it is zero |
| Trend.SlopeOfLine | master/lib/metrics.go:361-375 | a window on a line a + b·i has trend b |
| Smoothing.Ewma.Add | master/lib/metrics.go:34-41 | after any adds since a reset the value is `Smoothed` of those samples |
| Smoothing.SmoothedBetween | master/lib/metrics.go:34-41 | smoothing never leaves the range of the samples |
| Smoothing.Forgets | master/lib/metrics.go:34-41 | two histories with the same last k samples differ by exactly (1−α)^k times their earlier difference |
| InFlight.InFlightStore.Add | master/monitoring/inflight.go:32-41 | a request is entered under its id; the log is untouched |
| InFlight.InFlightStore.Remove | master/monitoring/inflight.go:43-61 | completes exactly the requests that were in flight; the cut log stays an end of the full history, of 1000 to 2000 entries once there are that many |
| InFlight.InFlightStore.Recent | master/monitoring/inflight.go:80-94 | for limits 1 to 1000 the cuts never show; beyond, the answer is the end of the full history exactly when the log reaches back that far |
| Placement.GreedyMaximum | master/lib/autoscaler.go:734-762 | after k spawns by least-workers-first the fullest agent has exactly max(initial max, ceil((total+k)/n)) workers |
| Placement.GreedyIsOptimal | master/lib/autoscaler.go:734-762 | no other way of placing as many workers has a smaller fullest agent |
| Placement.GreedySpread | master/lib/autoscaler.go:734-762 | agents never drift further apart than they started, or than one worker |
| Placement.GreedyPlaces | master/lib/autoscaler.go:526-545 | k picks add k workers and take none away |
| Placement.PlacesMax | master/lib/router.go:132-144 | pigeonhole: any placement of k more workers has some agent with ceil((total+k)/n) |
| ScaleUp.Autoscaler.PickBestAgent | master/lib/autoscaler.go:734-762 | the first unpenalised agent with the fewest workers; none exactly when all are penalised or at the score ceiling |
| ScaleUp.Autoscaler.SpawnOn | master/lib/autoscaler.go:512-523 | a spawn enters the agent's health as one success or one failure at its time, and a named success as one worker more on that agent and in all |
| ScaleUp.Autoscaler.SpawnWorkerWithRetry | master/lib/autoscaler.go:768-788 | asks until the first answer that is no failure, at most three times, and succeeds exactly with such an answer; a worker is registered only if named |
| ScaleUp.Autoscaler.CoverAgents | master/lib/autoscaler.go:506-524 | tries the agents without a healthy worker in their order, no longer than until enough have succeeded; requests, workers and health history end as those spawns make them |
| ScaleUp.UncoveredAre | master/lib/autoscaler.go:506-511 | those agents are the ones with no healthy worker, each once and in order |
| ScaleUp.Autoscaler.AddToBest | master/lib/autoscaler.go:526-545 | as often as asked, unless no agent is eligible, spawns on the agent that is best at that moment, given every failure and success before; requests, workers and health history end as those spawns make them |
| ScaleUp.Autoscaler.ScaleUp | master/lib/autoscaler.go:476-554 | both passes, whatever fails and whichever penalties begin or end; nothing without agents or a positive number; the number reported is that of the spawns the replies let succeed |
| SpawnPlacement.OneOutcome | master/lib/autoscaler.go:506-545 | the agents, their replies, the clock and the health so far determine a scale-up completely: who is tried, who is picked, where it ends |
| SpawnPlacement.NeverMore | master/lib/autoscaler.go:503-545 | whatever fails, a scale-up never spawns more than it was asked for and registers at most what it spawned |
| SpawnPlacement.SuccessesAreRecorded | master/lib/autoscaler.go:512-544 | the number of spawns reported is that of the successes which enter the agents' health; every spawn enters once |
| SpawnPlacement.Conserved | master/lib/autoscaler.go:768-788 | over any spawns the total and the counts of the agents grow alike |
| SpawnPlacement.NeverAhead | master/lib/autoscaler.go:526-545 | whatever fails, an agent picked in the second pass ends at most one worker ahead of every agent that was not penalised when it was last picked |
| SpawnPlacement.PlacedSmoothly | master/lib/autoscaler.go:506-545 | when each spawn ends with a named worker, no penalty runs out meanwhile and some agent has none, exactly that many spawn: one on each uncovered agent and the rest greedily on the agents then not penalised, no other agent changing, whatever failed before |
| SpawnPlacement.SmoothExactly | master/lib/autoscaler.go:748-752 | all that this asks of the agents' health is that those penalised now are those penalised at each of the spawns |
| SpawnPlacement.PassesOver | master/lib/autoscaler.go:526-545 | a concrete cluster: the agent whose spawn failed is passed over for two workers although it has fewer than the other |
| AgentHealth.PenaltyFits | master/lib/autoscaler.go:854-859 | while base·2^(f−1) fits 63 bits the penalty is that, capped at five minutes, and positive |
| AgentHealth.DefaultPenalties | master/lib/autoscaler.go:854-859 | with 30 s: 30 s, then one, two and four minutes, and five from the fifth failure to the 29th |
| AgentHealth.PenaltyGrows | master/lib/autoscaler.go:854-859 | while it fits, more failures never lower the penalty |
| AgentHealth.PenaltyRightExactly | master/lib/autoscaler.go:854-859 | for every base, all of the first f penalties are as described exactly when base·2^(f−1) fits 63 bits |
| AgentHealth.FirstOverflow | master/lib/autoscaler.go:854-860 | the first failure whose doubled base no longer fits gives a negative penalty, that is none |
| AgentHealth.DefaultPenaltyRight | master/lib/autoscaler.go:854-859 | with 30 s all penalties up to the f-th are as described exactly for f ≤ 29; the 30th is negative, that is no penalty |
| AgentHealth.DefaultPenaltyRightAt | master/lib/autoscaler.go:854-859 | with 30 s the penalty of the f-th failure in a row is as described exactly for f ≤ 29 and f = 32, 39 to 42, 44 to 46, 50 and 52 |
| AgentHealth.DefaultPenaltyGone | master/lib/autoscaler.go:854-859 | from the 55th failure in a row on the penalty is zero |
| AgentHealth.HealthTable.RecordAgentFailure | master/lib/autoscaler.go:841-866 | counts one failure more and penalises the agent from then on at exactly the times before now plus the penalty; other agents unaffected |
| AgentHealth.HealthTable.ResetAgentFailure | master/lib/autoscaler.go:868-876 | the agent is no longer penalised at any time and starts again from zero; other agents unaffected |
| AgentHealth.HealthTable.Penalized | master/lib/autoscaler.go:748-752 | the table calls exactly those agents penalised that the history of failures and successes makes so |
| AgentHealth.PenalizedExactly | master/lib/autoscaler.go:748-866 | at any time an agent is penalised exactly if the last that happened to it was a failure and less time has passed since than the penalty for its failures after its last success |
| DrainSelection.HealthyPerAgent | master/lib/autoscaler.go:600-607 | the first pass counts the healthy workers of every agent |
| DrainSelection.CollectCandidates | master/lib/autoscaler.go:615-625 | the second pass collects the healthy workers of agents with more than one |
| DrainSelection.SelectDrainCandidatesPerAgent | master/lib/autoscaler.go:596-647 | the three passes and the sort compute `Selection` |
| DrainSelection.SelectionIs | master/lib/autoscaler.go:596-647 | min(count, candidates) distinct HEALTHY workers, none the only healthy one of its agent, none busier than a candidate left out |
| DrainSelection.SelectionExactly | master/lib/autoscaler.go:596-647 | by the workers' own fields: distinct healthy workers with another healthy one on their agent, at most as many as asked for; such a worker is left out only if that many others, none busier, are taken |
| DrainSelection.KeepsOne | master/lib/autoscaler.go:595-623 | an agent with one healthy worker, or more than the drain takes, keeps one |
| DrainSelection.KeepsOneExactly | master/lib/autoscaler.go:638-646 | an agent is sure to keep a healthy worker, whatever the loads, exactly when it has one or more than the drain takes |
| DrainSelection.FavouringEmpties | master/lib/autoscaler.go:638-646 | an idle agent among busy ones is emptied by a drain as large as it |
| Scaling.ScalesUpExactly | master/lib/autoscaler.go:392-423 | the periodic decision adds workers exactly below the cap with a backlog of at least five, or any backlog and no worker |
| Scaling.PeriodicAmount | master/lib/autoscaler.go:392-423 | the number decided: the step, or fewer if no more are due; a k-th worker is due for 5k requests in the queue (in the smoothed depth when it is empty), or as the very first one for any, within the agents' maximum |
| Scaling.TriggersExactly | master/lib/autoscaler.go:234-267 | a trigger adds workers exactly below the cap when the backlog has three requests for each worker not yet healthy and three more, or there is no worker |
| Scaling.TriggerAmount | master/lib/autoscaler.go:234-267 | likewise for a trigger: a k-th worker is due for three requests for each worker that would not be healthy, or as the very first one |
| Scaling.TriggerAsksMore | master/lib/autoscaler.go:247-262 | with all workers healthy a trigger never asks for fewer workers than the periodic decision |
| Scaling.GrowsToCap | master/lib/autoscaler.go:404-420 | a standing backlog grows the cluster by a fifth of it, or the step limit, per tick, to exactly the cap |
| Scaling.ScaleDownTimer.EvaluateScaleDown | master/lib/autoscaler.go:429-452 | answers positively exactly when some evaluation at least five seconds ago and every one since saw an empty queue, nothing in flight and more workers than the minimum; the number is the step, or what leaves the minimum |
| Scaling.SustainedExactly | master/lib/autoscaler.go:435-440 | the single timer field decides that history property, both ways |
| Scaling.Periodically | master/lib/autoscaler.go:392-423 | the periodic decision carried out by scaleUp is an allowed operation of a run; what it adds is due and within the step, and when each spawn ends with a named worker, no penalty runs out meanwhile and some agent has none, it is exactly the step or all that is due |
| Scaling.OnNoWorkers | master/lib/autoscaler.go:234-267 | so is a triggered one, with what is due for a trigger |
| Scaling.DrainAllowed | master/lib/autoscaler.go:577-585 | so is the removal of selected workers |
| Scaling.TotalStays | master/lib/autoscaler.go:200-206 | over any run of such operations, with spawns failing at will and agents coming and going, the worker total stays between the minimum and the largest cap |
| Scaling.KeepsMinimumExactly | master/lib/autoscaler.go:433-447 | one drain leaves the minimum of healthy workers exactly when all workers are healthy, or the drainable ones or the step are few enough |
| Scaling.MinimumCanFail | master/lib/autoscaler.go:433-447 | two healthy workers and one starting, minimum one: both healthy ones are drained |
| PortAllocator.DockerManager.AllocateHostPort | agent/docker.go:135-153 | the least free port from the cursor on, or with none from there on the least of all, and the cursor moves past it; none exactly when the whole range is taken, and then the cursor is back where it was |
| PortAllocator.RoundCovers | agent/docker.go:139-150 | one round of probes visits every port of the range |
| PortAllocator.ReissueAfterFullRound | agent/docker.go:140-149 | over any run a port is not issued again before every other port of the range was probed |
| WorkerQueue.PriorityQueue.Push | worker/main.py:44-46 | adds the item and nothing else |
| WorkerQueue.PriorityQueue.Pop | worker/main.py:48-52 | takes out a lexicographically least item, or nothing exactly when empty |
| WorkerQueue.Worker.Push | worker/main.py:70-87 | a handler's request is pending under the place its wire priority gives it |
| WorkerQueue.Worker.Pop | worker/main.py:90-95 | a handler always gets an item, so the empty branch is dead; it is its own exactly when that one is least |
| WorkerQueue.Worker.AllServed | worker/main.py:86-95 | when no handler is between push and pop, every request received was popped exactly once |
| WorkerQueue.Worker.RepliesCanSwap | worker/main.py:90-95 | a free request's handler can pop an elite request, so replies can reach the wrong caller |
| WorkerQueue.LeTransitive | worker/main.py:46-46 | the tuples' lexicographic order is transitive |
| WorkerQueue.LeTotal | worker/main.py:46-46 | and total, with equal tuples only when identical |
| WorkerQueue.LeExactly | worker/main.py:46-46 | which of two requests comes first: the smaller priority number, then the id that is a beginning of the other or smaller at the first difference, then the message likewise |
| WorkerQueue.TiersOnTheWire | master/lib/worker.go:310-320 | the wire keeps the tiers' order but turns free requests into pro |
| WorkerQueue.PlaceOfPriority | worker/main.py:73-81 | priorities from 1000 on come first in the heap and those below 50 last |

## Left out

- HTTP, JSON, gRPC dialling, Docker, Ollama, Chroma, the TUI, the client, logging and configuration loading.
- Floating-point rounding: samples, averages and slopes are reals.
- PickLeastConnections: the scan is one atomic step, as are the other picks, the health check's collection and the count of routable workers; in the code a load or a state can change during the scan, so the pick may no longer be least, or routable, when it is used. The same holds of the loads and states that drain selection reads.
- Registry.RemoveWorker: taking the entry out, closing the connection and asking the agent to destroy the container are one step. So are making, naming and registering a worker, and setting its lifecycle and its status.
- Registry.MarkAfterReply: any time after a successful send; that the same request marks the worker, before it does anything else, is not stated.
- Fairness of round robin: Go's map order is arbitrary per scan, and the router's read lock lets two picks race on the counter.
- Spawn agents that name a worker already registered: the scale-up model counts every named worker as new.
- Ready callbacks of workers whose spawn request was reported as failed: they can take the total past the cap.
- Bootstrap and the one-worker-per-agent path of `tick`, and the predictive prewarm: none is capped, so `TotalStays` does not cover them.
- Concurrent scaling on stale metrics: `TotalStays` is about one operation at a time, with drains completed.
- Cooldowns, hysteresis and the error-rate ceiling: the code only displays them.
- Scaling-action history, decision reasons, startup statistics, `Worker.Snapshot`, `RollingWindow.Avg`, `calculateScaleDownCount` and the older `selectDrainCandidates`: display only or unused.
- Rates and error rates sampled by `Collect`: an error can be counted in a later interval than its request, so the sampled rate has no bound.
- The waiting of drains, retries and backoffs: time passes between steps but durations are not modelled.
- Retrieval and the choice of model parameters in the worker.
- `heapq` internals: the queue is a list from which a least item is taken.
- A zero-size window (`NewRollingWindow(0)` panics on the first add), percentiles outside 0 to 100 (the code's index is then out of range) and a negative drain count (the code's slice capacity is then invalid).

Where documents and code differ, the code is modelled: `admission.go` says it
enforces a global concurrency limit (it does so only up to bursts and races);
`autoscaler.go` says a drain keeps a healthy worker on each agent (the count it
decrements is never read again) and never scales below the minimum (it compares
the minimum with all workers, not the healthy ones); `docs/arch.md` says
requests of one tier are served first in, first out (the heap orders them by
request id); the comments in `worker/main.py` give priorities 0 and 1 (the code
uses 1, 2 and 3).
