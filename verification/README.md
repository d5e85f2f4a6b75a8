# Q-Vault OS: verified models of the kernel, filesystem and vault

This project models the stateful core of Q-Vault OS in Dafny and proves what its
components are for: that no process starves under round robin or aged priorities,
when a resource unit can be lost, that every cycle of waiting processes is accounted
for and broken and when such a cycle is a deadlock, that memory blocks and frames have one
owner, that moving a directory moves exactly that directory, that an encrypted vault
behaves like a plain map, and that no message is accepted twice under the same id and
timestamp.

`dafny verify dfyconfig.toml` checks everything.

## How it is organised

| files | component |
|---|---|
| `SchedulerModel`, `SchedulerCore`, `SchedulerRoundRobin`, `SchedulerPriority`, `SchedulerAccounting`, `SchedulerShortestFirst`, `SchedulerOrder`, `SchedulerSlices` | the tick-driven CPU scheduler |
| `ResourceModel`, `ResourceConservation`, `ResourceRuns`, `ResourceHandOff`, `WaitGraph`, `DeadlockDetector`, `DeadlockRecovery`, `DeadlockVictim`, `DeadlockMeaning`, `DeadlockCore` | counted resources, deadlock detection and recovery |
| `MemoryModel`, `MemoryOwnership`, `MemoryRuns`, `MemoryCore` | the RAM allocator |
| `Mmu` | frames, page tables, translation |
| `Ipc` | the replay window of the IPC bridge |
| `PathResolver`, `VfsModel`, `VfsMoves`, `VfsFind`, `VfsPersistence`, `VfsCore` | the virtual filesystem |
| `VaultModel`, `VaultRefinement`, `VaultEntries`, `VaultVersions`, `VaultCore` | the encrypted vault store |
| `Prelude` | options, sequences, sets |

A `...Model` file gives each operation as a function on a snapshot of the state. A
`...Core` file (and the classes in `DeadlockDetector`, `Mmu` and `Ipc`) holds the
objects with their mutable fields and loops, each method proved against those
functions. The other files prove the theorems about single steps and about whole
runs, where a run is an arbitrary sequence of calls and environment events: ticks,
arrivals, deaths, requests, log-ins.

What comes from outside is a parameter: the clock, random salts and nonces, the
records of newly created directories, the shell pattern of `find`, and the order in
which a Python set or dictionary of unknown order is visited. Cryptography is
symbolic: a derived key is a term built from password and salt, a ciphertext opens
under the key it was made with, an authentication code verifies for the key,
version and map it was made from.

## What the code does, where it differs from what one expects

Each of these is a theorem below, with the exact condition or an input on which the
expectation fails, mostly both.

- `turnaround_time == waiting_time + burst_time` holds if and only if the recorded
  arrival is the enqueue tick. The spawn handler enqueues without passing a tick
  (`src/system/kernel/scheduler.py:185-199`); `UnstampedArrivalMiscountsTurnaround` is a run with such an `add_process`.
- `release_all` gives back one unit per resource. A process that was granted two
  units of one resource loses one for the whole system when it dies; a process that
  waits for more of what it holds would be handed its own unit back. A run conserves
  all units if and only if nobody dies in either situation (`RunConservesIff`,
  `DoubleRequestLosesUnit`). Deadlock recovery terminates in any case.
- A release resets the releaser to its own priority, also while it holds another
  resource that a more urgent process waits for (`ReleaseLosesInheritanceIff`,
  `InheritanceIsLost`).
- The detector looks for cycles of the wait-for graph. Every deadlock closes one,
  unless a process waits for a resource that only itself holds (`DeadlockIsFound`,
  `SelfWaiterIsNotFound`); with several units of a resource a cycle need not be a
  deadlock, and recovery then kills a process without need (`CycleWithoutDeadlock`).
  With one unit of each resource the two agree (`SingleUnitDeadlockIff`).
- `mv` sets the destination and then deletes the source, so moving something onto
  itself or below itself deletes it and reports success (`MoveCommandDeliversIff`,
  `RenameToOwnNameLosesFile`). Moving the root changes the tree and then fails
  (`FailedRootMoveChangesTree`). A file that stands on the way to the destination is
  replaced by a directory (`MoveDestroysFileOnTheWay`).
- `mv` and `cp` check the destination's parent against the protected directories, and
  for a destination at the top level the current directory instead of it; `mv` does
  not check its source. So a protected directory can be replaced by one of the same
  name, or lose entries (`CopyLeavesProtectedAloneIff`, `CopyReplacesEtc`,
  `MoveLeavesProtectedAloneIff`, `MoveTakesFromEtc`).
- The resolver's documentation treats `~` as the home directory; the code does so
  only when the whole path is `~` (`TildeIsNoPrefix`). The prompt therefore prints
  paths below home that do not lead back (`DisplayRoundTripIff`,
  `DisplayedDocumentsLeadAstray`).
- File names may contain a slash; what `find` prints for such a file does not name it
  (`SlashNameIsNotFoundAgain`).
- `allocate` with a size below one can succeed and then breaks the block list
  (`NothingIsAllocated`).
- The vault does not check the password when it is unlocked; the first write fixes
  it, and a wrong one is noticed at the next read. A vault without a file reads as
  empty, whatever version was stored last, so a removed file is not noticed
  (`RemovalGoesUnnoticed`); an older file is (`OldFileIsRefusedIff`).
- The 10 s for which message ids are remembered are exactly twice the 5 s freshness
  window: any shorter lifetime would admit replays. The signature covers the payload
  alone, so a payload under a new id and timestamp is a new message
  (`OnePayloadAcceptedTwice`).

## Model

| member | source | states |
|---|---|---|
| SchedulerShortestFirst.ShortestJobFirstIsOptimal | src/system/kernel/scheduler.py:244-329 | a batch of processes with positive bursts that are all enqueued before the first tick is drained by SJF, tick by tick, with a total waiting time no larger than that of the machine that runs the same batch non-preemptively in any other order |
| SchedulerShortestFirst.BatchFollowsPlan | src/system/kernel/scheduler.py:323-329 | an idle non-preemptive machine given a batch completes all of it in the planned order; each process waits one tick plus the bursts of those run before it |
| SchedulerShortestFirst.ShortestFirstIsCheapest | src/system/kernel/scheduler.py:369-375 | over all permutations of a batch, always taking a shortest process first costs least (exchange argument) |
| SchedulerShortestFirst.ShortestToFront | src/system/kernel/scheduler.py:369-375 | moving a shortest process to the front of any order never raises the total waiting time |
| SchedulerShortestFirst.FindShortest | src/system/kernel/scheduler.py:369-375 | the process SJF picks occurs in every order of the batch and nobody in it is shorter |
| SchedulerShortestFirst.DrainFollowsPlan | src/system/kernel/scheduler.py:255-273 | a running process and the batch behind it complete in exactly the remaining ticks, with the planned waiting times |
| SchedulerShortestFirst.ArrangedIsRunInOrder | src/system/kernel/scheduler.py:365-368 | arrivals can be stamped so that FCFS runs a batch in any chosen order, so the comparison really ranges over all orders |
| SchedulerRoundRobin.BoundedWaiting | src/system/kernel/scheduler.py:275-288 | round robin with quantum Q: the process at index k of the queue is on the CPU within (k+1)*Q ticks, whatever arrives or is removed in the meantime; when no pid is shared it is that process itself, with all the work it had |
| SchedulerRoundRobin.TickMakesProgress | src/system/kernel/scheduler.py:323-329 | one tick either dispatches the waiting process or brings its bound closer by at least one |
| SchedulerRoundRobin.EventKeepsPlace | src/system/kernel/scheduler.py:133-163 | arrivals and removals of others never move a waiting process further from the CPU |
| SchedulerSlices.LeavesAfterQuantum | src/system/kernel/scheduler.py:275-288 | round robin: a dispatched process with more work than a quantum, whose budget covers the quantum, keeps the CPU for exactly that many ticks, whatever arrives or is removed meanwhile; then the head of the queue runs and it stands at the end, or it starts a new slice when nobody else is ready |
| SchedulerSlices.KeepsCpu | src/system/kernel/scheduler.py:255-288 | while its slice lasts, and without limit under FCFS and SJF, a process with work and budget left keeps the CPU, one tick less to do for each tick |
| SchedulerSlices.PriorityPreemptsIff | src/system/kernel/scheduler.py:290-294 | priority scheduling: a process with work and budget left keeps the CPU over a tick if and only if no ready process has aged to a higher priority; otherwise it goes to the end of the queue and one of the most urgent runs |
| SchedulerSlices.WatchdogStrikes | src/system/kernel/scheduler.py:296-320 | without preemption a process with more work than budget is named by the watchdog on the first tick that exceeds its budget and on no earlier one, and the CPU is handed on |
| SchedulerSlices.WatchdogNamesIff | src/system/kernel/scheduler.py:296-320 | on any tick, under any algorithm, the watchdog names the running process if and only if its executed ticks then exceed a positive budget |
| SchedulerPriority.AgingPreventsStarvation | src/system/kernel/scheduler.py:226-242 | priority scheduling with aging: from any priority p a ready process is on the CPU within 20*(10-p) ticks plus the work of the processes that arrived no later plus one longest remaining time; when no pid is shared it is that process itself |
| SchedulerPriority.TopPriorityIsDispatched | src/system/kernel/scheduler.py:290-294 | the pid of a ready process at priority 10 is on the CPU within the running process's remaining time plus that of the ready processes that come before it |
| SchedulerPriority.TopPriorityItselfIsDispatched | src/system/kernel/scheduler.py:290-294 | the same for the process itself, when no pid is shared |
| SchedulerModel.ReachesCpuItself | src/system/kernel/scheduler.py:201-224 | when nobody else has or takes a waiting process's pid, whoever reaches the CPU under it is that process, with the work it had |
| SchedulerPriority.ChosenComesBefore | src/system/kernel/scheduler.py:381-386 | whoever is dispatched instead of a top-priority process arrived earlier, or no later and stands ahead of it |
| SchedulerPriority.TickMakesProgress | src/system/kernel/scheduler.py:244-329 | one tick dispatches the process, or brings it one tick closer to the top priority and, once there, to the end of its backlog |
| SchedulerPriority.RunsWithoutPreemption | src/system/kernel/scheduler.py:290-294 | a process dispatched at the top priority is not preempted: after n ticks it is still running with n ticks less to do |
| SchedulerPriority.CompletesOnTime | src/system/kernel/scheduler.py:265-273 | ... and it completes in exactly as many ticks as it had remaining, with the turnaround time the clock implies |
| SchedulerAccounting.EveryTickIsAccountedFor | src/system/kernel/scheduler.py:432-438 | in every reachable state each process has spent every tick since it was enqueued either waiting or executing, its remaining time is its burst less the executed ticks, and its priority is min(10, p0 + waiting/20) |
| SchedulerAccounting.TurnaroundIsWaitingPlusBurst | src/system/kernel/scheduler.py:265-267 | the turnaround time recorded at completion equals waiting time plus burst time if and only if the recorded arrival is the tick of the enqueueing |
| SchedulerAccounting.UnstampedArrivalMiscountsTurnaround | src/system/kernel/scheduler.py:133-146 | a run in which the equality fails: a process enqueued without a tick after the first one waits one tick and runs one, and is recorded with a turnaround of three |
| SchedulerAccounting.NobodyIsLost | src/system/kernel/scheduler.py:133-224 | in every run, whoever was enqueued is queued or running, or has completed, or was removed or killed |
| SchedulerAccounting.RunKeepsInv | src/system/kernel/scheduler.py:201-224 | the accounting invariant survives every event of every legal run |
| SchedulerModel.SelectedIsBest | src/system/kernel/scheduler.py:360-392 | nobody in the queue has a better key than the selected process and whoever stands ahead of it has a strictly worse one; round robin, and an unknown algorithm, take the head |
| SchedulerOrder.FirstComeIsSelected | src/system/kernel/scheduler.py:365-367 | FCFS in fields: nobody in the queue has a smaller (arrival, pid), and of equal ones the first is taken |
| SchedulerOrder.ShortestIsSelected | src/system/kernel/scheduler.py:369-375 | SJF in fields: shortest burst, an unknown burst after every known one, then earliest arrival, then place in the queue |
| SchedulerOrder.HighestPriorityIsSelected | src/system/kernel/scheduler.py:381-386 | PRIO in fields: highest priority, then earliest arrival, then place in the queue |
| SchedulerOrder.FirstComeCompletesFirst | src/system/kernel/scheduler.py:365-367 | an idle first-come machine completes a batch in the order of arrival, processes of one tick in the order of their pids |
| SchedulerOrder.SameTickCompletesByPid | src/system/kernel/scheduler.py:185-199 | in particular processes enqueued on one tick, as the spawn handler's with arrival 0, complete in increasing pid order |
| SchedulerOrder.DrainOrderFollowsArrival | src/system/kernel/scheduler.py:365-367 | of a batch with distinct pids the first-come rule dispatches whoever came first first |
| SchedulerModel.TickMembers | src/system/kernel/scheduler.py:201-224 | whoever is in the system after a tick waited for it or executed for it, no pid is doubled, and whoever was in the system before it is still there with that record, or has finished, or was handed to the watchdog |
| SchedulerModel.IdleOnlyWhenEmpty | src/system/kernel/scheduler.py:323-329 | after a tick the CPU is idle only if nothing is ready |
| SchedulerModel.ReachesCpuIsAPrefix | src/system/kernel/scheduler.py:201-224 | reaching the CPU in a run means that some prefix of the run ends with the process running |
| SchedulerModel.DropFacts | src/system/kernel/scheduler.py:148-163 | removal by pid takes out exactly the processes of that pid |
| SchedulerCore.Scheduler.OnTick | src/system/kernel/scheduler.py:201-224 | the imperative tick (waiting times, aging, one scheduling decision) refines the function `Tick`; the completed and the killed process are reported |
| SchedulerCore.Scheduler.Schedule | src/system/kernel/scheduler.py:244-329 | one scheduling decision on the mutable queue and process records refines advance-then-dispatch |
| SchedulerCore.Scheduler.Execute | src/system/kernel/scheduler.py:255-320 | the four fates of the running process: stays, finishes, is requeued, is killed by the budget watchdog |
| SchedulerCore.Scheduler.MustLeave | src/system/kernel/scheduler.py:275-294 | the running process leaves on quantum expiry or when outranked, and only then |
| SchedulerCore.Scheduler.BestPriority | src/system/kernel/scheduler.py:292-292 | the maximum priority of the ready queue |
| SchedulerCore.Scheduler.SelectNext | src/system/kernel/scheduler.py:360-392 | the search loop over the process records ends at the process the algorithm prescribes, stated in arrival, burst, priority and pid, ties by the place in the queue |
| SchedulerCore.Scheduler.ApplyAging | src/system/kernel/scheduler.py:226-242 | boosts exactly the ready processes whose waiting time is a positive multiple of 20, up to 10 |
| SchedulerCore.Scheduler.TickWaitingProcesses | src/system/kernel/scheduler.py:432-438 | adds one waiting tick to each ready process and touches nothing else |
| SchedulerCore.Scheduler.Preempt | src/system/kernel/scheduler.py:394-430 | takes the running process off the CPU, at the end of the queue or not at all |
| SchedulerCore.Scheduler.AddProcess | src/system/kernel/scheduler.py:133-146 | appends to the queue; an arrival of 0 becomes the given tick, any other is kept; the process is then in the system once exactly when it was not there before |
| SchedulerCore.Scheduler.RemoveProcess | src/system/kernel/scheduler.py:148-163 | frees the CPU of the process, starting the slice anew, or takes exactly the processes of that pid out of the queue; reports whether there was one |
| SchedulerCore.Scheduler.UpdateQuantum | src/system/kernel/scheduler.py:82-87 | stores exactly positive quanta |
| SchedulerCore.Scheduler.UpdateAlgorithm | src/system/kernel/scheduler.py:89-105 | stores exactly the four algorithms and starts the slice anew |
| DeadlockDetector.FindCycles | src/system/kernel/_deadlock_detector.py:22-56 | the reported lists are simple cycles of at least two nodes, no two with the same nodes, and every cycle of the graph contains the closing edge of one of them: opening the reported cycles at that edge leaves no cycle; the recursive search terminates |
| WaitGraph.ReportedIffCyclic | src/system/kernel/_deadlock_detector.py:22-56 | in particular something is reported if and only if the graph has a cycle |
| WaitGraph.LoneCycleIsReported | src/system/kernel/_deadlock_detector.py:43-48 | a cycle that shares no process with a different one is itself reported, so separate deadlocks are all reported |
| WaitGraph.CoveredTogetherMeet | src/system/kernel/_deadlock_detector.py:43-48 | one reported list never accounts for two disjoint cycles |
| WaitGraph.SameNodesSameList | src/system/kernel/_deadlock_detector.py:46-48 | two lists in the order of the visits that have the same nodes are the same list, so the test for known node sets loses nothing |
| DeadlockDetector.Search.Visit | src/system/kernel/_deadlock_detector.py:37-51 | the recursive depth-first visit keeps the stack a path, terminates on the unvisited nodes, and finishes every node it enters with each of its edges leading to a finished node or closing a reported list |
| DeadlockDetector.Search.ReportCycle | src/system/kernel/_deadlock_detector.py:43-48 | a neighbour on the recursion stack closes a simple cycle; afterwards that very edge closes a reported list |
| WaitGraph.NumberedIsAcyclic | src/system/kernel/_deadlock_detector.py:37-51 | a graph whose nodes finish in an order against the edges has no cycle, simple or not |
| WaitGraph.PathDescends | src/system/kernel/_deadlock_detector.py:37-51 | along every path the finishing numbers never rise |
| DeadlockRecovery.EdgesAreWaits | src/system/kernel/_deadlock_detector.py:22-30 | an edge of the wait-for graph is a waiter and another holder of one resource |
| DeadlockRecovery.VictimIsLowest | src/system/kernel/_deadlock_resolver.py:24-29 | every cycle has exactly one victim: the process of the lowest priority, 5 if it has none, and the highest pid among equals |
| DeadlockRecovery.VictimLeaves | src/system/kernel/_deadlock_resolver.py:25-31 | from every state in which nobody stands twice in one queue: after recovery the victim waits for nothing, nobody starts to wait, and nobody enters the graph, although units may have been handed on |
| DeadlockRecovery.EveryRunQueuesOnce | src/system/kernel/deadlock_manager.py:58-126 | that holds in every state of every run, repeated requests included |
| DeadlockVictim.VictimLeavesTablesIff | src/system/kernel/_deadlock_resolver.py:25-31 | in any state: the victim appears in no holder or waiter list any more if and only if each resource that lists it as a holder counts at most one unit for it and does not hand that unit straight back to it |
| DeadlockVictim.EveryRunListsOnce | src/system/kernel/deadlock_manager.py:58-126 | nobody stands twice in a holder list or a queue, in every state of every run |
| DeadlockVictim.LostUnitKeepsItsHolder | src/system/kernel/deadlock_manager.py:117-126 | a reachable state in which the victim stays listed: its unit was lost by an earlier death |
| DeadlockRecovery.ConservedVictimLeavesIff | src/system/kernel/_deadlock_resolver.py:25-31 | while all units are accounted for, the victim leaves all lists if and only if it held one unit of each of its resources and headed the queue of none of them |
| DeadlockMeaning.StuckForever | src/system/kernel/deadlock_manager.py:72-126 | a deadlock, a set of processes each waiting for a resource without a free unit held only inside the set, stays one in every run in which none of its processes gives something back or dies |
| DeadlockMeaning.DeadlockIsFound | src/system/kernel/_deadlock_detector.py:22-56 | every deadlock is a cycle of the wait-for graph, unless one of its processes waits for a resource that only itself holds |
| DeadlockMeaning.SelfWaiterIsNotFound | src/system/kernel/_deadlock_detector.py:27-27 | a reachable deadlock that is no cycle: one process that requests the one unit it holds |
| DeadlockMeaning.CycleIsDeadlock | src/system/kernel/_deadlock_detector.py:22-56 | with one unit of each resource the processes of any cycle are a deadlock |
| DeadlockMeaning.SingleUnitDeadlockIff | src/system/kernel/_deadlock_detector.py:22-56 | with one unit of each resource and no repeated requests there is a cycle if and only if there is a deadlock |
| DeadlockMeaning.CycleWithoutDeadlock | src/system/kernel/_deadlock_detector.py:22-56 | with two units there can be a cycle while no set of processes is deadlocked |
| DeadlockMeaning.ClosedSetIsCyclic | src/system/kernel/_deadlock_detector.py:37-51 | a path inside a set in which everybody has a successor grows until it closes a cycle |
| DeadlockRecovery.DisciplinedVictimLeaves | src/system/kernel/_deadlock_resolver.py:25-31 | in runs without repeated requests it always leaves both |
| DeadlockRecovery.VictimIsOnNoCycle | src/system/kernel/_deadlock_resolver.py:25-31 | no cycle through the victim is left, however its resources came to be held |
| DeadlockRecovery.SecondReleaseAllIsIdle | src/system/kernel/deadlock_manager.py:51-56 | the death event that follows the kill changes nothing more, again from any such state |
| DeadlockRecovery.RoundShrinks | src/system/kernel/deadlock_manager.py:138-140 | a round of `auto_resolve` that finds a cycle strictly shrinks the set of waiting processes and adds nobody to the graph; one that finds none changes nothing |
| DeadlockRecovery.RoundBreaksLoneCycles | src/system/kernel/deadlock_manager.py:138-140 | one round takes a process out of every cycle that shares no process with a different one |
| DeadlockRecovery.DisciplinedRoundShrinks | src/system/kernel/deadlock_manager.py:138-140 | in runs without repeated requests it strictly shrinks the set of all processes in the graph |
| DeadlockRecovery.RecoveryTerminates | src/system/kernel/deadlock_manager.py:138-140 | as many rounds as there are waiting processes, without new requests, always end without a cycle |
| DeadlockRecovery.RecoveryTerminatesAfterAnyRun | src/system/kernel/deadlock_manager.py:58-140 | in particular from every state the manager can get into, repeated requests included |
| DeadlockCore.DeadlockManager.AutoResolve | src/system/kernel/deadlock_manager.py:138-140 | detects and resolves every reported cycle on the mutable tables: one `Round` |
| DeadlockCore.DeadlockManager.ResolveDeadlock | src/system/kernel/_deadlock_resolver.py:16-31 | chooses the victim and releases everything it has; an empty cycle is left alone |
| DeadlockCore.DeadlockManager.ChooseVictim | src/system/kernel/_deadlock_resolver.py:25-27 | the process of the cycle with the lowest effective priority, the highest pid among equals |
| DeadlockCore.DeadlockManager.Detect | src/system/kernel/deadlock_manager.py:130-132 | a report on the current wait-for graph: simple cycles that together account for every cycle |
| DeadlockCore.DeadlockManager.BuildWaitFor | src/system/kernel/_deadlock_detector.py:22-30 | the graph built by the nested loops over resources, waiters and holders is the wait-for graph |
| DeadlockCore.AddEdges | src/system/kernel/_deadlock_detector.py:24-30 | one resource adds an edge from each waiter to each other holder and no other edge |
| DeadlockCore.SameEdgesSameGraph | src/system/kernel/_deadlock_detector.py:22-30 | a graph without empty entries is determined by its edges, so the loop order does not matter |
| DeadlockCore.DeadlockManager.Ask | src/system/kernel/deadlock_manager.py:72-93 | a request takes a free unit or joins the queue once and lets the holders inherit; an unknown resource is refused |
| DeadlockCore.DeadlockManager.RaiseHolders | src/system/kernel/deadlock_manager.py:88-92 | priority inheritance over the holders |
| DeadlockCore.DeadlockManager.ReleaseOne | src/system/kernel/deadlock_manager.py:95-115 | gives back one unit; a waiter, if there is one, gets it at once |
| DeadlockCore.DeadlockManager.ReleaseEverything | src/system/kernel/deadlock_manager.py:117-126 | one unit of each held resource is released, then the process leaves all queues and tables |
| DeadlockCore.DeadlockManager.Add | src/system/kernel/deadlock_manager.py:58-62 | a new resource starts with all its units available; a known one stays as it is |
| DeadlockCore.DeadlockManager.Remove | src/system/kernel/deadlock_manager.py:64-70 | a resource is removed exactly when nobody holds or waits for it |
| ResourceRuns.EveryRunConserves | src/system/kernel/deadlock_manager.py:72-126 | in every run in which processes request only what they do not hold, for each resource available plus held counts is the total, holders and counts agree, nobody waits for a free unit, nobody holds and waits, and no effective priority is below its base |
| ResourceRuns.RunConservesIff | src/system/kernel/deadlock_manager.py:58-126 | a run with any requests whatever keeps every unit accounted for in all its states if and only if whoever dies holds one unit of each of its resources then and heads the queue of none of them |
| ResourceRuns.AlwaysMeansEveryPrefix | src/system/kernel/deadlock_manager.py:58-126 | all its states are the states after each prefix |
| ResourceRuns.ReleaseAllConservesIff | src/system/kernel/deadlock_manager.py:117-126 | `release_all` keeps all units accounted for if and only if the process holds one unit of each of its resources and is not first in the queue of one of them |
| ResourceConservation.EraseConservesIff | src/system/kernel/deadlock_manager.py:95-126 | the same for one resource: conservation after the release and removal of a process, exactly characterised |
| ResourceRuns.DoubleHolderIsReachable | src/system/kernel/deadlock_manager.py:72-86 | two requests for the same resource make a process hold two units |
| ResourceRuns.DoubleRequestLosesUnit | src/system/kernel/deadlock_manager.py:117-126 | ... and when it dies one of the two is lost for good: the concrete input on which conservation fails |
| ResourceRuns.DisciplinedIsClean | src/system/kernel/deadlock_manager.py:117-126 | in runs without double requests every process is a clean holder, so the failing case cannot occur |
| ResourceRuns.EverythingHeldIsFreed | src/system/kernel/deadlock_manager.py:117-123 | `release_all` frees a unit of every resource the process holds and of no other |
| ResourceRuns.RequestKeepsInv | src/system/kernel/deadlock_manager.py:72-93 | a request keeps every resource conserved, including one for a resource already held |
| ResourceRuns.ReleaseKeepsInv | src/system/kernel/deadlock_manager.py:95-115 | a release with its hand-off keeps every resource conserved |
| ResourceRuns.HoldersInherit | src/system/kernel/deadlock_manager.py:88-92 | exactly the holders are lifted, to the waiter's priority and not beyond |
| ResourceRuns.NoInversionAfterBlocking | src/system/kernel/deadlock_manager.py:87-93 | a request that has to wait leaves no holder below the requester's own effective priority |
| ResourceRuns.FirstRequestFixesBase | src/system/kernel/deadlock_manager.py:76-78 | the first request of a process for a known resource fixes the process's own priority until it dies, whatever it asks for later |
| ResourceRuns.ReleaseRestoresPriority | src/system/kernel/deadlock_manager.py:104-105 | a release puts the releaser back to its own priority and changes nobody else's |
| ResourceRuns.ReleaseLosesInheritanceIff | src/system/kernel/deadlock_manager.py:104-105 | ... so a process that still holds another resource is afterwards below a process waiting for that one if and only if its own priority is |
| ResourceRuns.InheritanceIsLost | src/system/kernel/deadlock_manager.py:95-115 | a run in which it is: 1 holds two locks, 2 waits for one with priority 9, 1 releases the other |
| ResourceRuns.TwoLocksIsReachable | src/system/kernel/deadlock_manager.py:72-86 | the state it starts from is reachable |
| ResourceConservation.GiveAndPassConserves | src/system/kernel/deadlock_manager.py:95-115 | a unit given back is passed on or becomes available; who still counts as a holder is stated exactly |
| ResourceConservation.TakeFreeUnit | src/system/kernel/deadlock_manager.py:80-86 | taking a free unit conserves the total |
| ResourceHandOff.WaiterMovesUpInRun | src/system/kernel/deadlock_manager.py:95-126 | over a whole run that loses no unit a waiter at position k is at position k minus the number of units freed since, unless someone ahead of it or itself was removed |
| ResourceHandOff.HandOffIsFifo | src/system/kernel/deadlock_manager.py:107-114 | so it becomes a holder with exactly the (k+1)-th freed unit |
| ResourceHandOff.WaiterMovesUp | src/system/kernel/deadlock_manager.py:95-126 | one event moves a waiter up by exactly the units it frees |
| MemoryRuns.EveryRunIsSound | src/system/kernel/memory_manager.py:53-140 | in every reachable state the blocks tile [0,total) with positive sizes, no two free blocks touch, each pid uses at most a quarter of the memory, and no secure block is allocated while the secure region is locked |
| MemoryRuns.SecureGrantIff | src/system/kernel/memory_manager.py:38-102 | after any run from the start a secure request is granted if and only if the vault was unlocked and not locked since, the pid stays within a quarter of the memory, and a free block is large enough |
| MemoryRuns.GateFollowsEvents | src/system/kernel/memory_manager.py:53-72 | the secure gate is open exactly after an unlock with no lock since, whatever else happens |
| MemoryRuns.EveryRunBlanksHoles | src/system/kernel/memory_manager.py:65-130 | in every reachable state a free block carries neither label nor secure flag of its former owner |
| MemoryRuns.CompactionKeepsOrder | src/system/kernel/_memory_compactor.py:24-43 | compaction keeps the allocated blocks (pid, size, label, secure flag) in order, keeps the free total and every usage, and leaves at most one hole, at the end |
| MemoryRuns.CompactionDefragments | src/system/kernel/_memory_compactor.py:24-43 | after compaction a request succeeds under every policy if and only if quota and secure gate permit it and it is no larger than the total free size |
| MemoryRuns.InitIsSoundIff | src/system/kernel/memory_manager.py:38-40 | the initial block list is sound if and only if the total is positive |
| MemoryOwnership.AllocateSucceedsIff | src/system/kernel/memory_manager.py:92-121 | allocation succeeds if and only if the pid stays within a quarter of the memory, a secure request meets an open gate, and some free block is large enough; a refused request changes nothing |
| MemoryOwnership.AllocateTakesExactly | src/system/kernel/memory_manager.py:105-121 | exactly the returned addresses change owner and secrecy: they were free and now belong to the pid, secret exactly if the request was secure; the returned block carries the requested pid, size, label and flag |
| MemoryOwnership.AllocateKeepsInvIff | src/system/kernel/memory_manager.py:92-121 | a successful allocation keeps the block list sound if and only if the size is positive |
| MemoryRuns.NothingIsAllocated | src/system/kernel/memory_manager.py:92-121 | the input on which it fails: on every fresh memory and under every policy a request for size 0 is granted and puts a block of size zero into the list |
| MemoryOwnership.DeallocateFreesExactly | src/system/kernel/memory_manager.py:123-136 | deallocation frees exactly the addresses the pid owned and nobody else's |
| MemoryOwnership.LockFreesExactly | src/system/kernel/memory_manager.py:59-72 | locking closes the gate and frees exactly the addresses of secure blocks |
| MemoryOwnership.LockTakesBackSecrets | src/system/kernel/memory_manager.py:59-121 | what was allocated is taken back by the next lock if and only if it was allocated as secure |
| MemoryOwnership.FindFreeFollowsPolicy | src/system/kernel/_memory_allocator.py:18-39 | a block is found if and only if one is large enough, and it is the one first-fit, best-fit or worst-fit prescribes, the first among equals |
| MemoryOwnership.ChosenBySize | src/system/kernel/_memory_allocator.py:18-39 | in sizes: first-fit takes the first sufficient free block, best-fit the first smallest, worst-fit the first largest |
| MemoryOwnership.CoalesceKeeps | src/system/kernel/_memory_allocator.py:42-66 | coalescing changes no address's owner, no usage, no free total and no secure address |
| MemoryOwnership.CoalesceMerges | src/system/kernel/_memory_allocator.py:42-66 | ... and leaves no two adjacent free blocks |
| MemoryOwnership.FreeOwnedKeeps | src/system/kernel/memory_manager.py:123-136 | releasing the blocks of a pid keeps the tiling and everybody else's addresses |
| MemoryOwnership.FreeSecretKeeps | src/system/kernel/memory_manager.py:59-72 | releasing the secure blocks keeps the tiling and the other addresses |
| MemoryRuns.PackedKeeps | src/system/kernel/_memory_compactor.py:24-43 | re-placing the allocated blocks back to back tiles their total size and keeps their order |
| MemoryRuns.StepKeepsInv | src/system/kernel/memory_manager.py:53-140 | each operation keeps the allocator invariant |
| MemoryCore.MemoryManager.FindFreeBlock | src/system/kernel/_memory_allocator.py:18-39 | the search loop returns the block the policy prescribes |
| MemoryCore.MemoryManager.Request | src/system/kernel/memory_manager.py:92-121 | allocation on the mutable block list; the returned block is new and in the list |
| MemoryCore.MemoryManager.ReleaseAll | src/system/kernel/memory_manager.py:123-136 | deallocation in place, reporting the freed size |
| MemoryCore.MemoryManager.CoalesceBlocks | src/system/kernel/_memory_allocator.py:42-66 | the in-place while loop with removal refines the recursive merge |
| MemoryCore.MemoryManager.CompactBlocks | src/system/kernel/_memory_compactor.py:16-51 | compaction in place, reporting the size of the holes |
| MemoryCore.MemoryManager.Pack | src/system/kernel/_memory_compactor.py:28-33 | the cursor loop gives every allocated block its new place |
| MemoryCore.MemoryManager.LockSecureRegions | src/system/kernel/memory_manager.py:59-72 | locking in place |
| MemoryCore.MemoryManager.UnlockSecureRegions | src/system/kernel/memory_manager.py:53-57 | unlocking in place |
| Mmu.TranslationIsInjective | src/system/kernel/mmu.py:47-61 | over all runs of allocating and freeing frames, two (process, logical address) pairs never translate to the same physical address, and translations stay inside the memory |
| Mmu.EveryRunIsolates | src/system/kernel/mmu.py:67-81 | in every reachable state each mapped frame belongs to the process it is mapped for and no frame is mapped twice, also after repeated allocation by one pid |
| Mmu.MapPageIsolatesIff | src/system/kernel/mmu.py:38-45 | a direct `map` keeps the isolation if and only if the frame exists and no other page is mapped to it |
| Mmu.FreeReturnsEverything | src/system/kernel/mmu.py:77-81 | `free_frames` makes the free list longer by exactly the frames the process owned, mapped or not, and takes nothing from another process |
| Mmu.FreedFramesCanBeTakenIff | src/system/kernel/mmu.py:67-81 | afterwards a request is met if and only if it asks for no more than the free frames and the process's own together |
| Mmu.FreeUndoesAllocation | src/system/kernel/mmu.py:67-81 | freeing after any allocation equals freeing without it |
| Mmu.AllocationIsContiguous | src/system/kernel/mmu.py:67-75 | a successful allocation maps pages 0 .. n-1, each to a formerly free frame of its own |
| Mmu.AllocationIsAllOrNothing | src/system/kernel/mmu.py:67-75 | a request for more frames than are free changes nothing and returns the empty list; any other takes exactly as many as it asks for, the lowest free ones, from nobody (a negative count: all but that many) |
| Mmu.AllocatedAddressesTranslate | src/system/kernel/mmu.py:47-61 | the addresses of the allocated pages translate to the same offsets of the frames taken |
| Mmu.FreeBelowFacts | src/system/kernel/mmu.py:69-69 | the free list holds exactly the unowned frames, in order |
| Mmu.Unit.Allocate | src/system/kernel/mmu.py:67-75 | the loop over the free frames refines `AllocateFrames` |
| Mmu.Unit.TranslateAddress | src/system/kernel/mmu.py:47-61 | the method computes the translation function and changes nothing |
| Ipc.ReplayFreeIff | src/system/runtime/ipc.py:105-152 | no packet (same id and timestamp) is ever accepted twice, over any run with a non-decreasing clock, if and only if ids are remembered at least twice as long as a packet is fresh |
| Ipc.ShippedWindowIsReplayFree | src/system/runtime/ipc.py:114-133 | the shipped 5 s and 10 s meet that bound, and any shorter lifetime would not |
| Ipc.LongEnoughLifetime | src/system/runtime/ipc.py:114-133 | with a sufficient lifetime two accepted packets of a run are never the same packet |
| Ipc.ShortLifetimeIsReplayable | src/system/runtime/ipc.py:114-133 | with a shorter one there is a run that accepts a packet twice |
| Ipc.PayloadIsAcceptedAgainIff | src/system/runtime/ipc.py:29-42 | the signature covers the payload only: an accepted payload that comes again under another stamp is accepted if and only if its timestamp is fresh, its id is not remembered, and there is room |
| Ipc.OnePayloadAcceptedTwice | src/system/runtime/ipc.py:105-152 | a run in which it is |
| Ipc.AcceptedByHistory | src/system/runtime/ipc.py:105-152 | a packet is accepted if and only if its timestamp is within the freshness on either side of the clock, its payload is an object whose signature was made from that payload with the secret, its id is not among the unexpired registrations of the whole history, and fewer than the capacity are unexpired |
| Ipc.RegisteredByHistory | src/system/runtime/ipc.py:112-133 | an id is registered under the same conditions but those on payload and signature |
| Ipc.ForgeryIsRefused | src/system/runtime/ipc.py:135-138 | in no run is a packet accepted whose signature is missing, is made up, or was made from another payload or with another secret |
| Ipc.RememberedIsHistory | src/system/runtime/ipc.py:99-103 | the id map after cleaning is exactly the history of unexpired registrations |
| Ipc.StaysRemembered | src/system/runtime/ipc.py:99-133 | a registered id stays in the map until it expires |
| Ipc.NeverOverCapacity | src/system/runtime/ipc.py:129-133 | the id map never exceeds its capacity |
| Ipc.Bridge.GetMessage | src/system/runtime/ipc.py:105-152 | the method takes one packet, updates the id map, and delivers exactly the accepted packets; a delivered one is an object signed with the secret, its timestamp within 5 s |
| Ipc.Bridge.CleanupSeenIds | src/system/runtime/ipc.py:99-103 | deletes exactly the expired ids |
| Ipc.Bridge.Enqueue | src/system/runtime/ipc.py:85-91 | the listener drops what does not fit the queue |
| PathResolver.ResolveIsClean | src/core/_path_resolver.py:72-94 | whatever the path, resolving it from a clean directory gives clean segments |
| PathResolver.ResolveInvertsPwd | src/core/_path_resolver.py:136-147 | the printed form of a clean path resolves to it from anywhere |
| PathResolver.ResolveInvertsPwdIff | src/core/_path_resolver.py:136-147 | ... and of no other path |
| PathResolver.ResolveComposes | src/core/_path_resolver.py:72-94 | resolving a joined path is resolving its parts one after the other |
| PathResolver.SingleSegments | src/core/_path_resolver.py:60-94 | `..` goes one directory up and stays at the root, `.` and the empty path stay, any other name but `~` goes down |
| PathResolver.LaterSegments | src/core/_path_resolver.py:76-94 | behind a path a name goes down, a name followed by `..` comes back, and `/` or `/.` changes nothing |
| PathResolver.UpsGoUp | src/core/_path_resolver.py:87-89 | k times `..` leads k directories up and no further than to the root |
| PathResolver.TildeIsNoPrefix | src/core/_path_resolver.py:72-73 | `~` stands for the home directory only as the whole path: `~/x` names a directory called `~` |
| PathResolver.DisplayRoundTripIff | src/core/_path_resolver.py:149-170 | the prompt's abbreviated path leads back to the directory if and only if the directory is not strictly below home |
| PathResolver.DisplayedPath | src/core/_path_resolver.py:149-170 | the prompt shows home as `~`, what lies below it behind `~/`, and every other directory in full |
| PathResolver.DisplayedDocumentsLeadAstray | src/core/_path_resolver.py:149-170 | a directory below home whose displayed path names something else |
| PathResolver.PrefixMeansUnderHome | src/core/_path_resolver.py:163-170 | the text prefix test of the prompt holds exactly for directories strictly below home |
| PathResolver.SplitConcat | src/core/_path_resolver.py:76-82 | splitting a joined text splits its two halves |
| PathResolver.SplitJoin | src/core/_path_resolver.py:136-147 | splitting inverts joining for segments without a slash |
| PathResolver.ResolvePath | src/core/_path_resolver.py:72-94 | the loop over the segments computes `Resolve` |
| VfsMoves.MoveLands | src/core/filesystem.py:771-802 | `mv` under a new name or into an existing directory, to any place apart from the source: the destination holds exactly the old subtree, the source is absent, every other path apart from both is unchanged (but for the records of created directories); refused exactly when the destination's parent, or for a top-level destination the current directory, is protected |
| VfsMoves.CopyLands | src/core/filesystem.py:733-769 | `cp` likewise: the destination holds exactly the source subtree and every path apart from it, the source included, is unchanged (but for the records of created directories); which error is reported otherwise |
| VfsMoves.CommandsDecide | src/core/filesystem.py:748-800 | how both commands end: NotFound without a source, IsADirectory for `cp` of a directory without `-r`, Denied if and only if the destination's directory, or for a top-level destination the current directory, lies in `proc` or, for anyone but root, in `etc`, `bin`, `dev` or `var` |
| VfsModel.BytesAreLengthIff | src/core/filesystem.py:85-87 | a file's size is its length if and only if its text is ASCII, and never more than four times that |
| VfsModel.Utf8LengthIsShortest | src/core/filesystem.py:85-87 | a character counts as many octets as the shortest sequence that decodes to it (RFC 3629, section 3) |
| VfsMoves.MoveFrame | src/core/filesystem.py:800-801 | set-then-delete at prefix-incomparable paths, whether or not the destination's directory exists: destination, source and frame |
| VfsMoves.MoveReplacesFilesOnTheWay | src/core/filesystem.py:1008-1011 | every place on the way to the destination is a directory afterwards, also where a file stood |
| VfsMoves.MoveDestroysFileOnTheWay | src/core/filesystem.py:1008-1011 | a call that destroys a file on the way and reports success |
| VfsMoves.MoveCommandDeliversIff | src/core/filesystem.py:788-801 | the resolved destination of a successful `mv` holds the source subtree if and only if it is not at or below the source, and not above it with something at the source's place inside the moved subtree |
| VfsMoves.MoveDeliversIff | src/core/filesystem.py:800-801 | the same for set-then-delete at any two paths |
| VfsMoves.MoveOntoItselfDeletes | src/core/filesystem.py:788-801 | a move whose destination resolves to its source reports success and deletes it |
| VfsMoves.RenameToOwnNameLosesFile | src/core/filesystem.py:788-801 | such a call: a file renamed to its own name |
| VfsMoves.MoveLeavesProtectedAloneIff | src/core/filesystem.py:788-801 | for any source and destination: a successful `mv` leaves a directory the caller may not write to as it was if and only if the source is not in it and the destination is not the directory's own name (unless what lands there is what was there) |
| VfsMoves.MoveTakesFromEtc | src/core/filesystem.py:797-801 | a call without root rights that takes a file out of /etc |
| VfsMoves.MoveConservesIff | src/core/filesystem.py:886-904 | moving into an empty slot of an existing directory leaves du("/") unchanged if and only if both or neither place is counted by du, or nothing is moved |
| VfsMoves.MoveToRecordLosesUsage | src/core/filesystem.py:886-904 | a move after which du is smaller: a file moved to the name of the root's own record |
| VfsMoves.MoveSize | src/core/filesystem.py:886-904 | what any move to a place apart does to du("/") |
| VfsMoves.MoveFreesWhatItOverwrites | src/core/filesystem.py:886-904 | between counted places du("/") falls by exactly the size of what is overwritten and of the file on the way |
| VfsMoves.CopyGrows | src/core/filesystem.py:733-769 | copying into an empty slot adds du(src), also into the source's own subtree, less the file on the way, of which there is none when the directory exists |
| VfsMoves.FailedMoveChangesNothingIff | src/core/filesystem.py:788-802 | a failing `mv` changes nothing, except exactly when the source is the root and the destination could be written |
| VfsMoves.FailedRootMoveChangesTree | src/core/filesystem.py:788-802 | such a call |
| VfsMoves.CopyLeavesProtectedAloneIff | src/core/filesystem.py:757-767 | for any source and destination: a successful `cp` leaves a directory the caller may not write to as it was if and only if the destination is not the directory's own name (unless what lands there is what was there) |
| VfsMoves.CopyReplacesEtc | src/core/filesystem.py:763-764 | a call without root rights that replaces /etc |
| VfsMoves.CommandsKeepSound | src/core/filesystem.py:733-802 | names stay distinct in every directory |
| VfsMoves.SetElsewhere | src/core/filesystem.py:1005-1012 | `_set_node` changes nothing apart from its path; created directories bring only their own record |
| VfsMoves.SetHolds | src/core/filesystem.py:1005-1012 | after `_set_node` the path holds the value, with everything below it |
| VfsMoves.DelElsewhere | src/core/filesystem.py:1014-1022 | `_del_node` changes nothing apart from its path |
| VfsMoves.DelHolds | src/core/filesystem.py:1014-1022 | after `_del_node` nothing is left at or below the path |
| VfsMoves.DelIsIdleIff | src/core/filesystem.py:1014-1022 | `_del_node` is idle if and only if there is nothing at the path |
| VfsMoves.SetSize | src/core/filesystem.py:894-904 | how du("/") changes when a path is set, whether or not its directory exists |
| VfsMoves.DelSize | src/core/filesystem.py:894-904 | how du("/") changes when a path is deleted |
| VfsFind.FindCoversDuIff | src/core/filesystem.py:886-951 | du of a path is the sum of the sizes of the files root's `find` reaches there, whatever their names, if and only if the path is a directory or an empty file |
| VfsFind.FindAgreesWithDuIff | src/core/filesystem.py:886-951 | in a tree whose names contain no slash and are not empty, `.` or `..`, the same with every listed text resolved anew from any directory |
| VfsFind.ListedTextLeadsBackIff | src/core/filesystem.py:943-943 | a listed text leads back to the node it was listed for if and only if all its names are of that kind |
| VfsFind.SlashNameIsNotFoundAgain | src/core/filesystem.py:718-727 | a tree on which the texts fail: a file written under a name with a slash is counted by du, and the text listed for it names nothing |
| VfsFind.FindIsExact | src/core/filesystem.py:906-951 | `find` reports a path if and only if it names a node of the wanted kind with a matching name, meets no directory record on the way and, for anyone but root, no file or directory whose record says it is unreadable |
| VfsFind.ListedMeans | src/core/filesystem.py:926-948 | the step-by-step condition of the walk is that declarative one |
| VfsFind.CommandsKeepClean | src/core/filesystem.py:733-802 | moving and copying keep every name usable as a path segment, whatever text is passed |
| VfsPersistence.RoundTrip | src/core/filesystem.py:188-253 | deserialising a serialised tree gives the same tree, including directories with a child called `__type__` |
| VfsPersistence.OlderRecordReads | src/core/filesystem.py:231-246 | a record saved without number, link count and times is read with one link and the number and times of a new one |
| VfsPersistence.NoDirectoryLooksLikeARecord | src/core/filesystem.py:231-233 | a serialised directory never carries the marker of a file record |
| VfsPersistence.LoadRestores | src/core/filesystem.py:207-256 | loading what another tree saved restores every persisted top-level entry and leaves `proc`, `sys` and unsaved names as they were |
| VfsPersistence.SaveThenLoadIsIdle | src/core/filesystem.py:184-256 | loading straight after saving changes nothing, not even the order of entries |
| VfsCore.VirtualFS.Move | src/core/filesystem.py:771-802 | the command on the object: outcome and tree as specified, errors leave the tree alone |
| VfsCore.VirtualFS.Copy | src/core/filesystem.py:733-769 | the command on the object; an error leaves everything as it was |
| VfsCore.VirtualFS.SetAt | src/core/filesystem.py:1005-1012 | the cursor loop that creates missing directories refines the recursive `SetNode` |
| VfsCore.CreateAhead | src/core/filesystem.py:1008-1011 | creating the first missing directory ahead of time does not change the outcome |
| VfsCore.DropAtCursor | src/core/filesystem.py:1014-1022 | deleting a key from the directory the cursor has reached is deleting the path |
| VfsCore.VirtualFS.DeleteAt | src/core/filesystem.py:1014-1022 | the walk down to the last directory, with its early returns, and the deletion of the key there refine `DelNode` |
| VfsCore.FindNode | src/core/_path_resolver.py:97-122 | the walk down the segments computes `NodeAt` |
| VfsCore.VirtualFS.Find | src/core/filesystem.py:906-951 | the walk reports the paths in insertion order, as text |
| VfsCore.VirtualFS.Walk | src/core/filesystem.py:926-948 | the recursive walk appends exactly what lies below the directory |
| VfsCore.VirtualFS.Usage | src/core/filesystem.py:886-892 | du of a path, or the error on a missing one |
| VfsCore.VirtualFS.Load | src/core/filesystem.py:250-253 | the merge loop; an unreadable value is ignored whole |
| VaultRefinement.RunRefines | engine_rust/src/vault.rs:557-754 | over any interleaving of unlock, lock, store, get, list and rotate by many tokens and users, every reply is that of a plain per-user map of secrets |
| VaultRefinement.RunRefinesFromEmpty | engine_rust/src/vault.rs:557-754 | in particular over any run from an empty disk |
| VaultRefinement.StepRefines | engine_rust/src/vault.rs:557-804 | one call keeps the agreement with the plain map and answers as it does |
| VaultRefinement.RotationKeepsSecrets | engine_rust/src/vault.rs:754-804 | after `rotate_key` and `unlock` with the new password every name reads as it did through the old session, which reads nothing any more |
| VaultRefinement.LoadAgrees | engine_rust/src/vault.rs:379-443 | a session's read succeeds if and only if the plain map admits it, and then yields exactly the user's secrets, encrypted |
| VaultRefinement.StoreAgrees | engine_rust/src/vault.rs:687-708 | storing a secret is an update of the plain map, refused exactly when the session's password is not the vault's or its key was rotated away |
| VaultRefinement.RotateAgrees | engine_rust/src/vault.rs:754-804 | rotation replaces the password, keeps the secrets and retires every session of the user; a wrong old password changes nothing but a missing salt |
| VaultRefinement.SaveAgrees | engine_rust/src/vault.rs:503-551 | a save seals the user's map under the key and touches no other user |
| VaultRefinement.UnlockAgrees | engine_rust/src/vault.rs:557-564 | unlocking adds a session for whatever password is given |
| VaultRefinement.WithSaltAgrees | engine_rust/src/vault.rs:333-348 | creating a user's salt disturbs nobody |
| VaultRefinement.ReadsAgree | engine_rust/src/vault.rs:711-731 | get and list answer as the plain map does |
| VaultEntries.EntryIsReadIff | engine_rust/src/vault.rs:711-731 | reading a name yields exactly what was encrypted under the session's key; an entry under another key is refused as undecryptable, a missing name is no error |
| VaultEntries.StoredEntry | engine_rust/src/vault.rs:687-708 | a stored secret is encrypted under the session's key with the nonce drawn for it, every other entry stays, and the file is sealed anew |
| VaultEntries.RotatedEntries | engine_rust/src/vault.rs:754-804 | rotation is refused, files untouched, exactly when the old password does not read the file or some entry is under another key; otherwise every entry is rewritten under the new key with a nonce of its own and the same secret, and the new salt is stored |
| VaultVersions.OldFileIsRefusedIff | engine_rust/src/vault.rs:379-443 | putting a user's file back as it was at an earlier moment of a run, or removing it if there was none then, works if and only if there was none or the stored version has not passed the file's, which short of a wrapping counter means that nothing was saved for that user since; otherwise every key is refused |
| VaultVersions.AlteredFileIsRefusedIff | engine_rust/src/vault.rs:392-427 | a readable file put back with another version or other contents is refused by every key as wrongly authenticated, and read if and only if nothing was altered |
| VaultVersions.OtherKeyIsRefused | engine_rust/src/vault.rs:392-427 | a readable file is read with one key only |
| VaultVersions.RemovedFileReadsEmpty | engine_rust/src/vault.rs:386-389 | a removed file reads as an empty vault under every key, whatever the counter |
| VaultVersions.RemovalGoesUnnoticed | engine_rust/src/vault.rs:386-389 | a store with a saved secret on which removing the file is accepted |
| VaultVersions.EveryRunIsRecorded | engine_rust/src/vault.rs:503-551 | in every state of every run each file carries the stored version |
| VaultVersions.SaveRaisesIff | engine_rust/src/vault.rs:503-551 | a save raises the stored version if and only if the 64-bit counter is not at its last value, and seals the file with it |
| VaultVersions.RunAdvances | engine_rust/src/vault.rs:366-375 | over a run a user's version never falls, and while it stays the user's file stays |
| VaultVersions.StepAdvances | engine_rust/src/vault.rs:503-551 | one call raises a user's version by at most one |
| VaultCore.VaultStore.Rotate | engine_rust/src/vault.rs:754-804 | read, re-encrypt, write, then store the new salt; a failure leaves the files alone |
| VaultCore.VaultStore.Recrypt | engine_rust/src/vault.rs:770-776 | the loop re-encrypts every entry, in whatever order, or fails on the first that does not decrypt |
| VaultCore.VaultStore.Put | engine_rust/src/vault.rs:687-708 | store_secret on the object; a refused call changes nothing |
| VaultCore.VaultStore.Get | engine_rust/src/vault.rs:711-731 | get_secret on the object |
| VaultCore.VaultStore.List | engine_rust/src/vault.rs:734-750 | list_secrets on the object |
| VaultCore.VaultStore.ReadData | engine_rust/src/vault.rs:379-443 | the authentication check, then the rollback check |
| VaultCore.VaultStore.WriteData | engine_rust/src/vault.rs:503-551 | the envelope, then the counter |
| VaultCore.VaultStore.GetOrCreateSalt | engine_rust/src/vault.rs:333-348 | an existing salt is never replaced |
| VaultCore.VaultStore.OpenSession | engine_rust/src/vault.rs:557-564 | unlock on the object |
| VaultCore.VaultStore.CloseSession | engine_rust/src/vault.rs:576-582 | lock on the object |

## Left out

- SchedulerPriority.TopPriorityIsDispatched: recognises the process by its pid; `TopPriorityItselfIsDispatched` concludes about the process itself, when no pid is shared.
- First come, first served and shortest job first: no bound on waiting is claimed for them; a stream of short jobs can keep a long one waiting.
- SchedulerPriority.AgingPreventsStarvation: requires that every process in the system has a positive burst with work left and that later arrivals carry a no earlier arrival tick; a process with burst time 0 runs until it is removed.
- SchedulerAccounting.EveryTickIsAccountedFor: pids are never used twice in a run, as the process table numbers them upwards.
- SchedulerShortestFirst.ShortestJobFirstIsOptimal: budgets must cover the bursts, so that the watchdog removes nobody from the batch.
- ResourceRuns.EveryRunConserves: covers runs in which processes request only what they do not hold; `RunConservesIff` covers all runs with the exact condition.
- DeadlockCore.DeadlockManager.ResolveDeadlock: the kill of the victim is the later death event (`SecondReleaseAllIsIdle`).
- MemoryRuns.EveryRunIsSound: requests ask for at least one unit; `AllocateKeepsInvIff` shows that this is needed.
- Mmu.EveryRunIsolates: covers runs of `allocate_frames` and `free_frames`; for direct calls of `map`, `MapPageIsolatesIff` gives the exact condition.
- VfsCore.VirtualFS.Move: nested dictionaries are values of the tree field, so sharing between two places of one tree is not modelled; for the root as source the original ends with a tree that contains itself, the model with one copy inside it.
- VfsCore.VirtualFS.Load: a saved value with a field of another type is ignored whole, where the original would keep the field as it is; `save` writes no such value.
- VfsCore.VirtualFS.Find: the shell pattern is an arbitrary predicate on names; glob matching itself is not modelled.
- VfsPersistence.RoundTrip: the JSON text, its encryption and the file are taken as faithful.
- VaultRefinement.RunRefines: salts are never drawn twice; the concatenation that is authenticated is taken as the pair of version and map; input and output errors and crashes between two files are not modelled.
- Ipc.ReplayFreeIff: times are real numbers, so floating-point rounding and NaN timestamps are not modelled, nor is the listener's rate limit.
- Event bus deliveries, logging, telemetry, locks and threads: each method is one atomic step; `PM.kill` takes effect as the later death event.
- Core assignment and the multicore engine, the statistics and listing methods, and the detection interval of the clock handler: easy members or ignored numbers.
- The default label of an allocation: the label is an argument.
- The legacy vault migration, Argon2, HKDF, AES and HMAC internals, secure deletion and the audit log.
- `mkdir`, `rm`, `rmdir`, `touch`, `write_file`, `ln`, `chmod`, `chown`, `ls` and `grep`: easy next to moving and copying.
- The user interface, the adaptive scheduler, the interrupt queue, sessions, roles and the runtime manager.
