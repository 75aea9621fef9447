# Verification of Rabs

Rabs is an incremental, multi-threaded build system. This project models five parts of
it in Dafny and proves what they are for:

* the **scheduler** of `src/target.c`: targets are queued with their dependencies, taken
  from a priority queue by worker threads, updated, and waited for (Queueing, Waiting,
  Scheduler, SchedulerTheorems, CycleTheorems, MainThread, Insertions, QueueUse,
  TargetTable);
* the **incremental update** of `src/target.c` with the records of `src/cache.c`, over any
  number of runs (Incremental, IncrementalTheorems, BuildEngine, CacheDepends);
* the **target set** of `src/targetset.c`, an ordered hash table with double hashing
  (Probing, SlotTable, Sorting, TargetSet);
* the **priority queue** of `src/targetqueue.c`, an array heap with back pointers and
  priorities computed on demand (Paths, Priorities, Computing, Heap, Mending, Adjusting,
  TargetQueue, Resiting);
* the **CSV library** of `lib/libcsv.c` and `lib/csv.c`, whose format is that of section 2
  of RFC 4180 (Csv, CsvRoundTrip, CsvText, CsvParser, CsvWriter, CsvReader);
* and, smaller, the **overlay mounts** of `src/vfs.c` (Vfs, Unsolving).

Code that works in place is a class or a method over arrays, proved against a function of
the old state; what that function is good for is then proved about the function.
`dafny verify dfyconfig.toml` verifies the whole project.

## How the scheduler is modelled

Everything the threads share is guarded by one lock, so a step is what one thread does
between two points where it may give the lock up. The state holds `LastUpdated` as a
status, `Affects`, `WaitCount`, the priority queue as a set, the two counters, the
`Waiting` pointers, the phase of every thread, and a stack of `target_update` calls per
thread (a frame names the target whose `target_wait` made the call). A run is any sequence
of enabled steps of any number of threads, so what is proved holds for every interleaving,
for spurious wake-ups, and whichever target the queue hands out. A build function touches
any targets a program allows it to touch, in any order.

`TargetTable` has the same operations as methods that update maps in place, and proves that
they compute exactly the functions the state machine uses.

## How the incremental update is modelled

A history is a sequence of runs that share the cache. Within a run targets are updated in
any order in which the dependencies an update looks at are finished, which is what the
scheduler guarantees (`SchedulerTheorems.StepMoves`). Between runs sources, symbols, build
functions and file times change in any way, and outputs may be deleted. The assumptions are
stated as predicates: `Pure` (a build function gives the same for the same contents of the
targets it declares or touches), `Orders` (what targets declare, and what the build functions
of one run may touch, is acyclic; each run may have its own order), `HonestDisk` (files have
times above 0, and a file that has the same time twice in a history has the same content), and
hashes that tell contents apart.

## Where the code falls short

* `README.md` of Rabs says that cyclic dependencies trigger an error. For a cycle of *declared*
  dependencies that depends on whether anything waits for it directly. Targets on the cycle, and
  those that lead to it, wait for one another, so none gets into the priority queue. If nothing
  outside an update waits for one of them, none is ever updated, nothing is reported
  (`CycleTheorems.CycleNotReported`), and the workers leave without an error
  (`SchedulerTheorems.DeclaredCycleUnreported` is such a run). But `target_wait` updates a QUEUED
  target at once: if code with no current target uses the value of an expression target that
  leads to the cycle (`src/target_expr.c:45-49`), the cycle is walked and reported
  (`DirectWaitIsReported`; `DeclaredCycleReported` is such a run). `ReportedExactly` is the exact
  condition for every state of every run. `SchedulerTheorems.Completeness` says which queued
  targets stay unfinished. The check itself reports a cycle exactly when the `Waiting` pointer it
  is about to set would close one (`RecursionReported`), and never reports a program without
  cycles (`NoFalseAlarm`).
* `csv_read_fn` never calls `csv_fini`, so a last row without a line end is not delivered.
  `CsvRoundTrip.LastRowLost` is such a file, and `CsvRoundTrip.UnfinishedRow` says exactly
  when a row is lost. Nor does it look at the result of `csv_parse`: when the entry buffer
  cannot grow, and only then, the rest of the chunk is dropped (`CsvReader.CsvFile.Fill`), and
  complete rows can be lost (`CsvReader.RowDropped`).
* A row without fields is written as an empty line, which the parser skips by default:
  `CsvRoundTrip.DefaultRoundTrip` says that reading gives back all rows exactly when none is
  empty.
* `targetqueue_insert` and `targetqueue_adjust_queue` do not set `QueueIndex` of a target
  that reaches the root. Between calls that of the root is negative or 0, and all others are
  exact, so `target_priority_invalidate` never marks a target that is not where its slot number
  says; but it ignores a root without one (`Resiting.RootKeepsNoIndex`).
* `targetqueue_adjust_queue` returns at the first target that settles below the root, and does
  not move a target whose priority is known by then. `Adjusting.Adjusted` is what it computes.
  What it leaves behind are exactly the targets of the list that no target it has looked at leads
  to (`AdjustedExactly`); of two, the earlier exactly if the later neither rises to the root nor
  leads to it (`Resiting.SecondLeftBehind`).
* One invalidated target is moved correctly if nothing is inserted before the next
  `targetqueue_next`, and after one insertion as long as computing the priority of the new target
  does not compute that of the invalidated one. If it does, the invalidated target is not moved,
  and the heap is in order exactly if it is not above its parent then (`TargetQueue.Queue.Insert`;
  `Resiting.ComputedWhileWaiting` is a run in which it is). An insertion that overtakes the
  waiting target is still mended, but two can leave the heap out of order
  (`Resiting.OvertakenTwice`); `Adjusting.OneAdjustedExactly` is the exact condition for any heap.
* None of this loses or repeats a target: `targetqueue_next` always takes exactly one target out,
  whatever the order (`TargetQueue.Queue.Next`), and the theorems about the scheduler hold for any
  choice. A target that is ready to be updated is never computed by an insertion
  (`QueueUse.InsertionLeavesReady`); one that has been updated in the meantime is discarded when
  it is taken.
* `target_priority_invalidate` would close the list to a ring if its target were in the list with
  a known priority (`TargetQueue.Queue.Invalidate`). No run of the scheduler makes that call
  (`QueueUse.NeverLinkedTwice`).
* `vfs_unsolve` does not always end. `Unsolving.UnsolveEnds` is the exact condition,
  `OneMountEnds` what it comes to for one mount, `MountBelowItsTarget` and `SwappedMounts` are
  families on which it never ends, `DescendingEnds` and `ShorteningEnds` conditions on the mounts
  under which it always does.

## Model

| member | source | states |
|---|---|---|
| Queueing.QueueTargetKeeps | src/target.c:652-669 | target_queue, with its recursion over the dependencies, keeps all queueing facts: counts are exact, a QUEUED target is in the queue iff it waits for nothing, dependencies of a queued target are queued; it moves targets only from UNCHECKED to QUEUED and adds no waiter but the one it is called for |
| Queueing.QueueAllKeeps | src/target.c:660 | the same for the loop over Depends, after which every dependency is queued and every unfinished one has the waiter in its Affects |
| Queueing.CheckKeeps | src/target.c:505 | starting an update keeps the queueing facts whether or not the target came from the queue |
| Queueing.TakeKeeps | src/target.c:726-727 | so does discarding a queue entry that another thread has updated in the meantime |
| Queueing.FinishKeeps | src/target.c:361-368 | so does finishing a target and telling all it affects; only QUEUED targets that waited for it get into the queue |
| Queueing.QueuedReady | src/target.c:361-368 | a QUEUED target waits for exactly its unfinished declared dependencies, and is in the queue iff there are none |
| Insertions.CallsFresh | src/target.c:652-669 | the calls of targetqueue_insert made by a target_queue with all its recursion are for targets that were UNCHECKED and not in the queue, each once, and the queue grows by exactly these |
| Insertions.StepInserts | src/target.c:361-730 | in every step of every thread targetqueue_insert is called only for targets that are not in the queue and still UNCHECKED or QUEUED, and the queue changes by exactly these calls and what targetqueue_next takes out |
| Insertions.InsertedOnce | src/target.c:361-730 | over a whole run targetqueue_insert is called at most once for each target |
| QueueUse.ReadyIsReachedByDone | src/target.c:652-669 | whatever reaches, through Affects, a QUEUED target that is in the queue is finished |
| QueueUse.InsertionLeavesReady | src/target.c:661-664 | so inserting a target that is not finished never computes the priority of another target that is ready to be taken |
| QueueUse.EventKeeps | src/target.c:361-730 | steps of the scheduler with their insertions, invalidations of QUEUED targets and adjusting keep that a target of the list that is still QUEUED has no priority |
| QueueUse.NeverLinkedTwice | src/target.c:665-667 | in no run does target_priority_invalidate act on a target that is in the list |
| TargetTable.Targets.AddAffects | src/target.c:654-656 | the in-place insertion into Affects with its WaitCount is the specified state change |
| TargetTable.Targets.TargetQueue | src/target.c:652-669 | target_queue on the maps it updates in place computes QueueTarget, and ends on any graph |
| TargetTable.Targets.QueueDepends | src/target.c:660 | the loop over Depends computes QueueAll |
| TargetTable.Targets.TellAffected | src/target.c:643 | the whole loop: everything told has one wait less, and exactly the QUEUED targets with one wait left are queued |
| TargetTable.Targets.TargetFinish | src/target.c:632-643 | the end of target_update computes FinishTarget |
| Waiting.WaitEdge | src/target.c:671-686 | with acyclic Waiting pointers, a new pointer closes a cycle iff the waiter can be reached from the target it is to wait for |
| Waiting.WouldRecurse | src/target.c:674-684 | the chain walk ends, and finds the waiter iff it can be reached |
| Waiting.FewerPointers | src/target.c:696 | clearing a pointer makes no cycle |
| Scheduler.StepKeeps | src/target.c:671-730 | every step of every thread keeps the whole invariant: queueing facts, call stacks against Waiting pointers, acyclic pointers, RunningThreads equal to the number of running threads, and no finished target with an unfinished dependency |
| Scheduler.LastRunning | src/target.c:717-721 | a worker that brings RunningThreads to 0 with an empty queue has no update in progress anywhere, no sleeping waiter, and a main thread that has left |
| Scheduler.Innermost | src/target.c:671-702 | from any target being updated, following stacks and Waiting pointers leads to a thread that waits for nothing unfinished |
| Scheduler.WaitForKeeps | src/target.c:671-695 | target_wait from inside an update keeps the invariant in all its branches: error, nested update, sleep, already finished |
| Scheduler.TouchKeeps | src/target.c:79-85 | so does target_depends_auto, or queueing a cached dependency, in the middle of an update |
| Scheduler.FinishFrameKeeps | src/target.c:623-643 | so does returning from a nested or outermost target_update |
| Scheduler.ResumeKeeps | src/target.c:689-696 | so does waking up in target_wait |
| Scheduler.MainWaitKeeps | src/target.c:687-695 | target_wait without a waiter keeps the invariant |
| SchedulerTheorems.RunInv | src/target.c:495-730 | the invariant holds in every state of every run |
| SchedulerTheorems.WaitAccounting | src/target.c:652-669 | in every reachable state WaitCount is the number of unfinished targets whose Affects holds the target, QueuedTargets - BuiltTargets is the number of QUEUED or CHECKING targets, finished targets have all Depends finished, and QUEUED targets are in the queue iff all their Depends are finished |
| SchedulerTheorems.StepMoves | src/target.c:495-702 | a step only queues targets, or starts one update, or finishes one target all of whose declared dependencies, and all targets it was queued for (touched and cached dependencies), are finished |
| SchedulerTheorems.FinishedOnce | src/target.c:505-631 | over a whole run a target only goes from UNCHECKED through QUEUED and CHECKING to finished, so it finishes at most once |
| SchedulerTheorems.LoopNeverFinishes | src/target.c:652-669 | no target of a set closed under some dependency ever finishes |
| SchedulerTheorems.Completeness | src/target.c:704-730 | when a worker has left its loop the queue is empty, nothing is being updated, and a target that was ever queued is finished iff it does not lead to a cycle of declared dependencies |
| SchedulerTheorems.AllFinished | src/target.c:704-730 | with acyclic Depends, every target that was queued and everything reachable from it is then finished |
| SchedulerTheorems.DeadlockFree | src/target.c:671-702 | while any target is CHECKING, the Waiting pointers are acyclic and some thread inside target_update has an enabled step |
| SchedulerTheorems.WorkerRests | src/target.c:713-727 | over runs, a worker goes to sleep only if the queue is empty, and leaves only if besides no other thread is running |
| MainThread.MainWaitsUntilDone | src/target.c:687-697 | over runs, if target_wait is called without a waiter for a QUEUED or CHECKING target, the caller is back in its loop only when the target is finished |
| MainThread.MainGoesOn | src/target.c:689-697 | once that target is finished, the caller can wake up and is then back in its loop |
| MainThread.DependsBeforeTouch | src/target.c:506-609 | over runs, an update looks at cached dependencies and runs its build function, which may touch other targets, only when all its declared dependencies are finished |
| SchedulerTheorems.RecursionReported | src/target.c:672-685 | target_wait reports a recursive dependency iff the pointer it is about to set would close a cycle |
| SchedulerTheorems.NoFalseAlarm | src/target.c:672-685 | no run of a program whose declared and touched dependencies are acyclic reports one |
| SchedulerTheorems.DeclaredCycleUnreported | src/target.c:652-669 | a run on two targets that declare each other: a worker leaves, nothing was reported, and the targets are still QUEUED |
| CycleTheorems.CycleNotReported | src/target.c:671-686 | if nothing outside an update waits directly for a target that leads to a declared cycle, and what other targets touch leads to none, a run never reports a recursive dependency and never updates such a target, whatever declared cycles there are |
| CycleTheorems.DeclaredCycleNotReported | src/target.c:671-686 | the same for all programs whose build functions touch nothing, on any declared graph |
| CycleTheorems.ReportedExactly | src/target.c:671-702 | from any state of any run, a recursive dependency can still be reported without another such wait exactly if a target that leads to a declared cycle is CHECKING |
| CycleTheorems.DeclaredReportedExactly | src/target.c:671-702 | the same for programs whose build functions touch nothing, with no assumption on the declared graph |
| CycleTheorems.CheckedCycleIsReported | src/target.c:671-702 | once such a target is CHECKING, letting only the threads inside updates go on ends, and ends in the report |
| CycleTheorems.CheckedCycleNeverCompletes | src/target.c:704-730 | if a worker has left its loop, no such target was CHECKING at any time before |
| CycleTheorems.DirectWaitIsReported | src/target_expr.c:45-49 | a target_wait with no current target, on a QUEUED target that leads to a declared cycle, leads to the report |
| CycleTheorems.DeclaredCycleReported | src/target_expr.c:45-49 | a run on two targets that declare each other, in which the main thread waits for one of them and the cycle is reported |
| Incremental.UpdateReproduces | src/target.c:541-631 | whether or not the build function ran, the record left by an update is what the current build function gives from the hashes of the finished dependencies |
| Incremental.BuildIsClean | src/target.c:574 | a build function run on the hashes of finished targets gives what a clean build gives |
| Incremental.CleanSame | src/target.c:506-631 | the content that a build from scratch gives does not depend on the order in which it goes |
| Incremental.UpdateIsClean | src/target.c:506-631 | after an update the content of the target is that of a build from scratch |
| Incremental.OthersReproducible | src/target.c:535-552 | an update leaves every other record trustworthy: if no stamp of its dependencies is newer, its build function would still give the record |
| Incremental.UpdateKeeps | src/target.c:495-631 | an update keeps the whole invariant of records, stamps, outputs and finished targets |
| Incremental.UpdateKeepsTimes | src/target_file.c:72-90 | the record of a file keeps a time that goes with the recorded content, and 0 for a missing file |
| Incremental.WaitedIsReady | src/target_file.c:88-90 | so on an honest disk an update never takes a file for the recorded one because of its time alone |
| IncrementalTheorems.NewRunKeeps | src/cache.c:143-152 | the start of a run keeps the invariant and the recorded times, whatever sources, symbols, build functions, the order of what they touch, or deletions have changed |
| IncrementalTheorems.HistoryInv | src/target.c:495-631 | it holds throughout every history of runs |
| IncrementalTheorems.IncrementalEqualsClean | src/target.c:506-631 | every target finished in any run of any history has exactly the content a build from scratch gives it, and its recorded hash is that content |
| IncrementalTheorems.SameAsFirstRun | src/target.c:506-631 | in particular the content that a first run with an empty cache gives it |
| IncrementalTheorems.StampOrder | src/cache.c:194-218 | LastUpdated <= LastChecked <= CurrentIteration in every record at all times, with equality of the last two for targets finished in the run |
| IncrementalTheorems.BuiltForAReason | src/target.c:506-552 | early cutoff: a target that was finished and has not been updated since is built again only if its build function is another one, its output is missing, or the recorded hash of a declared or cached dependency has moved since |
| IncrementalTheorems.StampMoves | src/target.c:623-631 | in every step of every history LastUpdated of a target moves only with its hash, or with the first one |
| IncrementalTheorems.NullBuild | src/target.c:541-552 | a run over targets of the previous run, with nothing changed in between and no output missing, executes no build function and changes no LastUpdated |
| IncrementalTheorems.SettledUpdate | src/target.c:623-631 | the step of that: an update of a settled target builds nothing and keeps everything settled |
| BuildEngine.Engine.MaxStamp | src/target.c:370-376 | the loop over a target set gives the largest LastUpdated, or the start if that is larger |
| BuildEngine.Engine.TargetHash | src/target.c:272-279 | files are hashed again only if their time has changed |
| BuildEngine.Engine.TargetMissing | src/target.c:281-285 | only files and expressions can be missing |
| BuildEngine.Engine.NeedsBuild | src/target.c:506-552 | the two-stage comparison of stamps decides exactly: build function changed, a declared or a cached dependency newer than LastChecked, or the target missing |
| BuildEngine.Engine.RunBuild | src/target.c:567-609 | the result is stored where the kind of target says, with the touched targets |
| BuildEngine.Engine.Recorded | src/target.c:623-631 | LastUpdated moves to this iteration iff the hash differs or there was none |
| BuildEngine.Engine.TargetUpdate | src/target.c:495-631 | the in-place target_update computes the step Update of the theorems |
| CacheDepends.IndicesLength | src/cache.c:259-266 | cache_depends_set writes exactly Size - Space indices |
| CacheDepends.IndicesInvert | src/cache.c:228-266 | with distinct cache indices the set can be read back from them |
| CacheDepends.DependsSet | src/cache.c:259-266 | the cursor loop fills the array exactly: the count, then the indices in slot order |
| CacheDepends.Parse | src/cache.c:228-240 | cache_target_set_parse builds a valid set of the targets of the indices |
| CacheDepends.DependsGet | src/cache.c:248-257 | cache_depends_get gives that set, and an empty one if nothing is stored |
| CacheDepends.RoundTrip | src/cache.c:248-266 | what is read back is the set that was stored; if its table has the same size it is slot for slot the same |
| Probing.MaskedIsAnd | src/targetset.c:112-113 | with a power of two the slot number is the bitwise AND of the hash with Size - 1 |
| Probing.MaskedIsRemainder | src/targetset.c:112-113 | and the remainder by the table size |
| Probing.ProbeInjective | src/targetset.c:117-118 | with an odd stride and a power of two no slot is probed twice in the first Size steps |
| Probing.ProbeReaches | src/targetset.c:117-118 | and every slot is probed in them |
| Probing.ProbeIs | src/targetset.c:101-118 | the slot after i steps is (address >> 4) + i * ((address >> 8) or 1) modulo Size |
| SlotTable.SearchEnds | src/targetset.c:114-119 | stopping at the first slot that does not hold a larger key answers membership exactly |
| SlotTable.PlacedOrdered | src/targetset.c:121-122 | putting a key in that slot, over a smaller key, keeps the table ordered |
| SlotTable.PlaceStep | src/targetset.c:121-137 | and leaves either a finished table or one smaller key to place from the slot it has lost |
| SlotTable.EmptySlot | src/targetset.c:120-137 | an ordered table with fewer keys than slots has an empty slot, so probing ends |
| SlotTable.UniqueRepresentation | src/targetset.c:112-159 | two ordered tables of the same size with the same keys have identical slots, whatever the history |
| TargetSet.SameTargetsSameArray | src/targetset.c:101-160 | sets grown from nothing to the same targets have identical arrays |
| TargetSet.LoadFactor | src/targetset.c:120-160 | a grown set has the least power of two of slots, at least 4, of which more than an eighth are free |
| TargetSet.TargetSet.Init | src/targetset.c:68-74 | the size is the least power of two that is not below the minimum, and the set is empty |
| TargetSet.TargetSet.Search | src/targetset.c:112-119 | the search ends at the stopping slot of the key, which holds it iff it is in the set |
| TargetSet.TargetSet.FindSmaller | src/targetset.c:128-136 | a displaced key finds a slot it may take, and the search ends |
| TargetSet.TargetSet.Displace | src/targetset.c:120-138 | the whole displacement chain ends, keeps the table ordered and adds exactly the new key |
| TargetSet.TargetSet.Add | src/targetset.c:120-159 | either way of adding a new key keeps the set valid, with Space = Size - count >= 1 |
| TargetSet.TargetSet.Insert | src/targetset.c:101-160 | targetset_insert is set insertion, returns 1 iff the target was new, and keeps the size a function of the number of targets |
| TargetSet.TargetSet.Start | src/targetset.c:105-111 | the first insertion into an unallocated set |
| TargetSet.TargetSet.Grow | src/targetset.c:140-158 | sorting and refilling gives an ordered table of twice the size with the same keys and the new one |
| TargetSet.SortedSlots | src/targetset.c:142-144 | after sorting the Size + 1 slots the keys are distinct and descending, and the last slot is NULL |
| TargetSet.FindFree | src/targetset.c:149-153 | the refill loop finds an empty slot, which the key may take because all keys before are larger |
| TargetSet.Refill | src/targetset.c:145-155 | re-inserting in descending order re-establishes the ordered-probe invariant for the same keys |
| Sorting.Partition | src/targetset.c:77-96 | the partition with two moving pointers puts the pivot in place, larger elements before it, and permutes the range |
| Sorting.SortTargets | src/targetset.c:76-99 | sort_targets permutes the range and leaves it descending, NULLs last |
| Paths.PathCountExact | src/targetqueue.c:16-27 | what the memoised recursion adds up is the number of directed paths that start at the target |
| Paths.PathsFromExact | src/targetqueue.c:16-27 | the set that is counted holds exactly those paths |
| Paths.HigherThanAffected | src/targetqueue.c:16-27 | a target has a strictly higher priority than anything it affects |
| Paths.PriorityGrows | src/target.c:654-667 | new entries in Affects never make the number of paths from a target smaller |
| Priorities.BoundedMore | src/target.c:654-656 | memoised priorities may be stale, but no known priority is ever more than one and the sum of those of what the target affects, and new entries in Affects keep that |
| Priorities.NotLower | src/targetqueue.c:16-27 | so an invalidated target that is computed again gets a priority no lower than the one it had |
| Priorities.BoundedThrough | src/targetqueue.c:16-27 | and computing other priorities in the meantime does not change that |
| Computing.ComputedExactly | src/targetqueue.c:16-27 | the recursion fills in exactly the priorities of the targets it can reach over targets whose priority is not known |
| Computing.ComputedAtLeast | src/targetqueue.c:16-27 | on any graph, cyclic ones included, each of them is at least one more than the sum of those that were known among what the target affects |
| Computing.EnsuredNotLower | src/targetqueue.c:16-27 | so computing another priority brings an invalidated one back no lower than it was |
| Heap.RootIsMaximal | src/targetqueue.c:90 | in heap order no entry is larger than the root |
| Heap.SwapUp | src/targetqueue.c:40-51 | one step up keeps heap order but for the moved entry |
| Heap.SwapDown | src/targetqueue.c:97-117 | one step down with the largest child keeps heap order but for the moved entry |
| Heap.SiftedUpOrdered | src/targetqueue.c:40-51 | the whole loop upwards restores heap order if only the moved entry was out of order |
| Heap.SiftedUpExactly | src/targetqueue.c:40-51 | on any heap it leaves heap order iff every other entry is not larger than the one that comes to stand above it |
| Heap.SiftedToRoot | src/targetqueue.c:40-51 | the moved entry comes to the root iff it is larger than everything on the way |
| Heap.SiftedDownOrdered | src/targetqueue.c:97-117 | the whole loop downwards restores heap order if only the moved entry was out of order |
| Mending.SiftedUpPast | src/targetqueue.c:40-51 | moving an entry up while another has lost its priority keeps the order that holds with the former priority iff it does not overtake that entry with a lower one |
| Mending.OvertakenSwap | src/targetqueue.c:40-51 | an entry that overtakes it so has exactly changed places with it in a heap that is in order |
| Mending.InsertedPast | src/targetqueue.c:29-52 | so after such an insertion the heap is still one that moving the waiting entry mends |
| Mending.InsertedKnown | src/targetqueue.c:29-52 | if the insertion has made the priority of the waiting entry known, the heap is in order iff that entry is not above its parent |
| Mending.Mended | src/targetqueue.c:66-81 | computing and moving the waiting entry puts such a heap in order |
| Adjusting.AdjustedExactly | src/targetqueue.c:62-84 | a priority that was not known is known afterwards iff a target of the list that has been looked at leads to it over targets without a priority; the rest of the list stays behind |
| Adjusting.FirstSettles | src/targetqueue.c:62-84 | the first target ends the loop, with all others not looked at, iff its new priority does not bring it to the root |
| Adjusting.EarlierLeftBehind | src/targetqueue.c:62-84 | of two invalidated targets the earlier is left behind iff the later neither comes to the root nor leads to it |
| Adjusting.AllKnownStay | src/targetqueue.c:65 | targets whose priority is known when they are looked at are not moved |
| Adjusting.OneAdjustedExactly | src/targetqueue.c:62-84 | for one invalidated target in any heap, order is restored iff all other entries fit under what comes above them |
| Adjusting.ListedTwice | src/targetqueue.c:54-60 | linking a target that is in the list once more leaves a list without an end |
| TargetQueue.Queue.constructor | src/targetqueue.c:11-14 | the queue starts valid and empty, with 32 slots |
| TargetQueue.Queue.PriorityCompute | src/targetqueue.c:16-27 | on any graph the recursion ends, computes Computed, leaves known priorities alone, and gives the target one more than the sum of the priorities of what it affects; without a cycle every priority it fills in is a number of paths |
| TargetQueue.Queue.AddPriority | src/targetqueue.c:18-22 | one call of targetqueue_priority_fn in the middle of that sum, with all it computes |
| TargetQueue.Queue.AddAffects | src/target.c:654-656 | a new entry in Affects keeps a queue in order, and one that adjusting will put in order |
| TargetQueue.Queue.SiftUp | src/targetqueue.c:40-51 | the loop computes SiftedUp, keeps back pointers exact for all slots above 0, and leaves that of a target that reaches the root as it was |
| TargetQueue.Queue.Grow | src/targetqueue.c:31-37 | doubling keeps the contents and clears the new slots |
| TargetQueue.Queue.Insert | src/targetqueue.c:29-52 | insertion of any target that is not in the queue, whatever has been invalidated: it adds exactly that target to the bag, at the place SiftedUp gives, doubles the array iff it is full, and keeps a queue in order. If one target waits to be moved and is not computed by it, adjusting will still put the queue in order, and the order with the former priority holds iff the new target has not overtaken it; if it is computed, the queue is in order iff that target is not above its parent |
| TargetQueue.Queue.IndexIsSlot | src/targetqueue.c:54-60 | between any two calls a target whose slot number is not negative is in that slot, the root included |
| TargetQueue.Queue.Invalidate | src/targetqueue.c:54-60 | acts iff the target has a slot number and a known priority; links it in front of the list, which keeps an end iff the target was not in it; one invalidated target in a queue in order is one that waits |
| TargetQueue.Queue.AdjustQueue | src/targetqueue.c:62-84 | for any list it computes Adjusted on heap and priorities and empties the list; if at most one target is listed, and it waits, the queue is in order afterwards |
| TargetQueue.Queue.Readjust | src/targetqueue.c:66-81 | one target of the list: its priority is computed, it is moved to where SiftedUp puts it, and the others are still where their slot numbers say |
| TargetQueue.Queue.LargestChild | src/targetqueue.c:98-107 | the two comparisons find the largest of an entry and its children, the left one if they are equal |
| Heap.TiesGoLeft | src/targetqueue.c:98-107 | of two children of the same priority the left one is moved up, and neither if none is larger |
| TargetQueue.Queue.SiftDown | src/targetqueue.c:97-117 | the loop computes SiftedDown, with exact back pointers |
| TargetQueue.Queue.TakeRoot | src/targetqueue.c:90-117 | takes exactly the root out of the bag, marks it -2, and leaves what Rest says |
| TargetQueue.Queue.Next | src/targetqueue.c:86-118 | for any list: returns NULL iff the queue is empty, otherwise takes out the root of what Adjusted gives, marks it -2 and gives the new root slot number 0. If nothing was invalidated, or one target that waits, or one that is known again and nowhere above its parent, it is of maximum priority and what is left is in order |
| Resiting.RootKeepsNoIndex | src/targetqueue.c:29-60 | a target inserted into an empty queue has slot number -1 at the root, and invalidating it does nothing |
| Resiting.SecondLeftBehind | src/targetqueue.c:54-84 | in any queue in order: of two targets that are invalidated the earlier stays in the heap without a priority and out of the list iff the later neither comes to the root nor leads to it |
| Resiting.ComputedWhileWaiting | src/targetqueue.c:16-84 | a run from an empty queue in which an insertion computes the priority of the one target that waits, and that target stays below one of lower priority |
| Resiting.OvertakenTwice | src/targetqueue.c:29-118 | a run from an empty queue in which two insertions overtake the same invalidated target, and the heap is out of order after it has been moved |
| Csv.StepKeeps | lib/libcsv.c:330-447 | every byte keeps what the parser relies on: spaces <= entry length outside quotes, spaces + 1 <= entry length after a possible closing quote |
| Csv.FoldKeeps | lib/libcsv.c:330-447 | so does a whole run, and an entry is never longer than the bytes read |
| Csv.FoldUsed | lib/libcsv.c:374-436 | only strict parsers fail, and exactly at a byte that is a strict error |
| Csv.FoldAppend | lib/libcsv.c:304-449 | parsing two pieces one after the other is parsing them together |
| Csv.ChunkIndependence | lib/libcsv.c:304-449 | however the input is cut into chunks, callbacks and final state are the same |
| CsvRoundTrip.QuotedRuns | lib/libcsv.c:360-430 | a quoted text is taken in unchanged, with embedded quotes, delimiters and line ends, and no strict error |
| CsvRoundTrip.RowRuns | lib/csv.c:59-76 | a written row makes exactly the callbacks for its fields and its end |
| CsvRoundTrip.FileRuns | lib/libcsv.c:488-515 | a written file makes exactly the callbacks for its rows, and ends between rows, for any delimiter, quote and row end that can be told apart |
| CsvRoundTrip.RoundTrip | lib/csv.c:26-76 | field_fn and row_fn rebuild the rows that were written, all of them or all with fields, as the options say |
| CsvRoundTrip.DefaultRoundTrip | lib/csv.c:26-76 | with default options and LF, CR or CR LF the rows that have fields come back; all rows come back iff none is empty |
| CsvRoundTrip.WritingIsInjective | lib/csv.c:59-76 | different lists of non-empty rows are written differently |
| CsvRoundTrip.UnfinishedRow | lib/csv.c:48-52 | without strict checking a file is delivered without loss iff it ends between rows; csv_fini would add exactly what is missing |
| CsvRoundTrip.LastRowLost | lib/csv.c:48-52 | a file with one field and no line end delivers no row |
| CsvText.CellThenDelim | lib/libcsv.c:342-418 | a field with or without quotes, with blanks around it, ends at a delimiter and gives the text without quotes and blanks; an empty one without quotes gives the empty text, or NULL if so configured |
| CsvText.CellThenEnd | lib/libcsv.c:342-418 | the same at a row end, which also ends the row |
| CsvText.TextIsRead | lib/libcsv.c:304-449 | a whole file whose fields may each be quoted or not, with blanks around them, blank lines, and any row ends, is read as the rows of its texts, without a strict error |
| CsvText.SampleFile | lib/libcsv.c:115-140 | with the default options, for the bytes of such a file |
| CsvText.LastCell | lib/libcsv.c:158-196 | at the end of the file csv_fini submits the last field, without quotes and blanks, and its row, unless nothing has begun |
| CsvText.OpenQuote | lib/libcsv.c:158-175 | an open quote is an error of csv_fini iff both strict options are set; otherwise what follows it is the text |
| CsvText.StrictInnerQuote | lib/libcsv.c:374-381 | with strict checking a quote inside a field without quotes stops the parser at it |
| CsvText.StrictAfterQuote | lib/libcsv.c:415-436 | so does what may not follow a closing quote |
| CsvText.LooseField | lib/libcsv.c:429-442 | without strict checking that quote and what follows it belong to the text, up to the next quote |
| CsvParser.Parser.constructor | lib/libcsv.c:115-140 | a parser starts between rows with no buffer |
| CsvParser.Parser.Acquire | lib/libcsv.c:290-296 | the halving loop ends, with what was wanted halved once per refusal, all larger sizes having been refused, or with nothing when that reaches 0 |
| CsvParser.Parser.IncreaseBuffer | lib/libcsv.c:270-302 | the buffer grows strictly, by a halving of what is wanted, and never past SIZE_MAX, keeping the entry; otherwise nothing changes and the error is the right one; if all memory is granted that happens at SIZE_MAX only |
| CsvParser.Parser.SubmitField | lib/libcsv.c:47-59 | the callback gets the entry without trailing spaces, or NULL, with the terminating NUL behind it if so configured |
| CsvParser.Parser.SubmitRow | lib/libcsv.c:61-67 | the row callback and the reset |
| CsvParser.Parser.InNotBegun | lib/libcsv.c:342-368 | the branch for no field refines StepNotBegun on the buffer |
| CsvParser.Parser.InField | lib/libcsv.c:369-404 | the branch for a field refines StepField |
| CsvParser.Parser.InEnded | lib/libcsv.c:405-442 | the branch after a possible closing quote refines StepEnded |
| CsvParser.Parser.MakeRoom | lib/libcsv.c:331-337 | before a byte is handled there is room for it, or the parser stops |
| CsvParser.Parser.Parse | lib/libcsv.c:304-449 | csv_parse reads a prefix with the callbacks and state of the fold over it; all of it unless the buffer could not grow or the next byte is a strict error |
| CsvParser.Parser.Fini | lib/libcsv.c:158-196 | csv_fini makes the missing callbacks and resets the parser, or reports an open quote |
| CsvWriter.Put | lib/libcsv.c:464-476 | one character is stored iff there is room and counted unless the count is saturated |
| CsvWriter.Write | lib/libcsv.c:451-486 | csv_write stores the longest prefix of the quoted text that fits, touches nothing else, and returns the whole length up to SIZE_MAX |
| CsvWriter.File.FWrite | lib/libcsv.c:488-515 | csv_fwrite writes the quoted text, or a proper prefix of it if a character could not be written |
| CsvWriter.File.WriteRow | lib/csv.c:59-76 | csv_write_fn writes the row text whose reading RoundTrip is about, or, if some character could not be written, that text with some characters left out |
| CsvReader.RowQueue.Append | lib/csv.c:33-43 | row_fn appends to the linked queue |
| CsvReader.RowQueue.Take | lib/csv.c:53-56 | the reader takes the first row and keeps the links right |
| CsvReader.CsvFile.Callback | lib/csv.c:26-43 | field_fn extends the current row, row_fn completes it |
| CsvReader.CsvFile.ParseChunk | lib/csv.c:51 | csv_parse has read some prefix of the chunk, and state and callbacks are those of all bytes read so far; it is the whole chunk unless the entry buffer could not grow |
| CsvReader.CsvFile.Fill | lib/csv.c:49-51 | one 256-byte read: the file advances by the whole chunk, and rows, queue and parser by exactly the part of it that csv_parse has read, which is all of it unless the entry buffer could not grow |
| CsvReader.CsvFile.Read | lib/csv.c:45-57 | rows are delivered in order, each once, and the end is reported when all complete rows of the bytes read have been delivered; these are all bytes of the file exactly as long as the entry buffer could grow, which it can for every file below 2^63 bytes if all memory is granted |
| CsvReader.ReadThrough | lib/csv.c:45-57 | with all memory granted, reading any file below 2^63 bytes until there is no more row gives all its complete rows |
| CsvReader.RowDropped | lib/csv.c:45-57 | a file with one complete row that is not delivered because the entry buffer could not grow |
| CsvReader.RowsGrow | lib/csv.c:45-57 | reading on never changes the rows that are complete |
| Vfs.MatchPrefix | src/util.c:42-49 | gives what follows the prefix, or NULL iff it is none |
| Vfs.LookupFinds | src/vfs.c:33-46 | resolve0 finds the first existing path, newest mounts first and fewer rewritings first, or there is none |
| Vfs.LookupIsFirst | src/vfs.c:48-74 | vfs_resolve gives the first path that vfs_resolve_foreach reports, or the unchanged path |
| Vfs.ReportsExact | src/vfs.c:55-67 | exactly the existing paths that the mounts lead to are reported |
| Vfs.ReportsReached | src/vfs.c:33-67 | these are the existing paths that are reached by steps from mount path + x to mount target + x with ever older mounts |
| Vfs.OneMountRedirects | src/vfs.c:33-53 | with one mount, mount path + x resolves to mount target + x iff only the latter exists, and to itself otherwise |
| Vfs.NewestRedirects | src/vfs.c:33-53 | with any mounts below, the newest is used first |
| Vfs.OutsideMounts | src/vfs.c:33-53 | a path below no mount is left alone |
| Vfs.Overlay.MountAndResolve | src/vfs.c:21-53 | after vfs_mount, what does not exist below the root and the mount path is found below the target, absolute or below the root |
| Vfs.UntilExact | src/vfs.c:55-74 | the callback is called for the reports up to and with the first for which it says stop, or for all |
| Vfs.Overlay.Resolve0 | src/vfs.c:33-46 | the loop with its recursion computes Lookup0 |
| Vfs.Overlay.Resolve | src/vfs.c:48-53 | vfs_resolve computes Lookup |
| Vfs.Overlay.ResolveForeach0 | src/vfs.c:55-67 | the callback is called for the reported paths up to the first for which it says stop |
| Vfs.Overlay.ResolveForeach | src/vfs.c:69-74 | the same with the path itself in front |
| Unsolving.UnsolveIterates | src/vfs.c:76-87 | the loop with its recursion gives the path at which rewriting with the newest matching mount comes to an end |
| Unsolving.UnsolveIdempotent | src/vfs.c:76-87 | what vfs_unsolve returns has no mount target as a prefix, so a second vfs_unsolve leaves it alone |
| Unsolving.MoreFuel | src/vfs.c:76-87 | once vfs_unsolve ends, a larger bound on nested calls changes nothing |
| Unsolving.Unsolve | src/vfs.c:76-87 | the loop with its recursion computes Unsolved on every path on which it ends |
| Unsolving.UnsolveEnds | src/vfs.c:76-87 | it ends iff rewriting does not repeat itself: no path that a mount still matches, cut to the length of the longest mount target, comes back without the path having become shorter in between |
| Unsolving.DescendingEnds | src/vfs.c:76-87 | it ends on every path if the mounts can be ranked such that what a mount leads to is matched by a lower mount only, or the path gets shorter |
| Unsolving.ShorteningEnds | src/vfs.c:76-87 | in particular if each mount path is shorter than its target or can be matched by no mount |
| Unsolving.OneMountEnds | src/vfs.c:76-87 | with one mount it ends iff the path is not below the mount target or the mount is not |
| Unsolving.MountBelowItsTarget | src/vfs.c:76-87 | it never ends on a path below the target of the newest mount if that mount lies below its own target |
| Unsolving.SwappedMounts | src/vfs.c:20-31 | nor, whatever the root path, on two mounts that swap their prefixes, neither of which lies below its own target |
| Unsolving.UnsolveInverts | src/vfs.c:76-87 | with one mount, mount target + x is taken back to mount path + x iff that has no mount target as a prefix |
| Unsolving.MovedIs | src/vfs.c:76-87 | each rewriting takes the newest mount that matches, from mount target + x to mount path + x |

## Left out

- Unsolving.Unsolve: requires that it ends, which UnsolveEnds characterises; the bound on nested calls is ghost.
- TargetQueue.Queue.AdjustQueue: requires that the list has an end, as it then always has in a run (QueueUse.NeverLinkedTwice); priorities are unbounded integers.
- BuildEngine.Engine.RunBuild: takes a build as one pure function of the contents it may look at, without the queueing and waiting inside it, which SchedulerTheorems is about.
- BuildEngine.Engine.TargetUpdate: reads dependencies as finished; that the scheduler makes it so is proved in SchedulerTheorems, on its own state.
- CsvReader.CsvFile.Read: makes the callbacks of a chunk after it has been parsed rather than in between, which they cannot observe; I/O errors of fread are not modelled.
- Probing.ProbeReaches: takes addresses as unbounded; truncating the hash to int changes no slot number, as the table size divides 2^32.
- The priority queue of the scheduler is a set there; that targetqueue.c hands out a maximal element of that bag is proved separately.
- The branch of target_update that rebuilds a parent, and target_rebuild: it puts the target back to UNCHECKED and lets target_wait return before the target is finished.
- Meta and scan targets: meta targets propagate only changes of the current iteration, and the scan hash is an XOR of hashes, which different sets can share.
- Adding dependencies to a target after it was queued, and changing the declared graph between runs.
- File times of directories; SHA-256 and the mixing of the context name into the hash of a build function, which are taken to tell things apart.
- Cache stores, their files and version checks, the garbage collector, pthreads, and the liveness of condition variables: safety over steps is proved, and that a step is enabled, not that it is taken.
- Errors in build functions, signals and exit, running commands, options and all display code.
- Minilang, contexts, the methods of file targets, target lookup by name.
- csv_write2 and csv_fwrite2, which differ from the modelled writers in the quote character only; the setters of the parser; options changed in the middle of a file.
