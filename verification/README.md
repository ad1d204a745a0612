# Verification of the Singularity kernel's core

A Dafny model of the parts of the kernel whose correctness is a property of many steps taken
together, with proofs. Five groups are covered.

- **SMP scheduler.** `SchedulerProtocol` and `StaleWake` model the interleaving of any number of
  CPUs, one step per locked section or shared store. `RunQueue` and `Scheduler` model the
  runqueues, bitmap, counters and sleep lists as linked structures changed in place.
- **Allocators.** `Bits`, `Extents`, `Counting` and `FreeRuns` hold what they share. `PmmExtents`
  and `Pmm` are the physical memory manager, `MagazineProtocol` its per-CPU caches under
  interleaving, `VmArena` the heap's address arena, `SlabLists` and `SlabCache` the slab allocator
  on top of it.
- **Blocking primitives.** `WaitQueue`, the common protocol `Blocking` with its instances in
  `Primitives` and `Channel`, and the reader-writer lock in `RwLockProtocol` and `RwLock`.
- **Kernel objects.** `Handles`, the handle table under interleaving in `HandleProtocol` and its
  code in `HandleTable`; `Channel`; and the namespace: `Paths`, `Walks`, `Container`,
  `ObjectNamespace` and, under interleaving, `NamespaceProtocol`.
- **Storage.** `CacheLines`, the block cache under interleaving in `CacheProtocol` and its code in
  `DiskCache`, against plain disks; `NvmePrp` against the controller's walk of section 4.3 of the
  NVM Express 1.4 specification, and `NvmeTransfer` the calls that use it.

`Common` has the pointers and linked lists that they share.

Objects that the kernel updates in place are classes; their memory (tasks, slab headers, list
nodes) is a map from addresses to records, so that a store is an update of the map. Each locked
section is one method or one step. Where a call drops its lock between two sections there is a
protocol module: a state machine over the sections of any number of threads. The methods of
`HandleTable`, `DiskCache`, `RwLock`, `Primitives` and `Channel` are proved to take its steps;
contracts of whole calls with several sections speak of a call that runs alone. An outcome named
`panics` stops the kernel and one named `overrun` stores past an array; nothing is claimed after
either. Time, randomness, memory exhaustion, device failures and killed tasks are parameters.
Addresses, counts and clocks are unbounded integers except where a width matters: page counts of
the arena (32 bits), handle generations and rights (16), reference counts of frames (8, saturating
at 254), the rounding in `setupPRPs` and the offsets of `readBlock` (32), bit masks (64) and the
cache hash (32).

`dafny verify dfyconfig.toml` checks the project.

## Findings

Several properties hold only under a condition: an if-and-only-if with a guard on the state before
the step or call. Each has a failing case, named with it; the state it needs is reached by a run or
by calls from the start, except where the bullet says that no caller gets there.

- **Exclusion of two CPUs** rests on the CPU id that `sched_wake_task` reads before it takes the
  lock: `StaleWake.StaleWakeBreaksExclusion` against `SchedulerProtocol.NeverOnTwoCpus`. For a
  sleeping task the invariant survives the wake exactly if that id is still right
  (`StaleWake.FreshExactly`).
- **Lifetime of kernel objects.** `dup` and `alloc` publish a handle before its reference is
  counted. `HandleProtocol.DupWhileClosing` and `HandleProtocol.CloseBeforeCounted` end with a
  deleted object in use; `HandleProtocol.RunSafeExactly` says which runs stay safe, and
  `HandleProtocol.PoliteIsSafe` which discipline of the callers is enough.
- **`transfer`** keeps one reference too many on the object (`HandleTable.HandleTable.Transfer`), and
  in a full table can lose the slot it has freed (`HandleProtocol.TransferLosesSlot`,
  `HandleProtocol.FullTableReached`). The conservation law counts the references left behind.
- **Coherence of the block cache** is lost when calls on one block overlap
  (`CacheProtocol.TwoReaders`, `CacheProtocol.LateFill`, `CacheProtocol.TwoWriters`,
  `CacheProtocol.FillBeforeAround`) or a refused write has changed the block
  (`CacheProtocol.RefusedWrite`); `CacheProtocol.RunGoodExactly` has the condition and
  `CacheProtocol.PoliteIsGood` the discipline.
- **Frames in magazines** are lost when two calls on one CPU refill or flush its magazine
  (`MagazineProtocol.TwoRefills`, `MagazineProtocol.RunKeptExactly`), and the count underflows when
  another call takes the last frame of a refill (`MagazineProtocol.LastFrameTaken`,
  `MagazineProtocol.RunDrainsExactly`). Freeing a frame that is not held at count 1 through a
  magazine breaks the partition (`Pmm.Pmm.FreeFrame`, `Pmm.SharedFrameFreed`).
- **Boot information** is reserved by its size alone, so one that does not start on a page boundary
  can end in a frame that is free after boot: `Pmm.InfoSafeExactly` says exactly when,
  `Pmm.InfoSpilled` gives a case.
- **Wakeups** are lost if a woken task is killed, or a woken reader of a channel leaves with a buffer
  that is too small, before it retries: `Blocking.RunLosesExactly` over whole runs, with
  `Blocking.LostWakeupExample` and `Blocking.LostMessageExample`. The reader-writer lock loses a
  writer's wakeup the same way (`RwLockProtocol.RunLosesExactly`, `RwLockProtocol.LostWriterExample`).
  A close wakes only one reader (`Blocking.CloseStrands`, `Blocking.StrandedExample`).
- **`VmArena::alloc` and `alloc_aligned`** truncate page counts to 32 bits: `VmArena.Truncates` and
  `VmArena.Overflows` are exactly the families of requests that are granted past the end of the
  arena, and `VmArena.OverflowReached` reaches them. `free` runs past a full table
  (`VmArena.VmArena.FreeRun`), which `VmArena.FullTableReached` reaches.
- **NVMe pins.** After a failed allocation of a list the command is submitted all the same, without
  its list, and its whole buffer is unpinned (`NvmeTransfer.Round`, `NvmeTransfer.ReadBlock`,
  `NvmeTransfer.FailedExample`). Offsets in the buffer wrap past 4 GiB (`NvmeTransfer.OffsetsExact`).
- **`setupPRPs`** rounds up in 32 bits, which wraps if 2^32 - 4095 bytes or more are left after the
  first page, and then no list page is allocated at all (`NvmePrp.ListPagesExact`,
  `NvmePrp.WrapExample`). Its callers ask for at most 1 MiB and never get there
  (`NvmePrp.CallersNeverWrap`).

## Model

| member | source | states |
|---|---|---|
| `SchedulerProtocol.StepKeeps` | system/process/scheduler.c:154-672 | every step of every CPU (create, block, sleep, exit, enter schedule, pick, steal, scan, requeue, mark running, publish, pending hand-over, wake, tick) keeps the global invariant that gives each task exactly one place |
| `SchedulerProtocol.RunInv` | system/process/scheduler.c:154-672 | the invariant holds after every interleaving of steps of any number of CPUs |
| `SchedulerProtocol.NeverOnTwoCpus` | system/process/scheduler.c:556-643 | in every reachable state no non-idle task is `current_process` on two CPUs, even when it was woken before its own `schedule()` switched away |
| `SchedulerProtocol.NoTaskLostOrDuplicated` | system/process/scheduler.c:45-87 | in every reachable state each READY task is counted exactly once over all runqueues, just-picked slots and `pending_task` fields |
| `SchedulerProtocol.PinnedStaysHome` | system/process/scheduler.c:197-231 | a task with affinity k is only ever queued, asleep, pending or current on CPU k |
| `SchedulerProtocol.PendingEmptyOnEntry` | system/process/scheduler.c:556-581 | whenever a CPU is between switches its `pending_task` is empty, so the store in `schedule()` never overwrites one |
| `SchedulerProtocol.CommittedNotRunning` | system/process/scheduler.c:556-581 | a task that has blocked, slept or exited and has not left its CPU yet is not RUNNING, however early it was woken |
| `SchedulerProtocol.StepEffect` | system/process/scheduler.c:154-231 | what every step of every run does to the task it is about, in its fields: a woken BLOCKED or SLEEPING task is READY and queued on the CPU it was woken on, one that blocks, sleeps or exits is not queued, a pick leaves its queue, a pending task is queued by the CPU it left; no other task changes |
| `SchedulerProtocol.FieldsTellLists` | system/process/scheduler.c:45-141 | in every reachable state a task is on CPU c's runqueue, once, exactly if `is_queued` is set and its `cpu_id` is c, and on c's sleep list exactly if it is SLEEPING with that `cpu_id` |
| `SchedulerProtocol.ScanEffect` | system/process/scheduler.c:593-608 | one inspection: the pick is chosen exactly when no CPU is left, and rejected exactly when another CPU, the inspected one, runs it |
| `SchedulerProtocol.CreateStep` | system/process/process.c:331-386 | enqueueing a new task on any CPU its affinity allows keeps the invariant |
| `SchedulerProtocol.WakeStep` | system/process/scheduler.c:154-195 | a wake of a sleeping or blocked task keeps the invariant when the CPU id it read is still the task's |
| `SchedulerProtocol.EnterStep` | system/process/scheduler.c:556-581 | entering `schedule()` keeps the invariant: a preempted task becomes pending, a committed one is let go |
| `SchedulerProtocol.TakeStep` | system/process/scheduler.c:258-387 | a pick from the own queue, or a steal of a task whose affinity allows it, keeps the invariant |
| `SchedulerProtocol.ScanStep` | system/process/scheduler.c:593-608 | one comparison of the `active_elsewhere` scan keeps what the scan has established so far |
| `SchedulerProtocol.RequeueStep` | system/process/scheduler.c:610-613 | a pick that is active elsewhere goes back to a queue without being lost or duplicated |
| `SchedulerProtocol.MarkStep` | system/process/scheduler.c:633-634 | marking the chosen task RUNNING keeps the invariant |
| `SchedulerProtocol.PublishStep` | system/process/scheduler.c:643 | the store to `current_process` keeps the invariant |
| `SchedulerProtocol.PendingStep` | system/process/scheduler.c:491-507 | `check_pending_task` turns the pending task into a queued one and nothing else |
| `StaleWake.StaleWakeBreaksExclusion` | system/process/scheduler.c:154-195 | without a current CPU id the property fails: a concrete two-CPU run in which the unlocked read of `cpu_id` is stale for a SLEEPING task ends with one task current on both CPUs |
| `StaleWake.FreshExactly` | system/process/scheduler.c:154-195 | waking a sleeping task keeps every task in exactly one place if and only if the CPU id read before the lock is still the task's |
| `RunQueue.EnqueueKeeps` | system/process/scheduler.c:45-87 | appending to the list of the clamped priority keeps every doubly linked list, bit, counter, time stamp order and queued flag right on all CPUs |
| `RunQueue.RemoveKeeps` | system/process/scheduler.c:100-141 | unlinking a queued task keeps all of these; the bit is cleared exactly when the list became empty and the counter stays the sum of lengths |
| `RunQueue.SleepKeeps` | system/process/scheduler.c:197-231 | pushing a task on the sleep list keeps all of these |
| `RunQueue.WakeKeeps` | system/process/scheduler.c:154-195 | taking a sleeper off its list keeps all of these |
| `RunQueue.OffListKeeps` | system/process/scheduler.c:464-489 | changing state, CPU or priority of a task on no list keeps all of these |
| `RunQueue.AdoptKeeps` | system/process/process.c:288-342 | so does a new task that is on no list |
| `RunQueue.StateKeeps` | system/process/scheduler.c:154-195 | so does making a blocked task READY, even one that is still queued |
| `RunQueue.EntriesApart` | system/process/scheduler.c:100-141 | no task occurs twice on a runqueue |
| `RunQueue.StampsAscend` | system/process/scheduler.c:64-81 | `last_queued` is non-decreasing along every runqueue |
| `RunQueue.Clamp` | system/process/scheduler.c:57-62 | priorities 0 to 5 have their own list and all above share list 5 |
| `Scheduler.HeadWaitsLongest` | system/process/scheduler.c:269-286 | so a list holds a task that has waited over 1250 ticks exactly if its head has, and the head has waited longest |
| `Scheduler.OldestFirst` | system/process/scheduler.c:269-286 | the first of a list has the oldest time stamp of it |
| `Scheduler.ChooseList` | system/process/scheduler.c:269-290 | the bitmap loops find the lowest priority that holds a starved task, else the highest non-empty one |
| `Scheduler.PickMeans` | system/process/scheduler.c:258-312 | the rule over lists, said of task fields: without an overdue task, no task queued on the CPU has a higher min(priority, 5) than the pick; with one, the pick is overdue and no overdue task has a lower one; of equals it has waited longest |
| `Scheduler.TailMeans` | system/process/scheduler.c:365-382 | the same for the steal: no task queued on the victim has a higher min(priority, 5), and of equals none was queued later |
| `Scheduler.NoneQueued` | system/process/scheduler.c:258-312 | all lists of a CPU are empty exactly if no task is queued on it |
| `Scheduler.DueExactly` | system/process/scheduler.c:738-756 | the woken sleepers are exactly those whose wake tick has come, the others stay, and together they are the list |
| `Scheduler.StepOf` | system/process/scheduler.c:293-300 | the charge of a priority: 17066, 20480, 25600, 34133, 51200 and 102400 for lists 0 to 5 |
| `Scheduler.Lowest` | system/process/scheduler.c:271-273 | the count-trailing-zeros pick: the least set bit |
| `Scheduler.Highest` | system/process/scheduler.c:288 | the count-leading-zeros pick: the greatest set bit |
| `Scheduler.EnqueueStores` | system/process/scheduler.c:64-81 | the link stores of the enqueue give the tasks and list head the appended list calls for |
| `Scheduler.RemoveStores` | system/process/scheduler.c:100-141 | the link stores of the removal give those the shortened list calls for |
| `Scheduler.UnlinkSleeper` | system/process/scheduler.c:165-182 | the walk of the sleep list finds the task and unlinks exactly it |
| `Scheduler.HighestTail` | system/process/scheduler.c:367-370 | the tail of the highest non-empty list is its last task, which occurs there once |
| `Scheduler.Scheduler.Adopt` | system/process/process.c:288-342 | a new task enters READY, on no list, with its priority, affinity and CPU; every list stays right |
| `Scheduler.Scheduler.EnqueueLocked` | system/process/scheduler.c:45-87 | unless the task is already queued it becomes the last of list min(priority, 5) of the CPU, with its stamp, CPU, priority and affinity, and its virtual runtime raised to the queue's minimum; all lists, bits and counters stay right |
| `Scheduler.Scheduler.RemoveLocked` | system/process/scheduler.c:100-141 | removes the task from the list its `cpu_id` and clamped priority name; the counter was positive, so the underflow branch is dead |
| `Scheduler.Scheduler.SleepCurrent` | system/process/scheduler.c:197-231 | the task leaves the runqueue it may still be on and becomes the first of its CPU's sleep list; the wake tick saturates |
| `Scheduler.Scheduler.WakeTask` | system/process/scheduler.c:154-195 | a sleeping or blocked task ends READY and queued on its CPU with its wake tick cleared, and on no sleep list; a queued one stays where it is; other states are ignored; no other task changes but for links |
| `Scheduler.Scheduler.WakeSleeper` | system/process/scheduler.c:154-195 | the sleeping case: exactly that task leaves the sleep list for the end of its run list |
| `Scheduler.Scheduler.WakeBlocked` | system/process/scheduler.c:154-195 | the blocked case |
| `Scheduler.Scheduler.PickLocal` | system/process/scheduler.c:258-312 | null exactly if no task is queued on the CPU; otherwise, over task fields: without a task that has waited over 1250 ticks the pick has the highest min(priority, 5), with one it is the longest-waiting such task of the lowest; it leaves its list and is charged by its priority unless it was overdue |
| `Scheduler.Scheduler.Charge` | system/process/scheduler.c:293-305 | the task's virtual runtime grows by the step; the queue's minimum becomes the larger of the two and nothing else changes |
| `Scheduler.Scheduler.StealFrom` | system/process/scheduler.c:365-382 | takes the tail of the victim's highest non-empty list if its affinity allows the thief, and null exactly if there is no such task; over task fields: none queued there has a higher min(priority, 5) |
| `Scheduler.Scheduler.Tick` | system/process/scheduler.c:738-756 | exactly the sleepers whose wake tick has come are queued on the CPU, in list order, and the others stay asleep in order |
| `Scheduler.Scheduler.SetState` | system/process/scheduler.c:633-634 | the state and CPU stores into a task on no list keep every list right |
| `Scheduler.Scheduler.SetPriority` | system/process/scheduler.c:464-489 | the priority store into a task that is not queued keeps every list right |
| `Bits.MaskLowIs` | archs/memory/kheap_slab.cpp:20 | x & ~(a - 1), bit by bit, is x rounded down to a multiple of the power of two a |
| `Bits.AlignUpIs` | archs/memory/kheap_slab.cpp:20 | ALIGN_UP gives a multiple of a in [x, x + a) |
| `Bits.AlignUpIsLeast` | rust_core/src/memory/pmm.rs:199-204 | and the least multiple that is not below x |
| `Bits.AlignUpScales` | archs/memory/kheap_slab.cpp:95-103 | aligning addresses to whole pages is aligning page numbers |
| `Extents.CanonicalUnique` | rust_core/src/memory/pmm.rs:126-162 | a set of free frames has exactly one sorted, disjoint, maximally coalesced extent array |
| `Extents.RunInOne` | rust_core/src/memory/pmm.rs:199-244 | in such an array every run of free frames lies inside one extent |
| `Extents.FreedIs` | rust_core/src/memory/pmm.rs:126-162 | inserting an uncovered run and merging left to right is canonical again, covers exactly the run in addition and adds at most one extent |
| `Extents.CoalescedIs` | rust_core/src/memory/pmm.rs:150-161 | merging adjacent neighbours of an ascending array makes it canonical |
| `Extents.CoalescedCovers` | rust_core/src/memory/pmm.rs:150-161 | merging keeps exactly what is covered |
| `Extents.CoalescedSize` | rust_core/src/memory/pmm.rs:150-161 | merging keeps the number of covered units |
| `Extents.RemovedIs` | rust_core/src/memory/pmm.rs:230-233 | dropping an extent uncovers exactly its units |
| `FreeRuns.NoAlignedRun` | rust_core/src/memory/pmm.rs:199-244 | if no extent fits the least aligned start, no aligned run of free units exists anywhere |
| `FreeRuns.CarveIs` | rust_core/src/memory/pmm.rs:225-239 | removing an extent and freeing both leftovers takes exactly the returned run out |
| `FreeRuns.InsertAt` | archs/memory/kheap_slab.cpp:42-46 | the shift loop inserts at the index and moves the rest up by one |
| `FreeRuns.RemoveExtent` | archs/memory/kheap_slab.cpp:48-51 | the shift loop removes the entry at the index |
| `PmmExtents.FindSlot` | rust_core/src/memory/pmm.rs:129-135 | the search loop finds the slot that keeps the array sorted |
| `PmmExtents.CompactExtents` | rust_core/src/memory/pmm.rs:150-161 | the in-place compaction is the left-to-right merge |
| `PmmExtents.CutToIs` | rust_core/src/memory/pmm.rs:164-197 | cutting a region out of a canonical array leaves it canonical and uncovers exactly the region |
| `PmmExtents.SplitOnce` | rust_core/src/memory/pmm.rs:171-186 | at most one extent is split by a reservation, so the array grows by at most one |
| `PmmExtents.CutAll` | rust_core/src/memory/pmm.rs:164-197 | the rebuild loop of the reservation computes that cut, as far as the new array has room |
| `PmmExtents.KeptIs` | rust_core/src/memory/pmm.rs:171-196 | a reservation takes exactly the region out if and only if the array has room: it loses more exactly if it is full and an extent is split |
| `PmmExtents.ExtentTable.FreeRegion` | rust_core/src/memory/pmm.rs:126-162 | after freeing a run of frames that were not free, exactly those are free in addition, and the array is sorted, disjoint and coalesced; a full array, and nothing else, stops the kernel |
| `PmmExtents.ExtentTable.FindFit` | rust_core/src/memory/pmm.rs:199-224 | the search returns the first fitting extent and its least aligned start; with no preferred node it fails only if no aligned run exists |
| `PmmExtents.ExtentTable.Carve` | rust_core/src/memory/pmm.rs:225-239 | removes exactly the run from the free frames; it can stop the kernel only for a run out of the middle and a full array |
| `PmmExtents.ExtentTable.AllocContiguous` | rust_core/src/memory/pmm.rs:199-244 | removes exactly the aligned run it returns; with no preferred node it returns None if and only if no aligned run of that many free frames exists anywhere; only a full array can stop the kernel |
| `PmmExtents.ExtentTable.ReserveRegion` | rust_core/src/memory/pmm.rs:164-197 | exactly the frames of the region stop being free, if and only if the array is not full or no extent is split; otherwise the last extent is lost too |
| `Pmm.TakeRun` | rust_core/src/memory/pmm.rs:473-488 | moving a free run to a client keeps the partition of frames into extents, magazines, clients and reserved |
| `Pmm.GiveRun` | rust_core/src/memory/pmm.rs:399-418 | giving a run back keeps it |
| `Pmm.PushFrame` | rust_core/src/memory/pmm.rs:375-383 | putting a held frame of count 1 into a magazine keeps it |
| `Pmm.PopFrame` | rust_core/src/memory/pmm.rs:342-348 | taking the top frame of a magazine keeps it, and that frame is never frame 0 |
| `Pmm.UsedIsHeldOrReserved` | rust_core/src/memory/pmm.rs:578-588 | used frames less cached ones are exactly, in number, the frames that clients hold or that are reserved |
| `Pmm.FreeUsable` | rust_core/src/memory/pmm.rs:254-278 | the walk over the memory map frees exactly the usable entries' frames and bounds them all |
| `Pmm.FillCounts` | rust_core/src/memory/pmm.rs:294-305 | reference counts are 0 exactly on the extents and the sum of extents is the number of free frames |
| `Pmm.Pmm.constructor` | rust_core/src/memory/pmm.rs:246-310 | after initialisation exactly the usable frames outside the boot reservations are free, all others reserved, all counters right; over bytes: no byte below the kernel's end and none of the counts is in a free frame, and the counts start at the least page boundary not below the kernel's end and the end of the boot information |
| `Pmm.BootSafe` | rust_core/src/memory/pmm.rs:246-310 | over bytes: nothing below the kernel's end and no byte of the reference counts is in a free frame |
| `Pmm.InfoSafeExactly` | rust_core/src/memory/pmm.rs:281-292 | no byte of the boot information is in a free frame if and only if it does not spill over the frames counted from its size into a usable frame above the kernel |
| `Pmm.InfoSpilled` | rust_core/src/memory/pmm.rs:281-292 | the failing case: boot information of 4096 bytes that starts half-way through a frame ends in a frame that is free after boot |
| `Pmm.FreeIsUsable` | rust_core/src/memory/pmm.rs:246-310 | a free frame consists of usable bytes, and every whole frame of a page-aligned usable entry above the counts is free |
| `Pmm.TopIs` | rust_core/src/memory/pmm.rs:251-278 | the number of frames comes from the highest end of any entry |
| `Pmm.Pmm.Refill` | rust_core/src/memory/pmm.rs:528-555 | whatever is loaded moves from the extents to the magazine; the magazine ends full or nothing is left free, and nothing is loaded only when no frame was free |
| `Pmm.Pmm.NodeOrder` | rust_core/src/memory/pmm.rs:313-318 | the search order starts with the preferred node and names every node |
| `Pmm.Pmm.AllocFromNode` | rust_core/src/memory/pmm.rs:312-336 | whatever the node preferences, it fails exactly when nothing is free; the frame it returns was with the allocator and nobody else notices |
| `Pmm.Pmm.AllocFrame` | rust_core/src/memory/pmm.rs:338-366 | the frame returned was held by no client; it fails exactly when this CPU's magazine and the whole extent array are empty |
| `Pmm.Pmm.AllocContiguousAligned` | rust_core/src/memory/pmm.rs:473-489 | a whole aligned run that nobody held; null exactly when the count is 0 or no aligned run of free frames exists; only a full extent array can stop the kernel |
| `Pmm.Pmm.IncRef` | rust_core/src/memory/pmm.rs:420-433 | one count more below the saturation value 254, nothing for null, out-of-range and reserved frames; the allocator's invariant survives if and only if the frame is not free and not in a magazine |
| `Pmm.Pmm.FreeFrameLocked` | rust_core/src/memory/pmm.rs:399-418 | one count less, free again exactly at zero; it stops the kernel exactly for a free or reserved frame or a last reference with a full extent array; a frame in a magazine breaks the partition |
| `Pmm.Pmm.DecRef` | rust_core/src/memory/pmm.rs:435-455 | as above, but a reserved frame is left alone |
| `Pmm.Pmm.Flush` | rust_core/src/memory/pmm.rs:557-571 | every frame of the magazine goes to the extents, no client notices; it can stop the kernel only if the extent array has no room for so many |
| `Pmm.Pmm.FreeFrame` | rust_core/src/memory/pmm.rs:368-397 | a frame held at count 1 leaves its owner for the magazine, a full magazine being flushed first, and no other client notices; freeing any other frame through a magazine breaks the partition |
| `Pmm.Pmm.FreeContiguous` | rust_core/src/memory/pmm.rs:491-526 | every existing frame of the run loses one count and exactly those at count 1 become free, although insertions are deferred and batched; a frame of a magazine among them breaks the partition; it stops the kernel if one of them is free or reserved, and otherwise only if the extent array has no room |
| `Pmm.SharedFrameFreed` | rust_core/src/memory/pmm.rs:369-397 | the failing case is reachable: boot, allocate a frame, count a second reference, free it through a magazine, and no ownership agrees with the counts |
| `MagazineProtocol.StepPlaces` | rust_core/src/memory/pmm.rs:339-397 | with the magazine's lock dropped between the parts of a call: a step takes out of all places exactly the frames it overwrites |
| `MagazineProtocol.KeptExactly` | rust_core/src/memory/pmm.rs:528-571 | no step puts a frame in two places, and a step keeps every frame if and only if the magazine it takes to be empty is empty |
| `MagazineProtocol.RunKeptExactly` | rust_core/src/memory/pmm.rs:339-397 | over every interleaving, with moves past the magazines, no frame is ever in two places, and all are still there if and only if no refill and no flush overwrote a filled magazine |
| `MagazineProtocol.RunDrainsExactly` | rust_core/src/memory/pmm.rs:351-357 | over every interleaving `count` is never about to underflow if and only if no step empties a magazine that another call has refilled and not popped yet |
| `MagazineProtocol.PoliteKeepsAll` | rust_core/src/memory/pmm.rs:339-397 | if calls on one CPU's magazine take turns no frame is ever lost and `count` never underflows |
| `MagazineProtocol.TwoRefills` | rust_core/src/memory/pmm.rs:349-357 | the failing run: two callers find the magazine empty, both refill, and the frames of the first refill are in no place any more |
| `MagazineProtocol.LastFrameTaken` | rust_core/src/memory/pmm.rs:351-357 | and another: the only frame of a refill is popped by a second caller before the first, whose decrement would underflow |
| `VmArena.LowerBound` | archs/memory/kheap_slab.cpp:33-40 | the binary search splits the table at the page |
| `VmArena.CoalesceAroundIs` | archs/memory/kheap_slab.cpp:53-72 | merging around the one inserted region restores maximal coalescing and keeps what is covered |
| `VmArena.InsertCoalesced` | archs/memory/kheap_slab.cpp:146-158 | inserting and merging around makes exactly the region free in addition |
| `VmArena.NothingToCoalesce` | archs/memory/kheap_slab.cpp:148-150 | the forced coalescing of a nearly full table is a no-op |
| `VmArena.Coalesce` | archs/memory/kheap_slab.cpp:53-72 | the in-place merges compute that result |
| `VmArena.FreeAt` | archs/memory/kheap_slab.cpp:154-157 | search, insert and merge together free exactly the region |
| `VmArena.SplitArray` | archs/memory/kheap_slab.cpp:106-118 | what a split leaves in the table: the part below and, if there is room for it, the part above |
| `VmArena.RemainsIs` | archs/memory/kheap_slab.cpp:106-118 | a region that gives up a run loses exactly that run, plus the upper part when the table is full |
| `VmArena.TakeKeeps` | archs/memory/kheap_slab.cpp:74-144 | moving free pages to live or dropped keeps [start, watermark) partitioned into free, live and dropped pages |
| `VmArena.TailKeeps` | archs/memory/kheap_slab.cpp:122-143 | so does moving the watermark up over a gap and a run |
| `VmArena.FreeKeeps` | archs/memory/kheap_slab.cpp:146-158 | so does freeing a live run |
| `VmArena.AlignPagesIs` | archs/memory/kheap_slab.cpp:97-101 | the byte-wise ALIGN_UP of page addresses is the least aligned page |
| `VmArena.VmArena.constructor` | archs/memory/kheap_slab.cpp:28-31 | a new arena has no free, live or dropped page |
| `VmArena.VmArena.Alloc` | archs/memory/kheap_slab.cpp:74-93 | a request that does not overflow gets pages that were not live and none is dropped; null only if no free region and no tail space can hold it. The 32-bit truncation of the page count makes exactly the requests of `Truncates` end past the arena |
| `VmArena.VmArena.TakeFront` | archs/memory/kheap_slab.cpp:77-80 | the stores into the region that alloc found, in the source's widths |
| `VmArena.VmArena.FindAligned` | archs/memory/kheap_slab.cpp:95-106 | the first region whose least aligned page leaves room; none only if no aligned run of free pages exists |
| `VmArena.VmArena.AllocAligned` | archs/memory/kheap_slab.cpp:95-144 | a request that does not overflow gets an aligned run inside the arena, disjoint from every live page, and null if and only if no free region and no tail space can hold an aligned run; pages are dropped only when the 512-entry table is full. The requests of `Overflows`, and no others, are granted past the end of the arena |
| `VmArena.OverflowReached` | archs/memory/kheap_slab.cpp:74-144 | the overflow is reachable: an arena in a right state in which 2^32 pages satisfy both `Truncates` and `Overflows` |
| `VmArena.FullTableReached` | archs/memory/kheap_slab.cpp:146-158 | a full table is reachable: an arena in a right state with all 512 entries in use and a live page to free |
| `VmArena.PassHasRun` | archs/memory/kheap_slab.cpp:95-106 | a region that passes the 32-bit test without wrapping does hold an aligned run |
| `VmArena.KeepGap` | archs/memory/kheap_slab.cpp:106-118 | the insertion of the upper part puts it right after the part below, or drops it if the table is full |
| `VmArena.SmallNeverOverflows` | archs/memory/kheap_slab.cpp:95-144 | no request that stays within 2^32 pages together with its alignment overflows, whatever the arena holds |
| `VmArena.VmArena.FreeRun` | archs/memory/kheap_slab.cpp:146-158 | exactly the pages of the live run become free and nothing is dropped; with a full table, and only then, the insertion would run past its end |
| `SlabLists.RemoveKeeps` | archs/memory/kheap_slab.cpp:168-172 | removing a slab keeps all three doubly linked lists well formed and touches no other part of a header |
| `SlabLists.AddKeeps` | archs/memory/kheap_slab.cpp:174-178 | so does adding a slab in front |
| `SlabLists.RemoveStores` | archs/memory/kheap_slab.cpp:168-172 | the stores of the removal |
| `SlabCache.MaskFindsSlab` | archs/memory/kheap_slab.cpp:332-335 | masking any object's address gives its slab, because the slab is aligned to its size |
| `SlabCache.ObjectsApart` | archs/memory/kheap_slab.cpp:253-262 | objects of the same or of different slabs overlap only if they are the same object |
| `SlabCache.HeaderApart` | archs/memory/kheap_slab.cpp:253-262 | no object overlaps any slab header |
| `SlabCache.DataStart` | archs/memory/kheap_slab.cpp:253 | the first object starts right after the 48-byte header |
| `SlabCache.AllFree` | archs/memory/kheap_slab.cpp:358-363 | a slab with used count 0 has every one of its objects on the free list |
| `SlabCache.LiveUsed` | archs/memory/kheap_slab.cpp:327-367 | a live object's slab has a positive used count |
| `SlabCache.PopKeeps` | archs/memory/kheap_slab.cpp:301-313 | taking the first free object keeps every free list exact: total - used distinct objects of that slab, and the object was not live |
| `SlabCache.PushKeeps` | archs/memory/kheap_slab.cpp:347-349 | putting a live object back keeps them too |
| `SlabCache.InsideSlab` | archs/memory/kheap_slab.cpp:302-310 | the corruption test of alloc never fires |
| `SlabCache.ThreadObjects` | archs/memory/kheap_slab.cpp:256-262 | the loop threads the free list through the objects in address order and touches no other word |
| `SlabCache.SlabCache.constructor` | archs/memory/kheap_slab.cpp:160-166 | object size is the request plus 24 bytes rounded up to 16 |
| `SlabLists.SlabLists.Remove` | archs/memory/kheap_slab.cpp:168-172 | a slab leaves its list, at whatever position; only that slab changes place |
| `SlabLists.SlabLists.Add` | archs/memory/kheap_slab.cpp:174-178 | a slab becomes the front of a list; only that slab changes place |
| `SlabCache.SlabObjects.Pop` | archs/memory/kheap_slab.cpp:301-313 | the first free object of the slab becomes live; its list is empty afterwards exactly if the slab is full |
| `SlabCache.SlabObjects.Push` | archs/memory/kheap_slab.cpp:347-349 | the object goes to the front of its slab's free list and stops being live |
| `SlabCache.SlabObjects.SlabFor` | archs/memory/kheap_slab.cpp:332-342 | masking a live object's address finds its slab, whose used count is positive |
| `SlabCache.SlabObjects.Fill` | archs/memory/kheap_slab.cpp:249-262 | a new slab has all its objects free |
| `SlabCache.SlabCache.CreateSlab` | archs/memory/kheap_slab.cpp:195-266 | a new slab at an address no slab uses, aligned and backed by live arena pages, all objects free; null if and only if the arena has no aligned run or the frames cannot be mapped, and then nothing has changed; only giving back pages to a full arena table runs past it |
| `SlabCache.SlabCache.FreeSlab` | archs/memory/kheap_slab.cpp:180-193 | the slab's pages go back to the arena and the other slabs stay backed; it runs past the arena's table exactly if that is full |
| `SlabCache.SlabCache.AllocFast` | archs/memory/kheap_slab.cpp:268-278 | an object that was not live, from the first partial or else first empty slab; it gives up exactly if there is neither; each slab is on the list its used count dictates |
| `SlabCache.SlabCache.ListsTell` | archs/memory/kheap_slab.cpp:268-379 | a slab is on the empty list exactly if none of its objects is in use, on the full list exactly if all are, and on the partial list otherwise |
| `SlabCache.UnusedExactly` | archs/memory/kheap_slab.cpp:358-363 | a slab's used count is 0 exactly if none of its objects is in use |
| `SlabCache.UsedUpExactly` | archs/memory/kheap_slab.cpp:311-323 | and its capacity exactly if all of them are |
| `SlabCache.SlabCache.AllocSlow` | archs/memory/kheap_slab.cpp:280-325 | after createSlab: if another thread has filled the partial list meanwhile the new slab is given back and that list is used, else the new slab is; only giving back with a full arena table runs past it |
| `SlabCache.SlabCache.Alloc` | archs/memory/kheap_slab.cpp:268-325 | an object that was not live; null if and only if there is neither a partial nor an empty slab and no new one can be made |
| `SlabCache.SlabCache.Lookup` | archs/memory/kheap_slab.cpp:332-345 | free finds the object's slab and the list it is on; the rejection test passes |
| `SlabCache.SlabCache.Free` | archs/memory/kheap_slab.cpp:327-367 | exactly that object stops being live and its slab moves to the list its count now dictates |
| `SlabCache.SlabCache.Trim` | archs/memory/kheap_slab.cpp:369-379 | exactly the empty slabs go, and exactly their pages go back to the arena; no live object is touched; it can run past the arena's table only without entries for all of them |
| `SlabCache.SlabObjects.ClientStore` | archs/memory/kheap.cpp:305-309 | the header that malloc stores into an object it has just been given disturbs no free list, although it overwrites the link word |
| `WaitQueue.DeadPrefixIs` | system/process/process.c:78-98 | what a pop skips: exactly the dead tasks in front of the first live one |
| `WaitQueue.WaitQueue.Push` | system/process/process.c:53-68 | the task becomes the last of the queue |
| `WaitQueue.WaitQueue.PopSafe` | system/process/process.c:70-105 | the first live task, with every dead task before it removed and counted |
| `Blocking.PostWakesFirst` | system/process/process.c:70-105 | a release wakes the live task that has waited longest and drops only dead ones; without a live one it wakes nobody and empties the queue |
| `Blocking.StepKeeps` | system/sync/mutex.cpp:36-134 | every step keeps: while a live task waits, permits do not exceed woken tasks still to retry |
| `Blocking.RunInv` | system/sync/mutex.cpp:36-134 | this holds after every run in which no woken task is killed or leaves before it retries |
| `Blocking.PermitsCounted` | system/sync/mutex.cpp:94-134 | over every run a semaphore's count, a port's packets and an inbox's messages are the initial number plus the posts less the successful attempts |
| `Blocking.AttemptExactly` | system/sync/mutex.cpp:36-118 | an attempt waits, as the last of the queue, exactly if nothing is there to get; a mutex is free and an event signalled after a post, and neither after a successful attempt |
| `Blocking.NoLostWakeup` | system/sync/mutex.cpp:94-134 | a semaphore, port or channel with a live waiter never has more permits, packets or messages than woken waiters |
| `Blocking.SomeoneIsComing` | system/sync/mutex.cpp:36-76 | an unlocked mutex or signalled auto-reset event with a live waiter has a live woken waiter on its way |
| `Blocking.KillingWokenLoses` | system/process/process.c:70-105 | killing a woken task loses a wakeup exactly if a live task waits and the permits had just enough woken tasks |
| `Blocking.LostWakeupExample` | system/sync/mutex.cpp:36-76 | and that run exists: a free mutex, a live waiter and nobody coming |
| `Blocking.LeavingLoses` | archs/kom/common/kchannel.cpp:164-170 | a woken reader that leaves because its buffer is too small loses a wakeup exactly if a live reader waits and the messages had just enough woken readers |
| `Blocking.LostMessageExample` | archs/kom/common/kchannel.cpp:132-170 | and that run exists: a message in the inbox, a live reader asleep and nobody coming |
| `Blocking.RunLosesExactly` | system/process/process.c:70-105 | over every run, whoever is killed or leaves: no state has lost a wakeup if and only if no step kills, or lets go, a woken task while a live one waits and the permits had just enough woken tasks |
| `Blocking.CloseStrands` | archs/kom/common/kchannel.cpp:64-75 | closing wakes one reader of the peer, so a live one stays asleep exactly if two were waiting |
| `Blocking.StrandedExample` | archs/kom/common/kchannel.cpp:64-75 | and that run exists: two readers wait, the peer closes, one of them sleeps on |
| `Blocking.NoneLostNow` | system/sync/mutex.cpp:36-134 | an object whose state follows a run without such steps has lost no wakeup |
| `Primitives.NativeMutex.constructor` | system/sync/mutex.cpp:20-28 | a new mutex is the start of a run |
| `Primitives.NativeMutex.LockOnce` | system/sync/mutex.cpp:41-60 | one round of the lock loop is an attempt step of the object's run; on success the caller is the only holder |
| `Primitives.NativeMutex.Unlock` | system/sync/mutex.cpp:63-76 | the mutex is free and the live task that has waited longest is woken, a post step of the object's run |
| `Primitives.NativeSemaphore.WaitOnce` | system/sync/mutex.cpp:99-118 | one permit less exactly if it succeeds, else the caller is the last waiter; an attempt step of the object's run |
| `Primitives.NativeSemaphore.Signal` | system/sync/mutex.cpp:121-134 | one permit more, and the live task that has waited longest is woken; a post step of the object's run |
| `Primitives.KPort.Queue` | archs/kom/common/kport.cpp:32-60 | appends the packet and is a post step; a missing packet or no memory changes nothing |
| `Primitives.KPort.WaitOnce` | archs/kom/common/kport.cpp:62-96 | takes the oldest packet or waits, an attempt step |
| `Primitives.KEvent.WaitOnce` | archs/kom/common/kevent.cpp:12-35 | an attempt step in auto-reset mode; a manual event stays signalled |
| `Primitives.KEvent.Signal` | archs/kom/common/kevent.cpp:37-46 | the event is signalled; a post step of the object's run |
| `Primitives.KEvent.Reset` | archs/kom/common/kevent.cpp:48-52 | is the reset step |
| `RwLockProtocol.StepKeeps` | system/sync/rwlock.cpp:42-224 | every section keeps the counts and the exclusion |
| `RwLockProtocol.RunInv` | system/sync/rwlock.cpp:42-224 | they hold after every run in which only holders release |
| `RwLockProtocol.WriterExcludes` | system/sync/rwlock.cpp:134-182 | while a task holds the lock for writing it is the only writer and there is no reader |
| `RwLockProtocol.ReadersCounted` | system/sync/rwlock.cpp:42-132 | `readers` is the number of read holds and at most 1024 |
| `RwLockProtocol.ReaderEnters` | system/sync/rwlock.cpp:50-90 | over every run a reader enters exactly if nobody holds the lock for writing, no writer is queued and fewer than 1024 read; otherwise it is the last of the read queue |
| `RwLockProtocol.WriterEnters` | system/sync/rwlock.cpp:142-181 | a writer enters exactly if nobody holds the lock; otherwise it is the last of the write queue |
| `RwLockProtocol.ReadReleased` | system/sync/rwlock.cpp:93-132 | a reader's release takes one hold, and hands the lock on exactly with the last: to the live writer that has waited longest, or to all readers |
| `RwLockProtocol.WriteReleased` | system/sync/rwlock.cpp:184-213 | a writer's release always hands the lock on |
| `RwLockProtocol.WaitersCounted` | system/sync/rwlock.cpp:93-224 | `write_waiters` is the length of `write_q`, dead waiters included |
| `RwLockProtocol.ClampDead` | system/sync/rwlock.cpp:111-121 | a pop removes from the queue as many entries as it counts |
| `RwLockProtocol.GuardsDead` | system/sync/rwlock.cpp:103-121 | so the underflow panic and the clamp of the counter are unreachable |
| `RwLockProtocol.LosesExactly` | system/sync/rwlock.cpp:93-224 | a step keeps a woken writer on its way to a free lock with a live queued writer if and only if it does not kill the only one |
| `RwLockProtocol.RunLosesExactly` | system/sync/rwlock.cpp:93-224 | so over every run no wakeup of a writer is lost if and only if no step does that |
| `RwLockProtocol.LostWriterExample` | system/sync/rwlock.cpp:184-213 | and that run exists: the lock is free, a live writer sleeps and nobody is coming |
| `RwLock.NativeRwLock.AcquireReadOnce` | system/sync/rwlock.cpp:50-90 | one round of the read loop is the protocol's step |
| `RwLock.NativeRwLock.ReleaseRead` | system/sync/rwlock.cpp:93-132 | is the protocol's step; the last reader wakes the first live writer |
| `RwLock.NativeRwLock.AcquireWriteOnce` | system/sync/rwlock.cpp:142-181 | one round of the write loop is the protocol's step |
| `RwLock.NativeRwLock.ReleaseWrite` | system/sync/rwlock.cpp:184-213 | is the protocol's step; readers are woken only if no writer waits |
| `RwLock.NativeRwLock.WakeReaders` | system/sync/rwlock.cpp:214-223 | the loop wakes every live reader of the queue, in order |
| `Handles.MakeParts` | archs/kom/common/handle.cpp:61-62 | a handle value carries rights, generation and index intact and is never 0 |
| `Handles.HandlesDistinct` | archs/kom/common/handle.cpp:42-63 | handles of different slots are different values |
| `Handles.PartsMake` | archs/kom/common/handle.cpp:61-62 | every 64-bit handle value is made of its rights above bit 48, its generation above bit 32 and its index |
| `Handles.AllowsExactly` | archs/kom/common/handle.cpp:68-83 | the mask test holds exactly if each of the 16 rights asked for is one of those given |
| `Handles.AllowsTransitive` | archs/kom/common/handle.cpp:93-117 | rights only shrink along a chain of grants, which with `AllowsExactly` is said bit by bit |
| `Handles.NoRightAppears` | archs/kom/common/handle.cpp:93-117 | bit by bit, an entry has no right that was not granted when its object first got a handle |
| `Handles.NextGenIs` | archs/kom/common/handle.cpp:140-141 | the 16-bit increment that skips 0 walks through 65535 generations |
| `Handles.StaleUntilWrap` | archs/kom/common/handle.cpp:140-141 | a generation recurs exactly after a multiple of 65535 retirements |
| `Handles.StaleHandle` | archs/kom/common/handle.cpp:65-80 | a handle whose slot was retired since matches again only after 65535 retirements, and then it does |
| `Handles.FreeListFits` | archs/kom/common/handle.cpp:142 | the free list never overflows its array |
| `Handles.UseSlot` | archs/kom/common/handle.cpp:51-56 | putting a slot to use keeps: the free list holds each unused index exactly once |
| `Handles.RetireSlot` | archs/kom/common/handle.cpp:138-142 | so does retiring it |
| `Handles.NewHandle` | archs/kom/common/handle.cpp:51-62 | the handle made of an unused slot matches once the slot is used and did not before |
| `HandleProtocol.StepKeeps` | archs/kom/common/handle.cpp:8-179 | each locked section and each reference count operation, in any thread, keeps the table and the conservation law |
| `HandleProtocol.Conservation` | archs/kom/common/handle.cpp:8-179 | over every interleaving: an object's count and the increments still to come are the entries naming it, the references held and leaked, and those of calls under way |
| `HandleProtocol.RightsTraced` | archs/kom/common/handle.cpp:42-151 | over every interleaving of allocs, dups, transfers and closes: all rights of an entry on its object go back, bit by bit, to one request of a caller that held the object |
| `HandleProtocol.SafeExactly` | archs/kom/common/handle.cpp:42-179 | a step leaves nothing reachable deleted if and only if it is neither a store of a deleted object by `dup` nor the drop of the last counted reference while an increment is still to come |
| `HandleProtocol.RunSafeExactly` | archs/kom/common/handle.cpp:42-179 | so a run keeps every reachable object alive if and only if no step of it is one of those |
| `HandleProtocol.SettledCount` | archs/kom/common/handle.cpp:42-59 | if callers take turns on a handle, an object's count lags behind its entries by exactly the slots whose reference is still to be counted |
| `HandleProtocol.PoliteIsSafe` | archs/kom/common/handle.cpp:93-179 | if a handle is used only after the call that made it has returned, and not closed or transferred while it is duplicated, then over every interleaving no entry, caller or call has a deleted object |
| `HandleProtocol.DupWhileClosing` | archs/kom/common/handle.cpp:93-116 | the failing run: a handle closed between the two halves of `dup` leaves an entry that names a deleted object |
| `HandleProtocol.CloseBeforeCounted` | archs/kom/common/handle.cpp:54-59 | and without `dup`: a handle closed before `alloc` has counted its reference leaves alloc's caller with a deleted object |
| `HandleProtocol.TransferLosesSlot` | archs/kom/common/handle.cpp:138-148 | from any full table: the slot that `transfer` frees is taken by another `alloc`, transfer ends without a handle and the old entry's reference is never given back |
| `HandleProtocol.FullTableReached` | archs/kom/common/handle.cpp:42-59 | and a full table with such a handle is reached from the start |
| `HandleTable.QuietSafe` | archs/kom/common/handle.cpp:8-25 | with no call under way no entry names a deleted object |
| `HandleTable.QuietCounts` | archs/kom/common/handle.cpp:8-25 | with no call under way an object's count is the entries naming it plus the references held and leaked |
| `HandleTable.HandleTable.constructor` | archs/kom/common/handle.cpp:31-40 | all indices 1..4095 are free, 1 first |
| `HandleTable.HandleTable.Ref` | archs/kom/common/handle.cpp:8-14 | one reference more, a step of the protocol |
| `HandleTable.HandleTable.Unref` | archs/kom/common/handle.cpp:16-25 | one reference less; the object goes exactly with its last one, and the underflow panic is dead |
| `HandleTable.HandleTable.Alloc` | archs/kom/common/handle.cpp:42-63 | run alone: a handle that matched nothing before and names the object with the rights given; 0 exactly for a null object or a full table |
| `HandleTable.HandleTable.Resolve` | archs/kom/common/handle.cpp:65-91 | succeeds exactly if the handle matches and each single right asked for is one of the handle's and one of the entry's, whatever the handle claims; one reference more for the caller, under one lock, so it never meets a deleted object |
| `HandleTable.HandleTable.Check` | archs/kom/common/handle.cpp:68-83 | the tests of resolve, right by right |
| `HandleTable.HandleTable.DupLookup` | archs/kom/common/handle.cpp:97-113 | the first half of `dup` is the protocol's step and takes no reference |
| `HandleTable.HandleTable.StoreEntry` | archs/kom/common/handle.cpp:45-57 | the locked section of `alloc` is the protocol's step; the handle matched nothing before; 0 exactly if no slot is free |
| `HandleTable.HandleTable.CountEntry` | archs/kom/common/handle.cpp:59 | the reference that follows is a step of its own |
| `HandleTable.HandleTable.CloseLookup` | archs/kom/common/handle.cpp:157-176 | the locked section of `close`: the slot is retired exactly if the handle matches, and the handle is dead |
| `HandleTable.HandleTable.TransferLookup` | archs/kom/common/handle.cpp:122-144 | the locked section of `transfer`: one reference more and the slot retired, exactly if the handle matches |
| `HandleTable.HandleTable.DropReference` | archs/kom/common/handle.cpp:148-178 | the reference that close and transfer drop at the end is a step of its own |
| `HandleTable.HandleTable.Dup` | archs/kom/common/handle.cpp:93-116 | run alone: succeeds exactly if the handle matches, each single new right is one of the entry's and a slot is free; then exactly one slot changes, to the same object with the new rights, and the object's count grows by one |
| `HandleTable.HandleTable.Transfer` | archs/kom/common/handle.cpp:119-151 | run alone: the old handle dies, a new one with the same object and rights takes its slot, and the object keeps exactly one reference too many |
| `HandleTable.HandleTable.Close` | archs/kom/common/handle.cpp:153-179 | run alone: the handle no longer matches, its slot is retired and its reference dropped; anything else is ignored |
| `Channel.MessageList.Append` | archs/kom/common/kchannel.cpp:132-138 | the message becomes the last of the list |
| `Channel.MessageList.RemoveFirst` | archs/kom/common/kchannel.cpp:175-180 | the first message leaves the list |
| `Channel.MessageList.Clear` | archs/kom/common/kchannel.cpp:53-62 | every message is freed |
| `Channel.Inbox.Post` | archs/kom/common/kchannel.cpp:132-148 | the message becomes the last and the live reader that has waited longest is woken, a post step of the inbox's run |
| `Channel.Inbox.Take` | archs/kom/common/kchannel.cpp:175-182 | the first message is received, an attempt step |
| `Channel.Inbox.Wait` | archs/kom/common/kchannel.cpp:211-214 | the reader becomes the last of the wait queue, an attempt step |
| `Channel.ReadingIs` | archs/kom/common/kchannel.cpp:153-221 | a read returns a message exactly if both sizes are given, one waits and both its sizes fit; then the first message's data and handles wherever a buffer was given, and its sizes; too small, closed and would-block exactly in their cases |
| `Channel.RetrySucceeds` | archs/kom/common/kchannel.cpp:165-204 | whatever the peer sends or closes between the two calls, any right answer to a retry with the sizes that a too-small read reported is that whole message |
| `Channel.ChannelState.constructor` | archs/kom/common/kchannel.cpp:7-40 | a new channel is open on both sides and empty |
| `Channel.ChannelState.Prepare` | archs/kom/common/kchannel.cpp:84-118 | argument and memory errors in the source's order, and the copied payload |
| `Channel.ChannelState.Deliver` | archs/kom/common/kchannel.cpp:122-150 | refused exactly when the peer is closed, otherwise last in the peer's inbox |
| `Channel.ChannelState.Write` | archs/kom/common/kchannel.cpp:84-151 | each error exactly in its case and in the source's order; messages whose write returned OK are appended to the peer's log and inbox, all others leave no trace |
| `Channel.ChannelState.ReadOnce` | archs/kom/common/kchannel.cpp:153-221 | each outcome exactly in its case, with the first message's bytes and handles; in each direction messages read followed by messages queued are the messages accepted, in order and intact; a round that returns no message consumes nothing; a closed peer is reported only after every accepted message was received |
| `Channel.ChannelState.Close` | archs/kom/common/kchannel.cpp:48-82 | the own inbox is dropped, the peer's stays and one of its readers is woken; the second close frees the state |
| `CacheLines.Hash` | system/disk/cache.cpp:19-34 | the two byte loops compute the FNV-1a set index below 256 |
| `CacheLines.Find` | system/disk/cache.cpp:66-90 | the search loop finds the way that holds the block or shows that none does |
| `CacheLines.Victim` | system/disk/cache.cpp:122-137 | the first invalid way, else the least recently used one |
| `CacheLines.FillExactly` | system/disk/cache.cpp:139-143 | a fill keeps the set coherent and its keys unique if and only if no other way holds the block and the data still equals it |
| `CacheLines.TouchExactly` | system/disk/cache.cpp:213-217 | an update of the first hit keeps the set coherent if and only if the data equals the block |
| `CacheLines.DiskChange` | system/disk/cache.cpp:199 | a change of the disk keeps a set coherent if and only if the set holds no block that changed to something else |
| `CacheLines.StoredRead` | system/disk/cache.cpp:152-168 | a direct read after a write of the same blocks gives them back |
| `CacheProtocol.GoodExactly` | system/disk/cache.cpp:46-255 | with search, device transfer and fill or update as separate steps: a step keeps every line in its set, unique and equal to its block if and only if it is not a late fill, a late update, a refused write that changed a cached block or a bypassing write of a block cached again |
| `CacheProtocol.TakesLeast` | system/disk/cache.cpp:65-145 | a hit, a fill and an update leave the block in its set, used last; at most one other line goes, and only if all ways were valid and it was the least recently used; no other set changes |
| `CacheProtocol.RunGoodExactly` | system/disk/cache.cpp:46-255 | so a run stays coherent if and only if no step of it is one of those |
| `CacheProtocol.QuietIsCoherent` | system/disk/cache.cpp:46-255 | with no write between the disk and its line, every valid line equals its block |
| `CacheProtocol.PoliteIsGood` | system/disk/cache.cpp:46-255 | if calls on the same block take turns, then over every interleaving of the others the cache stays coherent |
| `CacheProtocol.HitReadsDisk` | system/disk/cache.cpp:65-88 | and a hit returns what the disk has |
| `CacheProtocol.TwoReaders` | system/disk/cache.cpp:58-146 | the failing runs: two overlapping reads fill two lines and a later write updates one of them |
| `CacheProtocol.LateFill` | system/disk/cache.cpp:100-143 | a read that fetched before a write of the block and fills after it installs the old content |
| `CacheProtocol.TwoWriters` | system/disk/cache.cpp:199-248 | two writes reach the disk in one order and the line in the other |
| `CacheProtocol.FillBeforeAround` | system/disk/cache.cpp:155-168 | a block invalidated by a bypassing write is filled again before the device takes the write |
| `DiskCache.DiskCache.constructor` | system/disk/cache.cpp:36-44 | an empty cache is coherent with any disks |
| `DiskCache.DiskCache.Lookup` | system/disk/cache.cpp:65-88 | the locked search is the protocol's step and returns the first line of the block |
| `DiskCache.DiskCache.FetchBlock` | system/disk/cache.cpp:98-105 | the unlocked device read is the protocol's step |
| `DiskCache.DiskCache.FillBlock` | system/disk/cache.cpp:120-145 | the locked fill is the protocol's step: no second search |
| `DiskCache.DiskCache.StoreBlock` | system/disk/cache.cpp:199-204 | the unlocked device write is the protocol's step, taken or refused |
| `DiskCache.DiskCache.UpdateBlock` | system/disk/cache.cpp:209-250 | the locked update or fill is the protocol's step |
| `DiskCache.DiskCache.UncacheBlock` | system/disk/cache.cpp:156-166 | the locked invalidation of one block is the protocol's step |
| `DiskCache.DiskCache.WrittenElsewhere` | system/disk/cache.cpp:265-277 | any writes behind the cache's back to one device leave the cache coherent except for that device, which is what invalidateDevice asks for |
| `DiskCache.DiskCache.ReadOne` | system/disk/cache.cpp:58-146 | run alone: succeeds exactly on a hit or with memory and device; what is returned is the disk's block; the block is then cached and used last, at the cost of at most the least recently used line of its set |
| `DiskCache.DiskCache.ReadBlock` | system/disk/cache.cpp:46-150 | run alone: cached or bypassing, a read returns what a direct read would, and fails exactly if the device does or, on a miss, memory does |
| `DiskCache.DiskCache.UncacheRun` | system/disk/cache.cpp:155-167 | no block of the run stays cached |
| `DiskCache.DiskCache.WriteAround` | system/disk/cache.cpp:153-168 | run alone: a bypassing write keeps the cache coherent even if the device fails half-way |
| `DiskCache.DiskCache.WriteOne` | system/disk/cache.cpp:176-251 | run alone: after a write every valid line equals its disk block, lies in its set and is unique; after a refused write this holds exactly if the block was not cached or did not change |
| `DiskCache.DiskCache.WriteBlock` | system/disk/cache.cpp:152-255 | run alone: the same for the whole call, which succeeds exactly if the device does and, on the cached path, memory does |
| `CacheProtocol.RefusedWrite` | system/disk/cache.cpp:199-204 | a refused write that changed a cached block leaves a stale line |
| `DiskCache.DiskCache.InvalidateDevice` | system/disk/cache.cpp:265-277 | dropping a device's lines makes the cache coherent again |
| `DiskCache.DiskCache.FlushAll` | system/disk/cache.cpp:279-292 | nothing stays cached |
| `NvmePrp.WalkFrom` | drivers/storage/nvme/nvme.cpp:187-209 | from any list page on, the controller's walk yields the rest of the buffer's pages in order |
| `NvmePrp.Step` | drivers/storage/nvme/nvme.cpp:191-209 | one round writes inside the allocated list pages and keeps every filled list page right |
| `NvmePrp.FillList` | drivers/storage/nvme/nvme.cpp:187-209 | the loop writes n entries within ceil(n / 511) list pages and the controller walks exactly those |
| `NvmePrp.ListPagesExact` | drivers/storage/nvme/nvme.cpp:173-174 | the page count is ceil(n / 511) exactly if the rounding up does not wrap 32 bits; if it wraps it is 0 |
| `NvmePrp.SetupPrps` | drivers/storage/nvme/nvme.cpp:147-212 | for any buffer and size the controller's transfer over prp1, prp2 and the chained lists is exactly the buffer's physical pages in order, each pinned once; the result is the list's address or 0; if the list allocation fails the first pin is undone, prp2 is 0 and the result is 0 as for a short buffer; if and only if the rounding of the size wraps, the stores would go past a list of no pages |
| `NvmePrp.EveryByteLands` | drivers/storage/nvme/nvme.cpp:147-212 | for any page-wise translation the controller's address of byte j over those pages is the physical address of byte j of the buffer, whatever its alignment and size |
| `NvmePrp.NoMorePages` | drivers/storage/nvme/nvme.cpp:147-212 | and there are no more pages than from the first byte's to the last byte's |
| `NvmePrp.CallersNeverWrap` | drivers/storage/nvme/nvme.cpp:421-436 | the rounding never wraps for a page-aligned buffer or for the 2048 sectors that readBlock and writeBlock ask for at most |
| `NvmePrp.WrapExample` | drivers/storage/nvme/nvme.cpp:173-174 | but it does for some buffer and size, and then there is no list page |
| `NvmePrp.UnpinBuffer` | drivers/storage/nvme/nvme.cpp:128-145 | unpins exactly the pages that the same buffer pins |
| `NvmeTransfer.Round` | drivers/storage/nvme/nvme.cpp:433-457 | one command: refused exactly if the first page and the list have no address; the pins balance if and only if it was refused for want of a list, or submitted with one if it needed it, or no page is in a frame; a command without its list is submitted with prp2 = 0 |
| `NvmeTransfer.ReadBlock` | drivers/storage/nvme/nvme.cpp:404-469 | the commands follow each other over the whole run of blocks; for a mapped buffer the call succeeds exactly if all are answered, no frame is ever unpinned less often than pinned, and the pins balance if and only if every command that was set up got its list |
| `NvmeTransfer.BlocksPartition` | drivers/storage/nvme/nvme.cpp:442-443 | the commands' block ranges follow each other from the first block to the last, none empty or over 2048 sectors |
| `NvmeTransfer.EachBlockOnce` | drivers/storage/nvme/nvme.cpp:442-443 | so every block of the call is in exactly one command and no other block in any |
| `NvmeTransfer.FailedExample` | drivers/storage/nvme/nvme.cpp:433-457 | a command for three pages without memory for the list is unpinned once too often |
| `NvmeTransfer.OffsetsExact` | drivers/storage/nvme/nvme.cpp:435 | the offsets in the buffer, computed in 32 bits, are the right ones if and only if the call is for at most 4 GiB |
| `Paths.ConvertPath` | archs/kom/common/ons.cpp:59-100 | the buffer loops compute the normal form |
| `Paths.SqueezeSlashes` | archs/kom/common/ons.cpp:85-91 | the squeezing loop computes the squeezed path |
| `Paths.ConvertIsNormal` | archs/kom/common/ons.cpp:59-100 | the result has no backslash, no doubled slash, no drive letter and 1 to 255 characters |
| `Paths.ConvertIdempotent` | archs/kom/common/ons.cpp:59-100 | normalising twice is normalising once, on all paths |
| `Paths.SqueezeClean` | archs/kom/common/ons.cpp:85-91 | the squeezing loop leaves no doubled slash and keeps the start of the path |
| `Paths.SlashesKeep` | archs/kom/common/ons.cpp:83 | turning backslashes into slashes keeps the names between separators |
| `Paths.SqueezeKeeps` | archs/kom/common/ons.cpp:85-91 | so does squeezing |
| `Paths.PlainNames` | archs/kom/common/ons.cpp:59-100 | a path without a drive keeps its names, of its first 255 characters |
| `Paths.DriveNames` | archs/kom/common/ons.cpp:59-83 | drive C becomes the root and any other drive u, of either case, /volumes/u; what follows the colon keeps its names |
| `Walks.WalkSub` | archs/kom/common/ons.cpp:115-150 | with fewer bindings a walk finds the same object or none |
| `Walks.ResolveSplit` | archs/kom/common/ons.cpp:102-151 | a path resolves to its last name looked up in what the rest resolves to |
| `Walks.WalkMeans` | archs/kom/common/ons.cpp:115-150 | the walk looks the names up one after the other; a path that ends in a slash names a container or nothing |
| `Walks.ResolveMeans` | archs/kom/common/ons.cpp:102-151 | so any path resolves to what its names lead to from the root |
| `Walks.TrailingSlash` | archs/kom/common/ons.cpp:118-150 | a slash at the end changes nothing for a container and gives nothing for another object |
| `Walks.BindThenResolve` | archs/kom/common/ons.cpp:181-216 | on arbitrary container graphs, once a name is bound in the resolved parent the path resolves to the object |
| `Walks.UnbindThenResolve` | archs/kom/common/ons.cpp:218-253 | once the binding is gone, whatever else went with it, the path resolves to nothing |
| `Container.BindingList.Find` | archs/kom/common/kcontainer.cpp:47-51 | the search loop finds the binding of a name if there is one |
| `Container.BindingList.Lookup` | archs/kom/common/kcontainer.cpp:93-109 | the list answers as a map |
| `Container.BindingList.Bind` | archs/kom/common/kcontainer.cpp:41-66 | the map gains the name exactly if it is new, short enough and there is memory; errors in the source's order |
| `Container.BindingList.Unbind` | archs/kom/common/kcontainer.cpp:68-91 | the map loses exactly the name and the bound object is returned |
| `ObjectNamespace.Namespace.Unref` | archs/kom/common/handle.cpp:16-25 | the last reference deletes the object and, for a container, drops its references to its children in turn; counts stay bindings plus held references, and exactly the bindings of surviving containers stay |
| `ObjectNamespace.Namespace.Empty` | archs/kom/common/kcontainer.cpp:16-39 | exactly the dead container's bindings go and become references still to be dropped |
| `ObjectNamespace.Namespace.Lookup` | archs/kom/common/kcontainer.cpp:93-109 | the bound object with one reference for the caller |
| `ObjectNamespace.Namespace.WalkFrom` | archs/kom/common/ons.cpp:115-150 | the token loop computes the walk; references move along and nothing is deleted on the way |
| `ObjectNamespace.Namespace.Resolve` | archs/kom/common/ons.cpp:102-151 | returns what the path names and changes no count except +1 on its result |
| `ObjectNamespace.Namespace.BindIn` | archs/kom/common/kcontainer.cpp:41-66 | the container gains the binding and the object a reference, or nothing changes |
| `ObjectNamespace.Namespace.UnbindIn` | archs/kom/common/kcontainer.cpp:68-91 | the binding goes and, with it, exactly the bindings of the containers that die |
| `ObjectNamespace.BindsInDir` | archs/kom/common/kcontainer.cpp:41-66 | seen from one container, the namespace's step is what the binding list does, and no other container changes |
| `ObjectNamespace.UnbindsInDir` | archs/kom/common/kcontainer.cpp:68-91 | the same for removal; no other surviving container changes |
| `ObjectNamespace.LooksInDir` | archs/kom/common/kcontainer.cpp:93-109 | the same for lookup |
| `NamespaceProtocol.StepKeeps` | archs/kom/common/ons.cpp:102-253 | with every lookup, bind, unbind, reference count operation and step of a container's destructor on its own, in any thread: each keeps the count law and every binding in a container that is alive or being emptied |
| `NamespaceProtocol.Conservation` | archs/kom/common/ons.cpp:102-253 | over every interleaving an object's count is the bindings naming it plus the references of callers and of calls under way, and nothing that any of these refers to has been deleted |
| `NamespaceProtocol.QuietIsNamespace` | archs/kom/common/kcontainer.cpp:16-39 | with no call under way this is the invariant of the namespace, so no binding of a deleted container is left |
| `NamespaceProtocol.NeverStuck` | archs/kom/common/ons.cpp:121-150 | a call under way can always take its next step: its lookups meet living objects and what it drops is there to drop |
| `NamespaceProtocol.BoundAfter` | archs/kom/common/kcontainer.cpp:41-91 | after any step of any thread a name is bound to an object exactly if the step bound it, the name being free and short enough, or it was and the step did not take it away |
| `NamespaceProtocol.WalkAfter` | archs/kom/common/ons.cpp:121-150 | one component leads to exactly the object bound to it, whose count is taken before the container's is dropped; what is unbound is dropped next |
| `ObjectNamespace.Namespace.Bind` | archs/kom/common/ons.cpp:181-216 | succeeds exactly if the parent is a container without that name; then the path resolves to the object and only its count grew, else nothing changed |
| `ObjectNamespace.Namespace.Unbind` | archs/kom/common/ons.cpp:218-253 | succeeds exactly if the path named something; then it resolves to nothing and only that binding and those of containers that die are gone, else nothing changed |

## Left out

- VmArena.VmArena.AllocAligned: stated for alignments of at most 2^32 pages that are powers of two, as the masking of addresses assumes.
- VmArena.VmArena.FreeRun: stated for runs that are live; the source does not look at what it is given.
- Pmm.Pmm.constructor: stated for memory maps whose usable entries do not overlap and fit the extent array with the boot reservations; the source does not look for overlaps, and with a full array stops or drops an extent.
- PmmExtents.ExtentTable.FindFit: completeness is claimed only without a preferred node; with one the source tests only the first aligned frame of each extent.
- MagazineProtocol.RunKeptExactly: the extents are a set of frames there; how a refill chooses them is in `Pmm`, whose calls run alone.
- SlabCache.SlabCache.Alloc: stated for a call that runs alone; `AllocSlow` covers a change of the partial list by another thread between its two locked sections.
- SlabCache.SlabCache.Free: stated for null and for live objects of this cache; for other pointers the source reads whatever header the mask leads to.
- HandleTable.HandleTable.Alloc: stated for a call that runs alone; its sections are methods of their own, and `HandleProtocol` has their interleavings.
- HandleTable.HandleTable.Dup: stated for a call that runs alone; its sections are methods of their own, and `HandleProtocol` has their interleavings.
- HandleTable.HandleTable.Transfer: stated for a call that runs alone; its sections are methods of their own, and `HandleProtocol` has their interleavings.
- HandleTable.HandleTable.Close: stated for a call that runs alone; its sections are methods of their own, and `HandleProtocol` has their interleavings.
- DiskCache.DiskCache.ReadOne: stated for a call that runs alone; its sections are methods of their own, and `CacheProtocol` has their interleavings.
- DiskCache.DiskCache.ReadBlock: stated for a call that runs alone; its sections are methods of their own, and `CacheProtocol` has their interleavings.
- DiskCache.DiskCache.WriteAround: stated for a call that runs alone; its sections are methods of their own, and `CacheProtocol` has their interleavings.
- DiskCache.DiskCache.WriteOne: stated for a call that runs alone; its sections are methods of their own, and `CacheProtocol` has their interleavings.
- DiskCache.DiskCache.WriteBlock: stated for a call that runs alone; its sections are methods of their own, and `CacheProtocol` has their interleavings.
- Scheduler.Scheduler.StealFrom: the choice of the victim CPU (load, distance, try-lock) is not modelled; the protocol allows any victim.
- ObjectNamespace.Namespace.Bind: path results (and those of Unbind and Resolve) are for calls that run alone; `NamespaceProtocol` has the counts and lifetimes of interleaved ones.
- `switching_task`, the early return of `schedule()` while preemption is disabled, remote kills of sleeping tasks by the out-of-memory scan.
- 32-bit overflow of object reference counts; statistics counters of the allocators.
- Page mapping (an uninterpreted total map), the unmapped-memory tests of the disk cache (taken to pass), `readVector` and `writeVector`.
- NVMe queue submission, completion heads and phases, `freePRPChain`, vectored transfers; `KernelHeap` beyond the first header word, `freeAligned` and `realloc`.
- Reader liveness of the reader-writer lock and wakeups of manual-reset events, which the source does not promise.
- Destructors of ports and events, `ons_enumerate`, `ons_resolve_parent`, provider containers, device objects.
- Console, drivers other than the above, file systems, security, boot, libc routines, the shell and the services.
