# PokuOS, modelled and proved

PokuOS is a small i386 kernel. Most of its hard code updates data structures in place and relies on
invariants that are never written down: tags packed into heap words, run queues that share one link
field with a mutex's wait queue, page tables whose entries must agree with reference counts. This
project writes those invariants down in Dafny and proves that every operation keeps them, over whole
runs, together with what the operations promise to their callers. `dafny verify dfyconfig.toml` checks it.

| part | files | model |
|---|---|---|
| shared | `Basics`, `Bits` | page constants, words and bitwise operators |
| kernel heap | `HeapBlocks`, `HeapWords`, `KernelHeap`, `HeapRuns` | class `Heap` over a word memory, refining a row of blocks |
| scheduler and mutex | `Tasks`, `SchedInv`, `SchedSteps`, `SchedRuns`, `SchedLaws`, `SchedQuota`, `SchedMutex`, `SchedInherit`, `SchedEffects`, `SchedWitness`, `Links`, `Kernel` | class `Scheduler` over link fields, refining a step machine |
| frames, copy-on-write, fork | `Pte`, `Frames`, `Cow`, `Protect`, `Mapping`, `Vm`, `Forking`, `VmRuns`, `VmWitness` | class `Machine` over page tables, counts and page contents |
| tar file system | `Octal`, `Tar`, `PageCache`, `TarFs`, `Mounted` | class `FileSystem` over a 64-slot cache, and the ustar walker |
| povi editor | `FlatText`, `Povi`, `PoviBuffer`, `PoviEditor` | classes `Text`, `Vector`, `Buffer`, `Editor`, refining one flat string |
| watchdog | `Restarts`, `Watchdog` | class `Table`, refining one machine per entry |
| sandbox | `Sandbox` | inheritance along lineages of forks and execs |

Conventions. Words are numbers below 2^32 and every wrap is written out. `&` and `|` are defined bit by bit
(`Bits.And`, `Bits.Or`). Pointers are addresses; a slot or queue that is empty is `NONE`. A specification
function (`Take`, `Schedule`, `Insert`, ...) says what an operation does to an abstract value; the method of the
same name does it on the concrete state. The theorems below are about those functions, so they hold of the
methods.

Ten properties that the code suggests do not hold as they stand. Each is given its exact condition, and a lemma
or method that shows the failure at an input:

- `kmalloc`'s two roundings are right exactly below a bound (`BlockBytesRoom`, `PagesCover`, `RoundingWraps`). A
  need whose page count wraps leaves the heap intact exactly when the last block is free: then kmalloc returns
  NULL and the row is unchanged (`Alloc`); otherwise no row of blocks fits memory any more (`GrowNothing`).
  `BreakHeap` gets there from heap_init.
- `schedule` re-enqueues a task that is still on its queue exactly when its slice ends with quota left, its queue
  is shared only with exhausted tasks, nobody above can run and somebody below can (`HazardIff`,
  `HazardBreaksQueue`). `HazardPossible` is a run from boot that gets there. No system without quotas does.
- A mutex loses a wake-up exactly when a kill strikes the last woken waiter before it retries (`StepMutex`).
  `WakeupCanBeLost` is a run from boot that ends so.
- A child's exit makes its waiting parent ready, whatever the parent waits for. It keeps the scheduler's invariant
  exactly when the parent is not blocked in the mutex (`DyingInnerIff`, `ExitInvIff`); otherwise a task in the wait
  queue is queued to run, and the waiters behind it are cut off (`EnqueueCutsWaiters`). `ExitCanWakeWaiter` is a run
  from boot that ends so.
- A boost may move a holder to a lower queue, exactly when a critical holder meets a user-tier waiter
  (`BoostRaisesIff`): tier numbers are not queue order. `BoostCanLower` is a run from boot that gets there.
- `vm_protect_readonly` keeps the reference counts right exactly when no frame of the space is shared
  (`ProtectedGood`). `SharedFrameIsGood` is a state of the invariant with a shared frame. No run from paging_init
  has one, because sys_fork copies every page at once (`NothingShared`, `VmRuns.Run`).
- A child that sys_fork returns reads as its parent exactly when the free frames suffice for a directory, the pages
  and their tables. If only the last page's table is missing, map_page gives up silently and sys_fork succeeds
  without that page (`Fork`). `ForkWithoutStack` gets there from paging_init, and the page is the stack.
- The page limit that `sys_fork` enforces can be looser than the parent's. For a parent limit below one page it
  never is; below 2^44 bytes it is not exactly when no limit below one page is asked for; from 2^44 bytes on, where
  the page count is cut to 32 bits, it is not exactly when what is asked for is cut to a positive count no greater
  than the parent's, or is no less than the parent's limit, or nothing is asked for or enforced
  (`PageLimitTighter`, `SubPageLimitIsNone`, `WideLimitIsCut`).
- The tar walk's block index strictly increases exactly while the data begins below 4 GiB (`AfterIncreases`,
  `AfterWraps`).
- A read through the page cache is whole exactly when its pages and the cached ones fit the slots and frames, for
  the cache never evicts (`TarFs.FileSystem.Read`, `EmptyCacheFits`). `ReadStopsShort` reads a file of 65 pages.

## Model

| member | source | states |
|---|---|---|
| `HeapWords.HeaderBits` | src/kernel/heap.c:12-15 | size, FREE and PREV_FREE packed into one word come back through the masks, and each flag can be set or cleared without touching the rest |
| `HeapWords.HeaderCompose` | src/kernel/heap.c:160-162 | a header composed of a new size and an old header's PREV_FREE bit is the header of that size with that bit |
| `HeapWords.PayloadNotOwned` | src/kernel/heap.c:71-84 | no payload word of a live block is a header, a footer, a link or part of a free block |
| `HeapBlocks.TakeWellFormed` | src/kernel/heap.c:219-249 | carving a block out of a free one keeps blocks tiling the heap, of the same total size, with no two free neighbours |
| `HeapBlocks.TakeLive` | src/kernel/heap.c:219-249 | it adds exactly one live block, at the free block's address, and moves no other |
| `HeapBlocks.TakeIsTight` | src/kernel/heap.c:222-240 | the block handed out is at most 12 bytes larger than asked |
| `HeapBlocks.ReleaseWellFormed` | src/kernel/heap.c:252-294 | freeing with coalescing on both sides keeps the tiling, its total and the absence of free neighbours |
| `HeapBlocks.ReleaseLive` | src/kernel/heap.c:252-294 | freeing removes exactly that block from the live ones |
| `HeapBlocks.ExtendWellFormed` | src/kernel/heap.c:130-184 | growth keeps the tiling and adds exactly the new bytes |
| `HeapBlocks.ExtendLive` | src/kernel/heap.c:130-184 | growth moves and resizes no live block |
| `HeapBlocks.ExtendFits` | src/kernel/heap.c:206-217 | after a growth of at least n bytes the second search for n bytes succeeds |
| `HeapBlocks.LiveDisjoint` | src/kernel/heap.c:186-250 | two live blocks never overlap |
| `HeapBlocks.LiveInside` | src/kernel/heap.c:186-250 | a live block lies inside the heap, is aligned, and can hold its tags |
| `HeapBlocks.ReleaseUndoesTake` | src/kernel/heap.c:219-294 | freeing what was just allocated restores the very same row of blocks |
| `HeapBlocks.ReleaseAtUndoesTake` | src/kernel/heap.c:219-294 | the same by the address that kfree is given |
| `HeapBlocks.AllFreeIsOneBlock` | src/kernel/heap.c:362-366 | a heap with nothing handed out is one free block |
| `HeapBlocks.ReleaseAllCoalesces` | src/kernel/heap.c:252-294 | freeing all live blocks in any order leaves one free block covering the heap |
| `KernelHeap.BlockBytesRoom` | src/kernel/heap.c:196-199 | the rounded block has room for the request if and only if the request is at most 2^32 - 12 |
| `KernelHeap.PagesCover` | src/kernel/heap.c:142 | the mapped pages cover the need if and only if it is at most 2^32 - 4096 |
| `KernelHeap.PagesTight` | src/kernel/heap.c:142 | below that bound they are the fewest pages that do, and the free frames suffice for them exactly when their bytes cover the need |
| `KernelHeap.RoundingWraps` | src/kernel/heap.c:142-199 | concrete requests for which each rounding gives too little |
| `KernelHeap.AllocMeans` | src/kernel/heap.c:186-250 | a returned pointer is aligned, new, apart from every live block, and its payload holds the request exactly when the rounding did not wrap |
| `KernelHeap.OwnedKeeps` | src/kernel/heap.c:91-294 | an operation that writes only words the allocator owns changes no live payload word |
| `KernelHeap.StoreGood` | src/kernel/heap.c:71-74 | a client's store into its payload cannot disturb tags, footers or the free list |
| `KernelHeap.Heap.constructor` | src/kernel/heap.c:44-59 | heap_init leaves one free block of 64 pages |
| `KernelHeap.Heap.BlockSize` | src/kernel/heap.c:61-64 | the size field of a header |
| `KernelHeap.Heap.BlockIsFree` | src/kernel/heap.c:66-69 | the FREE flag of a header |
| `KernelHeap.Heap.InsertFree` | src/kernel/heap.c:91-107 | the linked list becomes the address-sorted list with the block in its place, and only link words change |
| `KernelHeap.Heap.RemoveFree` | src/kernel/heap.c:109-128 | the linked list becomes the list without the block, or stays if it was not there |
| `KernelHeap.Heap.FirstFit` | src/kernel/heap.c:201-205 | the walk of the free list finds the lowest block of the heap that is free and large enough |
| `KernelHeap.Heap.Carve` | src/kernel/heap.c:219-249 | tags, footers, PREV_FREE bits and free list record exactly the row with the block carved out, and only allocator-owned words were written |
| `KernelHeap.Heap.MapPages` | src/kernel/heap.c:34-42 | mapping page by page keeps every old word and succeeds exactly when there are frames enough; on failure the pages there were frames for stay mapped |
| `KernelHeap.Heap.Grow` | src/kernel/heap.c:130-184 | growth succeeds exactly when the free frames' bytes cover the need, moves the heap's end by the fewest whole pages that hold it, appends or joins the new bytes, and keeps every payload word; a wrapped page count with a free last block leaves the row as it was |
| `KernelHeap.Heap.GrowNothing` | src/kernel/heap.c:142-183 | a wrapped page count after a live last block reports success and leaves memory that records no row of blocks at all |
| `KernelHeap.Heap.Alloc` | src/kernel/heap.c:186-250 | NULL exactly for size 0, and where nothing fits if the free frames have fewer bytes than the block or the page count wraps, and then the row is unchanged; otherwise the lowest fitting block, carved, after growth by less than a page more than needed; all payload words kept and the whole heap invariant |
| `KernelHeap.Heap.Free` | src/kernel/heap.c:252-294 | a live pointer's block is released and merged on raw words, NULL does nothing, and every other payload word is kept |
| `KernelHeap.Heap.StoreWord` | src/kernel/heap.c:71-74 | a client store changes that one word and keeps the heap invariant |
| `HeapRuns.RunKeepsLive` | src/kernel/heap.c:186-294 | over any run a block that is never freed stays live, in place and of the same size |
| `HeapRuns.RunFreedIsOneBlock` | src/kernel/heap.c:321-368 | however a run interleaves, once nothing is handed out the heap is one free block |
| `HeapRuns.RunTotal` | src/kernel/heap.c:130-184 | the heap never shrinks |
| `HeapRuns.Run` | src/kernel/heap.c:186-294 | any run on raw memory keeps the invariant, and a payload word not stored to keeps its value until its block is freed |
| `HeapRuns.AllocAndFree` | src/kernel/heap.c:186-294 | kmalloc and kfree of its result leave exactly the blocks the heap had after any growth |
| `HeapRuns.BreakHeap` | src/kernel/heap.c:130-184 | from heap_init: a block that fills the heap, a growth that runs out of frames after one page and one whose page count wraps leave memory that records no row of blocks |
| `SchedInv.OnlyOwnQueue` | src/kernel/task.c:51-99 | a task is on no queue but the one its cur_queue names |
| `SchedInv.SelfLoopIff` | src/kernel/sched.c:146-160 | the self-loop branch is entered exactly when nobody else at the incumbent's level or above can run |
| `SchedInv.HazardIff` | src/kernel/sched.c:146-170 | the re-enqueue there meets a task that is still linked exactly when its slice ends with quota left, its queue is shared only with exhausted tasks, nobody above can run and somebody below can |
| `SchedInv.PreemptsIff` | src/kernel/sched.c:122-140 | schedule preempts exactly when somebody strictly above the incumbent can run |
| `SchedInv.ScheduleInv` | src/kernel/sched.c:72-173 | schedule, entered from any state it can be called in and outside that hazard, restores the whole queue invariant |
| `SchedRuns.StepInv` | src/kernel/sched.c:72-224 | every step (tick, yield, wait, exit, lock, unlock, tier change, create, reap, kill) keeps the queue invariant |
| `SchedRuns.RunInv` | src/kernel/task.c:33-540 | so does every run |
| `SchedRuns.ReachableQueues` | src/kernel/task.c:33-99 | in every reachable state a task is on at most one queue and once, on the one cur_queue names; a ready task that does not run is on exactly its own; no waiting or exited task is queued; the lock is held exactly when it has a holder |
| `SchedSteps.DyingInnerIff` | src/kernel/task.c:487-536 | a task's death, up to schedule, keeps the invariant if and only if its parent is not blocked in the mutex |
| `SchedRuns.ExitInvIff` | src/kernel/task.c:487-540 | so does a whole exit, and a tick that kills the running task |
| `SchedLaws.PickIsPeek` | src/kernel/task.c:101-173 | pick_next_task returns the task peek_next_task reports |
| `SchedLaws.PickRotates` | src/kernel/task.c:101-154 | a pick changes one queue: the same members with the picked task last, or nobody if it was alone |
| `SchedLaws.RoundRobin` | src/kernel/task.c:101-154 | n picks on a queue of n tasks with quota left return each once, in order, and restore the queue |
| `SchedLaws.ScheduleOutcome` | src/kernel/sched.c:72-173 | schedule ends in one of three ways: the incumbent goes on, a task with quota left starts a fresh slice of 1 to 3 ticks by its tier and level, or idle runs; other tasks keep their fields |
| `SchedLaws.PriorityRespected` | src/kernel/sched.c:72-173 | nobody who could run is left above the running task; in the one-slice yield to a lower queue, nobody but the incumbent that made way |
| `SchedQuota.QuotaBound` | src/kernel/sched.c:190-201 | in every reachable state no task has used more than its quota and two ticks in the period, and it is marked exhausted exactly when the quota is used up |
| `SchedQuota.NoQuotaNoHazard` | src/kernel/sched.c:150-160 | where no task has a quota the self-loop hazard cannot occur |
| `SchedQuota.BehavedRunIsLegal` | src/kernel/sched.c:150-160 | every run in which no task is given a quota is free of the hazard throughout |
| `SchedEffects.QueueIs` | src/kernel/task.c:36-49 | the order of the five queues: kernel, system with critical, and user tasks by level |
| `SchedEffects.TickEffect` | src/kernel/sched.c:175-224 | all a tick does to each task besides scheduling: the running task's account and its exhaustion at ten ticks per percent, one level down at its third tick in a row, one level up for all at every 300th tick, fresh accounts at every 1000th |
| `SchedEffects.PeriodReset` | src/kernel/task.c:371-383 | after every 1000th tick every task has used nothing and may run; at any other only the running task's account moves, by one |
| `SchedEffects.HandsOver` | src/kernel/sched.c:134-170 | a task whose slice ends makes way for the first on its queue who can run, if any and nobody above can, and goes to the tail |
| `SchedEffects.GoesOn` | src/kernel/sched.c:113-173 | a task with slice left and nobody above it who can run goes on with one tick less, and no other task changes |
| `SchedEffects.YieldEffect` | src/kernel/task.c:452-465 | a user task that yields is at the top level and counts anew; nobody else changes but in place and slice |
| `SchedEffects.WaitEffect` | src/kernel/process.c:516-543 | a task that waits for a child is blocked; nobody else changes but in place and slice |
| `SchedEffects.ExitEffect` | src/kernel/task.c:487-540 | the task is gone, its waiting parent may run again and is at the top level, its children have no parent, and nobody else changes |
| `SchedEffects.KillEffect` | src/kernel/sched.c:183-188 | a marked task dies so at its next tick, which does nothing else |
| `SchedEffects.SlotEffect` | src/kernel/task.c:266-276 | reaping frees a slot, a kill marks a task, and neither touches another |
| `SchedEffects.LockEffect` | src/kernel/locks.c:80-146 | mutex_lock and mutex_trylock take a free lock for the caller; mutex_trylock leaves a held one alone |
| `SchedEffects.BlockEffect` | src/kernel/locks.c:80-130 | a held lock blocks the caller at the front of the wait queue |
| `SchedEffects.UnlockEffect` | src/kernel/locks.c:148-184 | the lock is free and the front waiter, if any, is ready on its queue |
| `SchedMutex.StepMutex` | src/kernel/locks.c:80-184 | a step keeps "whoever waits will be woken" if and only if it is not the tick that kills the last woken waiter |
| `SchedMutex.RunMutex` | src/kernel/locks.c:80-184 | in every run without such a kill, a non-empty wait queue means the lock is held or a woken waiter is still to retry |
| `SchedMutex.ReachableMutex` | src/kernel/locks.c:80-184 | the same from boot, with the wait queue distinct, all of it waiting and off the run queues, and the lock held exactly when it has a holder |
| `SchedInherit.StepInherit` | src/kernel/locks.c:101-118 | during a holding the holder's tier is the least of its original tier and those of the tasks that blocked since, at every step |
| `SchedInherit.HeldTier` | src/kernel/locks.c:80-184 | the same from boot over whole runs, with a ready holder on the queue of its boosted tier and unlock restoring the original tier |
| `SchedInherit.UnlockRestores` | src/kernel/locks.c:156-169 | unlock gives back exactly the tier held when the lock was taken |
| `SchedInherit.BoostRaisesIff` | src/kernel/locks.c:101-118 | a boost keeps or raises the holder's queue unless a critical holder meets a user-tier waiter |
| `SchedWitness.HazardPossible` | src/kernel/sched.c:146-160 | a legal run of 25 steps from boot, by one task and its two children, whose next tick enqueues the running task while it is still on its queue |
| `SchedWitness.WakeupCanBeLost` | src/kernel/locks.c:80-130 | a legal run of 13 steps from boot, by one task and its two children, whose next tick leaves a task waiting for a mutex nobody holds or will release |
| `SchedWitness.ExitCanWakeWaiter` | src/kernel/task.c:510-519 | a legal run of 11 steps from boot whose next exit leaves the parent running while it is in the mutex's wait queue |
| `SchedWitness.BoostCanLower` | src/kernel/locks.c:101-118 | a legal run of 8 steps from boot, by one task and its child, after which locking boosts the ready holder from queue 1 to queue 2 |
| `Links.EnqueueTailCycles` | src/kernel/task.c:51-69 | enqueueing the task that already is the tail links it to itself |
| `Links.HazardBreaksQueue` | src/kernel/sched.c:146-160 | in the hazard the re-enqueue leaves a link structure that is no list at all |
| `Links.EnqueueCutsWaiters` | src/kernel/task.c:51-69 | enqueueing a task that is in the wait queue leaves its front part linked and no waiter linking to the rest |
| `Kernel.Scheduler.constructor` | src/kernel/task.c:416-450 | task_init leaves the boot state, on empty lists |
| `Kernel.Scheduler.Enqueue` | src/kernel/task.c:51-69 | heads, tails and links become those of the queues with the task appended |
| `Kernel.Scheduler.Dequeue` | src/kernel/task.c:71-99 | they become those of the queues without it; a task on no queue is left alone |
| `Kernel.Scheduler.Peek` | src/kernel/task.c:156-173 | the first task with quota left on the first queue that has one |
| `Kernel.Scheduler.PickFrom` | src/kernel/task.c:101-227 | the rotation on links ends, returns that task and leaves the rotated queue |
| `Kernel.Scheduler.Schedule` | src/kernel/sched.c:72-173 | schedule on links does what the specification says and restores the invariant |
| `Kernel.Scheduler.SetTier` | src/kernel/task.c:316-346 | a ready task moves to the queue of its new tier; others stay |
| `Kernel.Scheduler.SetLevel` | src/kernel/task.c:348-369 | the same for the clamped feedback level |
| `Kernel.Scheduler.QuotaReset` | src/kernel/task.c:371-383 | every account starts its period afresh and nobody moves |
| `Kernel.Scheduler.Aging` | src/kernel/task.c:467-480 | every user task below the top level that is ready or runs, and has quota left, goes up one level, and one queue if it is queued |
| `Kernel.Scheduler.Yield` | src/kernel/task.c:452-465 | a user task goes back to the top level, is marked ready, and schedule decides; the invariant is kept |
| `Kernel.Scheduler.WaitChild` | src/kernel/process.c:516-543 | the waiting parent leaves the queues, then schedule |
| `Kernel.Scheduler.Exit` | src/kernel/task.c:487-540 | the task leaves the queues, a waiting parent is queued, children are orphaned, then schedule |
| `Kernel.Scheduler.Tick` | src/kernel/sched.c:175-224 | accounting, demotion, aging, quota reset and the kill check in order, then schedule, keeping the invariant |
| `Kernel.Scheduler.LockPass` | src/kernel/locks.c:80-130 | one pass of mutex_lock: acquire, or boost, join the wait queue through the shared link field and block |
| `Kernel.Scheduler.TryLock` | src/kernel/locks.c:132-146 | succeeds exactly on a free lock, which it then holds |
| `Kernel.Scheduler.Unlock` | src/kernel/locks.c:148-184 | releases, restores the tier, and moves the first waiter from the wait queue to its run queue |
| `Kernel.Scheduler.FindSlot` | src/kernel/task.c:248-264 | the first slot not in use, or none if all are |
| `Kernel.Scheduler.Create` | src/kernel/task.c:278-314 | a fresh task on exactly its own queue |
| `Kernel.Scheduler.RunAll` | src/kernel/sched.c:72-224 | every legal run on the linked lists is the run of the step machine, with all lists intact |
| `Pte.FrameIs` | src/vm/vm.c:152-153 | the frame mask and the flag mask split an entry into quotient and remainder by 4096 |
| `Pte.FlagsAre` | src/vm/vm.c:146-150 | present, writable and user are the three low bits |
| `Pte.SetWritable` | src/vm/vm.c:156 | setting the writable bit changes nothing else of an entry |
| `Pte.ClearWritable` | src/vm/vm.c:195 | clearing it changes nothing else |
| `Pte.Redirect` | src/vm/vm.c:165 | the entry built for the copy names the new frame, keeps the other flags and is writable |
| `Cow.TakenGood` | src/kernel/paging.c:61-92 | taking a free frame keeps every frame in exactly one use with the right count |
| `Cow.DroppedGood` | src/kernel/paging.c:127-145 | dropping one entry's reference keeps the counts right, and frees the frame exactly when it was the last |
| `Cow.PointedGood` | src/vm/vm.c:160-167 | pointing the entry at a fresh frame keeps counts, and writable entries solely owning their frames |
| `Cow.UnprotectedGood` | src/vm/vm.c:154-159 | making the sole entry of a frame writable keeps both |
| `Cow.UnlinkedGood` | src/kernel/process.c:58-61 | freeing an emptied page table's frame keeps both |
| `Cow.UndirectedGood` | src/kernel/process.c:63-64 | so does freeing the directory's frame |
| `Mapping.DirectedGood` | src/kernel/paging.c:94-120 | making a frame the directory of a new space keeps one use per frame |
| `Mapping.TabledGood` | src/kernel/paging.c:156-169 | so does a new page table, whose frame has the count 0 |
| `Mapping.EntryGood` | src/kernel/paging.c:171-173 | a new entry for a frame in kernel hands keeps the counts right and is alone on its frame |
| `Mapping.FreeExactly` | src/kernel/paging.c:26-48 | conservation: a frame is free if and only if nothing maps it and it is no table, no directory and in no kernel use |
| `Vm.Machine.constructor` | src/kernel/paging.c:207-232 | paging_init leaves every managed frame free, in order, which meets the ownership invariant |
| `Vm.StoreIsolated` | src/vm/vm.c:126-168 | a store through a writable entry is seen through no other entry of any space |
| `Vm.Machine.StoreWord` | src/vm/vm.c:126-168 | a user store changes one word of what its address reads and nothing of what any other reads |
| `Vm.Machine.AllocFrame` | src/kernel/paging.c:61-92 | returns the head of the free list with count one, or 0 exactly when the list is empty |
| `Vm.Machine.NewSpace` | src/kernel/paging.c:94-120 | a space with a directory and no user page, exactly when a frame is free |
| `Vm.Machine.MapPage` | src/kernel/paging.c:147-174 | the frame is mapped writable at the address if a page table is there or can be had; otherwise nothing changes |
| `Vm.Machine.FreeFrame` | src/kernel/paging.c:127-145 | drops one reference; at zero a managed frame returns to the list's head |
| `Vm.Machine.CopyPhys` | src/vm/vm.c:110-124 | the target page becomes the source page and no other page changes |
| `Vm.Machine.FaultCow` | src/vm/vm.c:126-168 | succeeds exactly on a present user entry that is writable, alone on its frame, or can be copied; then the page is writable; every page of every space reads the same; a failure changes nothing |
| `Vm.Machine.Fault` | src/vm/vm.c:170-175 | a fault is handled exactly when it is a present user write fault of a task with a map and the entry can be resolved; then the page is writable; all reads are the same, and a failure changes nothing |
| `Protect.ProtectedGood` | src/vm/vm.c:177-203 | setting every count of a space to one keeps the invariant if and only if none of its frames has a second mapping |
| `Vm.Machine.ProtectReadonly` | src/vm/vm.c:177-203 | every mapping survives, nothing of the space stays writable, all reads are the same, and the counts are right exactly under that condition |
| `VmWitness.SharedFrameIsGood` | src/vm/vm.c:196-199 | a state that meets the invariant in which the condition fails |
| `Vm.Machine.ReleaseTable` | src/kernel/process.c:48-62 | one reference is dropped per present entry, then the table's frame is freed, keeping all counts right |
| `Vm.Machine.Teardown` | src/kernel/process.c:43-65 | the whole space is gone, every other space has its tables and reads the same, and all counts are right |
| `Forking.SpacePagesAre` | src/kernel/process.c:197-219 | the list of a space's pages holds exactly the mapped ones, in order of address |
| `Forking.Collect` | src/kernel/process.c:197-219 | the two loops give that list, or fail exactly when it is longer than 256 |
| `Forking.CopyPage` | src/kernel/process.c:321-336 | one page is copied to the first free frame and mapped; without a frame nothing changes; without one for its table the frame is lost |
| `Forking.Fork` | src/kernel/process.c:197-336 | exact condition for success, exact condition for the child to read as its parent, what it lacks otherwise, exactly when a frame is lost; other spaces read the same; a failure restores tables and directories |
| `VmRuns.NothingShared` | src/vm/vm.c:177-203 | where no two addresses share a frame, vm_protect_readonly's condition holds for every space |
| `VmRuns.MapFresh` | src/kernel/elf.c:95-109 | a page where none is: exactly when it is mapped, what it reads, and that nothing else reads differently |
| `VmRuns.Run` | src/kernel/paging.c:61-232 | over every run of new spaces, mappings, forks, faults, stores, protections and teardowns ownership stays right, no frame is shared, and what an address reads changes only by its own stores, mapping or teardown |
| `VmRuns.RunFromInit` | src/kernel/paging.c:207-232 | every run from paging_init keeps that, and maps nothing but what it asks for |
| `VmRuns.FaultThenStore` | src/vm/vm.c:126-175 | a user's write fault on a present page is handled if a frame is free or none is shared, and the write then changes one word of that page and nothing anybody else reads |
| `VmRuns.ForkAndRun` | src/kernel/process.c:311-343 | after a fork the frames suffice for, and any run, an address of the child not itself written, mapped or torn down reads what the parent read at the fork |
| `VmRuns.ForkWithoutStack` | src/kernel/process.c:321-336 | from paging_init: with two frames left, the fork of a space with one stack page succeeds and the child has none |
| `Octal.TarOctal` | src/fs/tar.c:4-17 | the number spelled by the leading octal digits, modulo 2^32, for any bytes |
| `Octal.FieldRoundTrip` | src/fs/tar.c:4-17 | reading a ustar number field gives back the number printed in it if and only if that is below 2^32 |
| `Tar.AfterIs` | src/fs/tar.c:57-61 | below 4 GiB the walk moves to the block after the header and the padded data |
| `Tar.AfterIncreases` | src/fs/tar.c:57-61 | the block index strictly increases if and only if the entry's data begins below 4 GiB, whatever the header says |
| `Tar.AfterWraps` | src/fs/tar.c:57-61 | an empty file in the last block below 4 GiB sends the walk back to block 0 |
| `Tar.NextEntry` | src/fs/tar.c:25-64 | an entry exactly for a readable block with the magic and a name; name, type, size and data offset as the header says |
| `Tar.NextIs` | src/fs/tar.c:25-64 | an entry is a whole block that does not begin with NUL and has the magic at 257; where its type, name and data are |
| `Tar.FindEntry` | src/fs/tar.c:66-82 | ends on every device below 4 GiB, with the first entry of that name or with failure if there is none |
| `Tar.LookupIsFirst` | src/fs/tar.c:66-82 | that entry is the first of its name, and there is none exactly when no entry has it |
| `Tar.Mount` | src/fs/tarfs.c:200-236 | the regular files of the walk, in order |
| `Tar.RegularAre` | src/fs/tarfs.c:200-236 | the files mounted are exactly the entries of type '0' or NUL |
| `Tar.WalkLists` | src/fs/tar.c:25-64 | the walk over any archive lists exactly its members in order, with their data offsets and sizes, and stops at its end |
| `Tar.MountedData` | src/fs/tarfs.c:200-236 | the k-th file of a mounted archive names exactly the k-th regular member's data |
| `Tar.NameIsPath` | src/fs/tar.c:46-52 | the walker's name is the header's ustar path if and only if the prefix is empty and the name has at most 99 bytes |
| `PageCache.SectorsCover` | src/fs/tarfs.c:48-58 | the sectors read begin at the page's first byte and deliver its part of the file |
| `PageCache.CachedCount` | src/fs/page_cache.c:35-45 | a full cache holds 64 different pages, and only then is no slot free |
| `TarFs.FileSystem.Find` | src/fs/page_cache.c:23-33 | finds a slot exactly when the page is cached |
| `TarFs.FileSystem.AllocSlot` | src/fs/page_cache.c:35-45 | fails exactly when 64 pages are cached |
| `TarFs.FileSystem.TarReadPage` | src/fs/tarfs.c:33-59 | the frame holds the page, or the page is past the end of the file, or the device failed |
| `TarFs.FileSystem.ReadPage` | src/fs/page_cache.c:47-96 | on success the buffer holds the page; exactly that page is added to the cache; frames are conserved; failure means no slot, no frame, no such page or a device fault |
| `TarFs.FileSystem.ReadAhead` | src/fs/tarfs.c:113-124 | only fills the cache with pages that the read wants anyway, one frame each; without device faults the next four of them are cached, unless slots or frames run out |
| `TarFs.WantIsGreatest` | src/fs/tarfs.c:84-88 | the length a read is cut to is the greatest that is no more than asked for and stays inside the file |
| `TarFs.FileSystem.Read` | src/fs/tarfs.c:61-133 | the buffer receives a prefix of the image slice clipped to the file, the rest is untouched, the position advances by as much; without device faults the prefix is the whole slice if and only if the cached and wanted pages fit into 64 slots and the free frames |
| `TarFs.EmptyCacheFits` | src/fs/tarfs.c:61-133 | from an empty cache the read is whole if and only if it touches at most 64 pages and no more than there are frames |
| `TarFs.ReadStopsShort` | src/fs/tarfs.c:61-133 | a read of a whole file of 65 pages stops short, however many frames are free |
| `Mounted.MountedFilesOk` | src/fs/tarfs.c:172-243 | mounting an archive yields a file table that satisfies what the read path relies on |
| `Mounted.ReadIsMemberData` | src/fs/tarfs.c:61-133 | the device bytes a read of the k-th file delivers are the k-th regular member's data |
| `Mounted.ReadMounted` | src/fs/tarfs.c:61-267 | mounting an archive and reading a file from its start delivers a prefix of that member's data and leaves the rest of the buffer; without device faults it is the least of the length and the file, to the last byte, if and only if that is at most 64 pages and no more than the free frames |
| `FlatText.ClampNearest` | src/user/povi/string.hpp:84-90 | a clamped index is the nearest one in range |
| `FlatText.InsertFlat` | src/user/povi/editor.cpp:104-117 | typing any character, newline included, inserts it into the flat text at the cursor's offset and moves past it |
| `FlatText.BackspaceFlat` | src/user/povi/editor.cpp:119-134 | backspace deletes the character before the offset, if there is one |
| `FlatText.DeleteFlat` | src/user/povi/editor.cpp:136-141 | delete removes the character at the offset, if there is one |
| `FlatText.MovesFlat` | src/user/povi/editor.cpp:36-60 | left and right move the offset by one and stop at the ends of the text |
| `FlatText.VerticalInRange` | src/user/povi/editor.cpp:62-80 | up and down keep the cursor in range |
| `FlatText.VerticalFlat` | src/user/povi/editor.cpp:62-80 | up and down go to the same column of the neighbouring line of the flat text, or to that line's end |
| `FlatText.FlatInjective` | src/user/povi/buffer.cpp:3-61 | two buffers with the same flat text have the same lines |
| `FlatText.OffsetInjective` | src/user/povi/editor.cpp:36-60 | two cursors at the same offset are at the same row and column |
| `FlatText.BackspaceUndoesInsert` | src/user/povi/editor.cpp:104-134 | backspace after inserting any character restores lines and cursor |
| `FlatText.DeleteUndoesInsert` | src/user/povi/editor.cpp:104-141 | so do moving left and delete |
| `FlatText.EditFlat` | src/user/povi/editor.cpp:36-141 | each key does to the flat text and offset what a flat editor does |
| `Povi.Text.Reserve` | src/user/povi/string.hpp:143-165 | there is room, the contents are kept, and storage is old or fresh |
| `Povi.Text.Append` | src/user/povi/string.hpp:68-74 | contents followed by the new characters |
| `Povi.Text.InsertAt` | src/user/povi/string.hpp:82-96 | the character at the clamped index, by the shifting loop |
| `Povi.Text.EraseAt` | src/user/povi/string.hpp:98-107 | that character gone, or nothing outside the string |
| `Povi.Text.Truncate` | src/user/povi/string.hpp:109-118 | the prefix of the clamped length, in place |
| `Povi.Text.Substr` | src/user/povi/string.hpp:120-130 | a string of its own with the suffix |
| `Povi.Text.Assign` | src/user/povi/string.hpp:137-141 | the other string's contents, without sharing storage; a string assigned to itself becomes empty |
| `Povi.Vector.Grow` | src/user/povi/vector.hpp:83-93 | the same elements in a larger array |
| `Povi.Vector.PushBack` | src/user/povi/vector.hpp:39-44 | the element at the end |
| `Povi.Vector.Insert` | src/user/povi/vector.hpp:46-60 | the element at the clamped index, others in order |
| `Povi.Vector.Remove` | src/user/povi/vector.hpp:62-71 | the others in order |
| `PoviBuffer.Buffer.InsertLine` | src/user/povi/buffer.cpp:41-48 | an empty line with storage of its own at the clamped row |
| `PoviBuffer.Buffer.DeleteLine` | src/user/povi/buffer.cpp:50-61 | the row gone, but the last line only emptied: at least one line remains |
| `PoviBuffer.Buffer.InsertChar` | src/user/povi/buffer.cpp:3-19 | on pointers: the line with the character, or split in two without sharing storage |
| `PoviBuffer.Buffer.DeleteChar` | src/user/povi/buffer.cpp:21-39 | on pointers: the line without it, or joined with the next line |
| `PoviEditor.Editor.InsertChar` | src/user/povi/editor.cpp:104-117 | the editor's state follows the lines-and-cursor view and the cursor stays in range |
| `PoviEditor.Editor.EraseBack` | src/user/povi/editor.cpp:119-134 | the same for backspace |
| `PoviEditor.Editor.EraseHere` | src/user/povi/editor.cpp:136-141 | the same for delete |
| `PoviEditor.Editor.MoveLeft` | src/user/povi/editor.cpp:36-47 | the same for left |
| `PoviEditor.Editor.MoveRight` | src/user/povi/editor.cpp:49-60 | the same for right |
| `PoviEditor.Editor.MoveUp` | src/user/povi/editor.cpp:62-70 | the same for up |
| `PoviEditor.Editor.MoveDown` | src/user/povi/editor.cpp:72-80 | the same for down |
| `PoviEditor.Editor.PressAll` | src/user/povi/editor.cpp:36-141 | after any keystrokes, text and offset are those of the flat editor |
| `PoviEditor.Editor.TypeAndErase` | src/user/povi/editor.cpp:104-134 | typing a key and backspace leave the editor as it was |
| `Restarts.StepInv` | src/kernel/watchdog.c:58-158 | a tick, a check or an exit keeps an entry's invariant: what is pending, how long it waited, how often it was respawned |
| `Restarts.RunBounded` | src/kernel/watchdog.c:58-158 | in every run an entry is respawned at most 5 times, at most twice if no life lasted 10 ticks; the r-th respawn is at least 5 * 2^(r-1) ticks after the r-th noticed death; a pending spawn means no managed task |
| `Restarts.GaveUpForever` | src/kernel/watchdog.c:58-158 | an entry that gave up never changes or spawns again |
| `Restarts.GivesUpIff` | src/kernel/watchdog.c:81-125 | a death is given up on if and only if five were scheduled before, or it ends the third life in a row of less than 10 ticks; otherwise the delay is 5, 10, 20, 40 or 80 ticks |
| `Restarts.CheckSpawns` | src/kernel/watchdog.c:131-158 | a spawn that is due is made by the first check that can, and stays due until then |
| `Restarts.FirstSpawn` | src/kernel/watchdog.c:127-158 | an entry registered without a task gets one at the first tick and check |
| `Restarts.ComesBack` | src/kernel/watchdog.c:58-158 | a death not given up on is followed, after exactly its delay and one check that can spawn, by a live task again |
| `Restarts.FiveRespawns` | src/kernel/watchdog.c:58-158 | a task whose lives all last 10 ticks is respawned after each of its first five deaths, whatever their lengths, and not after the sixth |
| `Watchdog.Table.constructor` | src/kernel/watchdog.c:31-35 | an empty table at tick 0 |
| `Watchdog.Table.Register` | src/kernel/watchdog.c:37-56 | a fresh machine in the next slot, or -1 exactly when 8 are in use; others unchanged |
| `Watchdog.Table.Tick` | src/kernel/watchdog.c:58-128 | every entry takes its own tick step and keeps its invariant |
| `Watchdog.Table.Check` | src/kernel/watchdog.c:130-158 | every entry takes its own check step and keeps its invariant |
| `Sandbox.AndBit` | src/kernel/process.c:255-256 | masking capabilities is intersection, bit by bit |
| `Sandbox.NeedMet` | src/kernel/syscall.c:607 | a capability need met by part of the capabilities is met by all of them |
| `Sandbox.WithinAdmits` | src/fs/vfs.c:15-27 | every path admitted below a root is admitted by the root |
| `Sandbox.ForkNoLooser` | src/kernel/process.c:255-299 | whatever the configuration, a child's capabilities, system calls, limits and admitted paths are within its parent's |
| `Sandbox.LineageNoLooser` | src/kernel/process.c:255-494 | the same for every descendant of every ancestor, along any forks and execs |
| `Sandbox.ForkGives` | src/kernel/process.c:255-299 | exactly what a child has: each capability of the parent that is allowed, or all if none is named; the least of the limits that are set, the quota cut to 100; the root asked for, cut to 63 characters, or the parent's |
| `Sandbox.ForkResult` | src/kernel/process.c:278-309 | exactly when a fork fails, and how: a bad root pointer, a root outside the parent's, more pages than the limit checks |
| `Sandbox.PlainLineage` | src/kernel/process.c:255-494 | execs, and forks without a configuration, change nothing |
| `Sandbox.WithinIff` | src/kernel/process.c:116-127 | a path is within a root if and only if it is the root or the root, a slash and more |
| `Sandbox.AdmitsIff` | src/fs/vfs.c:15-27 | the paths a root admits, in those terms |
| `Sandbox.PermitsIff` | src/kernel/syscall.c:603-610 | a system call is permitted if and only if every capability bit it needs is held |
| `Sandbox.PageLimitTighter` | src/kernel/process.c:301-309 | for every 64-bit limit of the parent, the exact requests for which the enforced page limit is no looser |
| `Sandbox.SubPageLimitIsNone` | src/kernel/process.c:301-309 | a request of 100 bytes is stored but checks nothing |
| `Sandbox.WideLimitIsCut` | src/kernel/process.c:301-309 | a child of a parent limited to 2^44 + 4096 bytes that asks for two pages may have two, its parent one |

## Left out

- KernelHeap.Heap.Alloc: a request that rounds to more than 2^32 - 4096 bytes is excluded while the last block is live; `GrowNothing` says what grow_heap then does.
- KernelHeap.Heap.Grow: the same needs are excluded while the last block is live.
- KernelHeap.Heap.GrowNothing: the words just past the heap are taken to be mapped, as they are in `BreakHeap`; where they are not, the first store faults.
- KernelHeap.Heap.constructor: heap_init's 64 frames are there; it ignores a failed expand_heap.
- KernelHeap.Heap.Free: pointers the heap did not hand out and double frees are excluded; the source does not detect them.
- KernelHeap.Heap.MapPages: a fresh page's contents are arbitrary, the number of free frames is a parameter, and the frames map_page takes for kernel page tables are not counted.
- Kernel.Scheduler.Schedule: the self-loop hazard is excluded; what happens in it is `HazardBreaksQueue`.
- Kernel.Scheduler.Yield: a yield that meets that hazard is excluded.
- Kernel.Scheduler.Tick: a tick that meets that hazard is excluded.
- Kernel.Scheduler.Enqueue: a task that is still on a list is excluded; for the tail `EnqueueTailCycles` says what happens, for a waiter `EnqueueCutsWaiters`.
- Kernel.Scheduler.Exit: an exit whose parent is blocked in the mutex is excluded, exactly as `ExitInvIff` shows is needed.
- SchedInherit.HeldTier: nothing but the mutex changes the holder's tier while it holds the lock, and the holder does not exit holding it.
- SchedMutex.RunMutex: runs in which a kill strikes the last woken waiter are excluded, exactly as `StepMutex` shows is needed.
- Kernel.Scheduler.WaitChild: sys_wait's state change and its dequeue are done in the other order, which `LeavingOrder` shows to be the same.
- Kernel.Scheduler.Create: a slot's kernel stack and address space are not modelled; create and enqueue are one step; the capability that a tier override of sys_fork needs is not modelled.
- Scheduler steps are atomic; there is one mutex; the idle task never locks, waits, yields or exits; a parent woken by a child's exit is not one blocked in the mutex (`ExitInvIff`); the count of consecutive ticks at a level is unbounded; the slots that the watchdog frees inside a tick are a step of their own.
- Vm.Machine.FaultCow: page-table recursion addresses, invlpg and cr3 are replaced by a map from address space and page to entry; the temporary mappings of vm_copy_phys and paging_create_task_pd, whose map_page may take a frame for a kernel page table, are not modelled.
- Vm.Machine.MapPage: user pages only, with the flags all callers give; an address with a page present is excluded, which elf_load checks and spawn_user_process does not for the stack.
- Forking.Fork: the task slot, the sandbox's limits (see `Sandbox`) and the child's kernel stack are left out.
- Vm.Machine.Teardown: page tables outside the user part of the directory are not in the map.
- TarFs.FileSystem.TarReadPage: page numbers are below 2^20, as tarfs_read's are.
- TarFs.FileSystem.ReadPage: the tier recorded in a slot is dropped, and page numbers are below 2^20, as tarfs_read's are.
- TarFs.FileSystem.Read: a file's offset and size stay within 4 GiB and within the device; the device's contents do not change.
- Tar.FindEntry: devices of 4 GiB and more are excluded, for there the walk need not end (`AfterIncreases`).
- Tar.Mount: the same devices are excluded; kmalloc does not fail while inodes and directory entries are made; the dentry list itself is not modelled.
- Tar.NextEntry: tar_skip_name is left out, since it moves a local pointer only.
- Povi.Text.Assign: two different strings do not share storage, which no member of the class lets happen.
- Povi.Text.Reserve: the arena allocator's exhaustion and the overflow of a doubled capacity are not modelled.
- PoviEditor.Editor.InsertChar: screen, modes, scrolling, commands and file load and save are left out.
- Watchdog.Table.Check: whether a spawn succeeds is a parameter; paths and tiers of entries are dropped; one task is managed by one entry.
- Sandbox.ForkNoLooser: the tier override of sys_fork is left out; strings hold no NUL.
- Drivers, ports, boot, interrupt descriptors, assembly and serial messages: hardware and text output.
- Spinlocks, the shell, the system call table, memfs, ramfs, kstring, mount and path lookup: they would only add easy members.
- vm_object shadow chains and deferred block writes: nothing in the kernel calls them.
- ELF loading and the plumbing of spawn_user_process and sys_exec: error handling over calls modelled elsewhere.
