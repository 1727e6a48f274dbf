# ZeOS kernel: tasks, memory and boot loader in Dafny

A model of the ZeOS teaching kernel (the `ZeOSSysenter` tree) and machine-checked proofs about it:

- **Tasks** (`Tasks`, `TaskInvariant`, `TaskTheorem`, `EntryLaws`, `TaskRuns`, `Semaphores`, `SemaphoreLaws`): ten task slots move between the free
  ring, the ready ring, the semaphores' rings and the CPU. The machine is a function on values, one kernel entry up to
  its task switch per step. Ring 0 is `freequeue`, ring 1 `readyqueue`, ring 2 + i the `blocked` ring of semaphore i.
- **Rings** (`Lists`, `Sched`): the same entries on heap nodes with `next` and `prev` pointers and on mutable task
  structs, proved to make exactly the steps of the machine.
- **Memory** (`Copy`, `Paging`, `AddressSpace`, `Cloning`, `Ownership`, `Heap`): the frame byte map, the per-slot page
  tables, physical memory, and fork, exit and sbrk on them.
- **Kernel** (`KernelSteps`, `Kernel`): tasks and memory driven by the same calls; `Kernel.Kernel` runs them on the rings
  and arrays, and every method makes one step of the kernel machine. **Theorems about whole runs** are in
  `KernelSafety` (all runs, threads and heaps included), `NewTasks` (what a new task gets), `KernelPids`, `KernelRuns` (runs
  without threads and heaps), `KernelTasks` (what
  holds of task runs holds of kernel runs) and `KernelProgress` (the machine never blocks); `KernelLimit` and
  `KernelFailures` are runs in which an expected property fails; `Runs` is the general theory of runs.
- **Boot loader** (`Boot`): the read loop of the boot sector on 16-bit registers.
- **Smaller parts** (`UserAccess`, `Keyboard`, `Console`, `Division`, `Itoa`; constants in `Errno`, `Word32`).

`dafny verify dfyconfig.toml` checks everything.

Where a property one would expect is false of the code, the code is modelled as it is and the exact condition is proved:

- a kernel entry keeps the task invariant *iff* it is not a fork while somebody is blocked, a threadCreate whose heap
  pointer is past page 1024, or a semCreate with a negative value (`StepKeepsIffSafe`; concrete runs in
  `ForkOrphansInit` and `DebtAtBoot`). The threadCreate case is never met: in every reachable state the guard is false
  (`GuardIsFalse`). The pointer does reach page 1024, where the guard lets the call pass and its first store faults;
  `LimitReached` is a run of 2160 calls that gets there;
- a failed fork restores the frame map *iff* frame 256 is in use, which it always is, and the page tables *iff* the data
  pages it tried were unmapped (`RollbackExact`); they are unless a process has ended its own task with threadExit, the
  one call that leaves data pages in a free slot (`TidyIff`). `TablesNotRestored` is a run of eleven calls to such a fork;
- a failed fork keeps the semaphores *iff* none is in use: they are reset before the pages are allocated and not
  restored (`FailedForkExact`);
- a fork with frames at hand faults *iff* the caller's data is unmapped or its heap is not empty, unless it forks into the
  very table it runs in (`ForkSpace`); after its first threadCreate init can no longer fork (`ForkFaultReached`). The page
  tables decide here: with a stale TLB entry for the window page fork would return instead, see below;
- a write that access_ok accepts prints its buffer, and a getKey delivers its key, *iff* the buffer does not reach into
  page 284 (`SysWrite`, `GetKey`);
- the boot loader stops *iff* `syssize < 0xF000` and stays below its own code *iff* `syssize < 0x8000`;
- the keyboard ring is a queue *iff* at most 256 keys are pending; a shrinking sbrk releases no frame at all, and one
  that goes below address 0 wraps around, reports success and does nothing (`SbrkMeans`).

## Model

| member | source | states |
|---|---|---|
| Lists.InitListHead | ZeOSSysenter/zeos/list.c:6-10 | adds an empty ring to any family of disjoint rings and leaves the others alone |
| Lists.ResetListHead | ZeOSSysenter/zeos/list.c:6-10 | on the head of a ring in the family: that ring becomes empty, its members belong to none, the others are kept |
| Lists.InsertBetween | ZeOSSysenter/zeos/list.c:18-26 | links a loose node between two neighbours: next and prev stay mutually inverse and circular in every ring |
| Lists.ListAdd | ZeOSSysenter/zeos/list.c:36-39 | refines prepend on the ring's sequence, all other rings untouched |
| Lists.ListAddTail | ZeOSSysenter/zeos/list.c:50-53 | refines append |
| Lists.ListDel | ZeOSSysenter/zeos/list.c:62-79 | refines removal at any position without being told the ring; the node ends loose with null pointers |
| Lists.ListEmpty | ZeOSSysenter/zeos/list.c:96-99 | true exactly when the ring has no member |
| Lists.ListFirst | ZeOSSysenter/zeos/include/list.h:131-132 | the first member, or the head itself when the ring is empty |
| Tasks.FirstUnused | ZeOSSysenter/zeos/sys.c:491-492 | the first semaphore slot not in use, or none |
| TaskTheorem.DispatchKeeps | ZeOSSysenter/zeos/sched.c:130-152 | dispatching from a parked state restores the invariant; falling back on idle happens only if idle is in no ring |
| TaskTheorem.DrainExact | ZeOSSysenter/zeos/sys.c:539-546 | the drain loop appends all waiters, newest first, to the ready tail, makes them READY and empties the ring |
| TaskTheorem.ForkResult | ZeOSSysenter/zeos/sys.c:280-328 | fork keeps the task invariant iff the free ring is empty or nobody is blocked |
| TaskTheorem.ForkOrphans | ZeOSSysenter/zeos/sys.c:295-300 | every waiter that fork finds, in whichever ring, is in no ring and not running afterwards |
| TaskTheorem.ThreadLost | ZeOSSysenter/zeos/sys.c:214-215 | past the logical page limit the slot taken from the free ring is in no ring and not running afterwards |
| TaskTheorem.SemCreateResult | ZeOSSysenter/zeos/sys.c:490-502 | semCreate keeps the invariant iff the value is not negative or no semaphore is free |
| TaskTheorem.StepKeepsIffSafe | ZeOSSysenter/zeos/sys.c:151-552 | the exact theorem: any enabled entry leads from a good state to a good state iff it is safe; for threadCreate that is the guard on the page of the heap pointer |
| TaskTheorem.InvEnables | ZeOSSysenter/zeos/sys.c:518-531 | in a good state a signal with count < 0 always finds a waiter, so only idle's calls, semaphore 10 and the faulting threadCreate are excluded |
| TaskTheorem.BootInv | ZeOSSysenter/zeos/sched.c:164-251 | the state that main reaches is good |
| EntryLaws.BootLaw | ZeOSSysenter/zeos/sched.c:164-251 | PIDs, TIDs, quanta, rings and blank semaphores at the start |
| EntryLaws.TickLaw | ZeOSSysenter/zeos/sched.c:102-162 | a tick takes one from the quantum; the last one hands the CPU on with ten ticks if somebody is ready, and else refills ten |
| EntryLaws.YieldLaw | ZeOSSysenter/zeos/sched.c:282-287 | the caller goes to the ready tail, the head runs with ten ticks, and nothing else changes |
| EntryLaws.ExitLaw | ZeOSSysenter/zeos/sys.c:151-166 | exit and threadExit append the slot to the free ring; only exit makes it forget its PID; the next ready task or idle runs |
| EntryLaws.ForkLaw | ZeOSSysenter/zeos/sys.c:274-395 | results -12, -11 or the new PID; the child is the caller with that PID at the ready tail; the semaphores are blank; nothing else changes |
| EntryLaws.ThreadLaw | ZeOSSysenter/zeos/sys.c:175-264 | results -14, -12, -1, -11 or the new TID; the thread is the caller with that TID and the same PID; nothing else changes |
| EntryLaws.CreateLaw | ZeOSSysenter/zeos/sys.c:490-502 | the first semaphore not in use gets its number, the value and the caller's PID, and nothing else changes; -1 iff all are in use |
| EntryLaws.StrangerLaw | ZeOSSysenter/zeos/sys.c:505-507 | wait, signal and destroy return -1 and do nothing unless the semaphore is in use and was created under the caller's PID |
| EntryLaws.WaitLaw | ZeOSSysenter/zeos/sys.c:508-515 | the owner takes a permit, or blocks in front of the ring and the next task runs; the result is 0 |
| EntryLaws.SignalLaw | ZeOSSysenter/zeos/sys.c:522-530 | the owner gives a permit back, or wakes the first waiter to the ready head; the result is 0 |
| EntryLaws.DestroyLaw | ZeOSSysenter/zeos/sys.c:539-551 | all waiters are ready, newest first, the semaphore is blank, every other one as before; the result is 0 |
| TaskRuns.RunKeeps | ZeOSSysenter/zeos/sched.c:114-162 | safety of whole runs: every state of a legal run is good |
| TaskRuns.ReachablePartition | ZeOSSysenter/zeos/sched.c:114-162 | in every state reachable from boot each slot but idle is in exactly one place, and idle in at most one |
| TaskRuns.IdleStays | ZeOSSysenter/zeos/sched.c:135-142 | once idle has run it stays running or ready, and it first appears exactly at a fallback |
| TaskRuns.FallbackAtMostOnce | ZeOSSysenter/zeos/sched.c:135-142 | the empty-queue branch of sched_next_rr is taken at most once per run |
| TaskRuns.SlotsConserved | ZeOSSysenter/zeos/sched.c:114-162 | a safe entry conserves the multiset of slots, except that a fallback brings idle in |
| TaskRuns.PositionStep | ZeOSSysenter/zeos/sched.c:130-162 | a ready task moves up one at a dispatch, down one only at a wake-up, otherwise stays |
| TaskRuns.WaitCost | ZeOSSysenter/zeos/sched.c:102-112 | while a task waits each tick costs one unit of patience and a wake-up gives ten back |
| TaskRuns.BoundedWaiting | ZeOSSysenter/zeos/sched.c:102-162 | a task with k ahead of it runs within 10 * (k + 1 + w) ticks, w being the wake-ups meanwhile |
| TaskRuns.CreateOrphansNobody | ZeOSSysenter/zeos/sys.c:496 | semCreate's INIT_LIST_HEAD always meets an empty ring |
| TaskRuns.ForkOrphansInit | ZeOSSysenter/zeos/sys.c:295-300 | a concrete run from boot in which a fork leaves the blocked init task in no ring and not running |
| TaskRuns.DebtAtBoot | ZeOSSysenter/zeos/sys.c:490-502 | semCreate(-1) at boot breaks the invariant |
| Semaphores.CountLaw | ZeOSSysenter/zeos/sys.c:508-522 | over any run count changes by signals minus waits |
| Semaphores.SemaphoreSafety | ZeOSSysenter/zeos/sys.c:490-531 | after semCreate(v): count = v + signals - waits, blocked = max(0, -count), granted waits <= v + signals with equality when somebody is blocked |
| Semaphores.HoldersLaw | ZeOSSysenter/zeos/sys.c:504-531 | holders of granted waits and spare permits always add up to v |
| Semaphores.MutualExclusion | ZeOSSysenter/zeos/sys.c:504-531 | if tasks signal only after a granted wait, at most v are inside; v = 1 is mutual exclusion |
| Semaphores.WakesNewest | ZeOSSysenter/zeos/sys.c:512-528 | the next signal wakes the most recently blocked task, whatever happened in between |
| SemaphoreLaws.OnlyOwnerMoves | ZeOSSysenter/zeos/sys.c:504-552 | an entry moves count or ring of a semaphore in use only if a task with the creator's PID calls on it, or it is a fork that blanks all |
| SemaphoreLaws.OthersCannotMove | ZeOSSysenter/zeos/sys.c:504-552 | over whole runs count and ring stay as they are while nobody with the creator's PID calls on the semaphore |
| SemaphoreLaws.CreatorMayUse | ZeOSSysenter/zeos/sys.c:490-552 | over whole runs exactly the tasks with the creator's PID may use a semaphore until it is destroyed or blanked |
| SemaphoreLaws.DestroyedIsGone | ZeOSSysenter/zeos/sys.c:548-551 | after semDestroy, wait, signal and destroy return -1 and do nothing, whoever calls, until a semCreate returns that number |
| SemaphoreLaws.DestroyedIsFree | ZeOSSysenter/zeos/sys.c:490-502 | the next semCreate returns the smaller of the destroyed number and the one it would have returned |
| SemaphoreLaws.DestroyUndoesCreate | ZeOSSysenter/zeos/sys.c:490-552 | semCreate then semDestroy gives the whole state back |
| SemaphoreLaws.SignalUndoesWait | ZeOSSysenter/zeos/sys.c:504-531 | a semWait that did not block then a semSignal gives the whole state back |
| Sched.Scheduler.constructor | ZeOSSysenter/zeos/sched.c:164-251 | init_sched, init_idle and init_task1 build rings that hold the boot state |
| Sched.Scheduler.SchedNextRR | ZeOSSysenter/zeos/sched.c:130-152 | on the rings: exactly the machine's dispatch |
| Sched.Scheduler.UpdateProcessStateRR | ZeOSSysenter/zeos/sched.c:114-128 | unlinks the task iff its state is not RUN, appends it to the ready ring and makes it READY |
| Sched.Scheduler.NeedsSchedRR | ZeOSSysenter/zeos/sched.c:107-112 | true iff the quantum is over and somebody is ready; a quantum that ends with nobody ready is refilled |
| Sched.Scheduler.ScheduleTick | ZeOSSysenter/zeos/sched.c:154-162 | on the rings: exactly the machine's tick, and the invariant is kept |
| Sched.Scheduler.ForceTaskSwitch | ZeOSSysenter/zeos/sched.c:282-287 | on the rings: exactly the machine's yield |
| Sched.Scheduler.Retire | ZeOSSysenter/zeos/sys.c:453-459 | the queue half of exit and threadExit |
| Sched.Scheduler.BeginFork | ZeOSSysenter/zeos/sys.c:282-300 | takes the first free slot, copies the struct and its list node, resets the ten semaphores |
| Sched.Scheduler.CommitFork | ZeOSSysenter/zeos/sys.c:370-394 | names the child, makes it READY and appends it to the ready ring |
| Sched.Scheduler.ForkQueues | ZeOSSysenter/zeos/sys.c:280-394 | the queue half of sys_fork and its return value, for either outcome of the page allocation |
| Sched.Scheduler.ThreadCreateQueues | ZeOSSysenter/zeos/sys.c:178-263 | the queue half of sys_threadCreate, with its test on the page of the heap pointer and the slot lost past the limit |
| Sched.Scheduler.SemCreateCall | ZeOSSysenter/zeos/sys.c:490-502 | on the rings: exactly the machine's semCreate and its result |
| Sched.Scheduler.SemWaitCall | ZeOSSysenter/zeos/sys.c:504-516 | on the rings: exactly the machine's semWait and its result |
| Sched.Scheduler.SemSignalCall | ZeOSSysenter/zeos/sys.c:518-531 | on the rings: exactly the machine's semSignal, which always finds a waiter when it needs one |
| Sched.Scheduler.SemDestroyCall | ZeOSSysenter/zeos/sys.c:533-552 | on the rings: exactly the machine's semDestroy (see DestroyLaw); the drain loop terminates by ring length |
| Sched.Scheduler.Enter | ZeOSSysenter/zeos/sched.c:154-162 | any entry on the rings is the machine's step, and the invariant survives iff it was safe |
| Sched.Scheduler.EnterAll | ZeOSSysenter/zeos/sched.c:130-162 | after any legal run the rings hold exactly the queues of the machine's final state |
| Copy.CopyData | ZeOSSysenter/zeos/utils.c:5-19 | words then bytes copy the range exactly if the ranges are disjoint or the copy moves down; all else is untouched |
| Paging.InitFrames | ZeOSSysenter/zeos/mm.c:203-215 | exactly the kernel's frames are in use |
| Paging.AllocFrame | ZeOSSysenter/zeos/mm.c:219-232 | takes the lowest free even frame from 256 on, or returns -1 exactly when there is none |
| Paging.FreeFrame | ZeOSSysenter/zeos/mm.c:247-251 | releases only frames strictly between 256 and 1024 |
| Paging.SetSsPag | ZeOSSysenter/zeos/mm.c:254-262 | the entry maps the frame present, writable, for the user; all other entries are kept |
| Paging.DelSsPag | ZeOSSysenter/zeos/mm.c:265-268 | the entry is cleared; all other entries are kept |
| AddressSpace.Memory.SetUserPages | ZeOSSysenter/zeos/mm.c:85-110 | init's code gets frames 256, 258, ..., 270 read-only and its data the next twenty even frames |
| AddressSpace.Memory.InitMemory | ZeOSSysenter/zeos/mm.c:58-81 | memory when main enters user mode: frames, tables and heap of init, and every kernel entry bit by bit with the two guard pages |
| AddressSpace.Exclusive | ZeOSSysenter/zeos/mm.c:219-273 | in ordered memory no other page of any table reaches the frame of a mapped data, stack or heap page |
| AddressSpace.MapKeepsSafe | ZeOSSysenter/zeos/mm.c:254-262 | mapping fresh frames keeps memory in order |
| AddressSpace.ReleaseKeepsSafe | ZeOSSysenter/zeos/mm.c:247-268 | releasing and unmapping one page keeps memory in order, also at entry 1024 of a table |
| AddressSpace.ExitKeepsSafe | ZeOSSysenter/zeos/sys.c:440-445 | the frames that exit releases back no other page |
| Cloning.TakeExact | ZeOSSysenter/zeos/sys.c:309-315 | the frames the loop takes are fresh and distinct, and all there were unless all twenty pages got one |
| Cloning.RollbackExact | ZeOSSysenter/zeos/sys.c:316-329 | the rollback restores the frame map iff frame 256 was in use, and the table iff the pages tried were unmapped |
| Cloning.AllocData | ZeOSSysenter/zeos/sys.c:309-330 | the loops on arrays do exactly what their functions on values do |
| Cloning.CopyThroughWindow | ZeOSSysenter/zeos/sys.c:346-348 | copies one page through the temporary mapping and restores the parent's table exactly, or faults iff the source is unmapped |
| Cloning.CloneData | ZeOSSysenter/zeos/sys.c:343-349 | the twenty child frames hold the parent's bytes, every other frame and the parent's table are unchanged; a fault iff a data page is unmapped |
| Cloning.CopyHeap | ZeOSSysenter/zeos/sys.c:351-364 | the heap loop: with two tables it faults on the first heap page; in the caller's own table it overwrites only heap frames, and physical frame 0 for a heap page that is not mapped |
| Cloning.ForkSpace | ZeOSSysenter/zeos/sys.c:287-364 | clone, failed allocation or page fault, and exactly when each |
| Cloning.CloneKeepsSafe | ZeOSSysenter/zeos/sys.c:309-349 | a clone keeps memory in order, whoever the caller is |
| AddressSpace.Memory.ExitSpace | ZeOSSysenter/zeos/sys.c:438-451 | the data frames of the caller's table are released and its data pages unmapped, nothing else |
| Ownership.CloneKeepsOwned | ZeOSSysenter/zeos/sys.c:309-349 | after a clone every used frame still has exactly one owner, the child included |
| Ownership.ReleaseKeepsOwned | ZeOSSysenter/zeos/sys.c:440-445 | exit keeps ownership without the exiting process and never frees a code frame |
| Ownership.Isolated | ZeOSSysenter/zeos/sys.c:309-349 | no other page of any slot, live or free, is mapped to a live process's data frame |
| Ownership.Capacity | ZeOSSysenter/zeos/mm.c:219-232 | available frames number 384 - 8 - 20 * processes |
| Ownership.BootOwned | ZeOSSysenter/zeos/mm.c:85-110 | in the first user state init owns every user frame in use |
| Heap.Sbrk | ZeOSSysenter/zeos/sys.c:79-132 | success and failure exactly characterised; growth maps distinct fresh frames or leaves pointer and frames alone; a shrink releases no frame, and from the last page it clears the first entry of the next table |
| Heap.FailureRestores | ZeOSSysenter/zeos/sys.c:101-107 | if the pages above the pointer were unmapped, a failed growth changes nothing |
| Heap.PointerInRange | ZeOSSysenter/zeos/sys.c:79-132 | over any sequence of calls the pointer stays page-aligned in [INIT_HEAP, 1024 * 4096] |
| Heap.SbrkKeeps | ZeOSSysenter/zeos/sys.c:79-132 | whatever sbrk does, memory stays in order, only heap pages change and the pointer stays in range |
| Heap.SbrkMeans | ZeOSSysenter/zeos/sys.c:79-132 | result and new pointer in plain numbers: the old pointer or 0, exactly when 0, rounding up to pages when growing and down when shrinking, and the shrink that wraps around |
| Kernel.Kernel.SysFork | ZeOSSysenter/zeos/sys.c:274-395 | any caller, threads included: -12 iff no slot is free; after -11 frames, memory and other slots are as before, the free ring is rotated, the semaphores are kept iff none was in use and the tables iff the pages tried were unmapped; a positive result is the new PID of the child, a copy of the caller and a clone; exactly when it faults; the kernel invariant is kept |
| Kernel.Kernel.SysExit | ZeOSSysenter/zeos/sys.c:434-460 | rings and memory together: one step of the kernel machine that keeps its invariant |
| Kernel.Kernel.SysThreadCreate | ZeOSSysenter/zeos/sys.c:175-264 | wherever the heap pointer is: a positive result is the new thread's TID and means a fresh stack page with 0x777, the function and its parameter at bytes 4084, 4088 and 4092; -EAGAIN with the release loop (no effect on frames and tables unless the pointer is below the heap); the slot lost past the limit; the fault at page 1024; the kernel invariant is kept |
| Kernel.Kernel.SysThreadExit | ZeOSSysenter/zeos/sys.c:151-166 | the page under the caller's heap pointer is released and the slot freed; the kernel invariant is kept |
| Kernel.Kernel.SysSbrk | ZeOSSysenter/zeos/sys.c:79-132 | the whole effect and result of sbrk on the caller's heap; the kernel invariant is kept |
| Kernel.Kernel.constructor | ZeOSSysenter/zeos/sched.c:164-251 | rings and memory when main enters user mode satisfy the kernel invariant |
| Kernel.Kernel.Enter | ZeOSSysenter/zeos/sys.c:79-552 | any call is a step of the kernel machine and keeps its invariant, or faults exactly where the machine says so |
| Kernel.Kernel.EnterAll | ZeOSSysenter/zeos/sys.c:79-552 | any legal sequence of calls, on the rings and arrays, makes a run of the kernel machine |
| KernelSafety.StepKeeps | ZeOSSysenter/zeos/sys.c:79-552 | every call that returns keeps task partition, memory order and heap pointers, for threads and processes alike |
| KernelSafety.RunKeeps | ZeOSSysenter/zeos/sys.c:79-552 | safety of whole runs of the kernel |
| KernelSafety.RunIsolated | ZeOSSysenter/zeos/mm.c:219-273 | in every state of every run, threads and heaps included, no frame backs two data, stack or heap pages, and each mapped frame is in use (addresses being translated by the tables as they stand) |
| KernelSafety.GuardIsFalse | ZeOSSysenter/zeos/sys.c:214-215 | in every good state the heap pointer is at most at page 1024, so the guard of threadCreate is false |
| KernelSafety.SlotLostIff | ZeOSSysenter/zeos/sys.c:214-215 | the slot taken is lost iff the pointers are good and the heap pointer is past page 1024 |
| KernelSafety.TidyIff | ZeOSSysenter/zeos/sys.c:151-166 | a call leaves data pages in a free slot iff it is a threadExit by a task in its own table with its data mapped |
| KernelSafety.FailedForkExact | ZeOSSysenter/zeos/sys.c:295-329 | after -EAGAIN frames, memory and the other slots are as before, the free ring is rotated, the slot tried holds a copy of the caller's struct and all semaphores are blank: they are kept iff none was in use, and the page tables iff the pages tried were unmapped |
| KernelSafety.FailedForkRollsBack | ZeOSSysenter/zeos/sys.c:316-329 | in every run from boot, for any caller, a fork returning -EAGAIN restores frames, memory and other slots and rotates the free ring; the semaphores iff none was in use; all tables if no process ended by threadExit |
| NewTasks.ForkClones | ZeOSSysenter/zeos/sys.c:303-394 | a fork that returns a PID, by a thread or a process, whatever threads and heaps exist: the child's struct is the caller's with that PID, which nobody else has; equal bytes on frames nobody else maps, shared kernel and code frames, every other struct, table and used frame as before |
| NewTasks.ThreadStarts | ZeOSSysenter/zeos/sys.c:196-263 | a threadCreate that returns a TID: the thread's struct, the fresh stack page at the caller's old heap pointer, the words 0x777, function and parameter read back from bytes 4084, 4088 and 4092, both heap pointers, and nothing else |
| NewTasks.ThreadEnds | ZeOSSysenter/zeos/sys.c:151-161 | a threadExit frees the frame at the caller's heap pointer, unmaps that page and touches no other |
| KernelPids.PidStepKeeps | ZeOSSysenter/zeos/sys.c:79-552 | every call keeps live PIDs positive and lets tasks share a PID only if they share their table |
| KernelPids.RunPids | ZeOSSysenter/zeos/sys.c:370-370 | in every state of every run from boot live PIDs lie between 1 and the last one given, and tasks in different tables have different PIDs |
| KernelPids.PlainRunPids | ZeOSSysenter/zeos/sys.c:370-370 | in runs without threads all live PIDs are different |
| KernelTasks.StepProjects | ZeOSSysenter/zeos/sys.c:79-552 | each call of the kernel is a safe step of the task machine, sbrk none |
| KernelTasks.Events | ZeOSSysenter/zeos/sys.c:79-552 | a kernel run projects to a legal run of the task machine between the same task states |
| KernelTasks.KernelBoundedWaiting | ZeOSSysenter/zeos/sched.c:102-162 | in a kernel run a ready task has the CPU within 10 * (k + 1 + w) clock interrupts |
| KernelTasks.KernelSemaphores | ZeOSSysenter/zeos/sys.c:490-531 | semaphore accounting over kernel runs |
| KernelTasks.KernelFallbackOnce | ZeOSSysenter/zeos/sched.c:135-142 | the idle fallback happens at most once in a kernel run |
| KernelProgress.Progress | ZeOSSysenter/zeos/sys.c:79-552 | every admissible call faults or has a successor state, so the theorems about runs are not vacuous |
| KernelFailures.ForkFaultReached | ZeOSSysenter/zeos/sys.c:351-364 | after one threadCreate from boot, init's next fork faults in the heap loop |
| KernelFailures.TablesNotRestored | ZeOSSysenter/zeos/sys.c:316-329 | a run of eleven calls from boot after which fork returns -EAGAIN and has changed a page table |
| KernelLimit.Climb | ZeOSSysenter/zeos/sys.c:151-264 | a run in which n threads come and go leaves their creator's heap pointer n pages higher |
| KernelLimit.LimitReached | ZeOSSysenter/zeos/sys.c:214-245 | a run from boot after which threadCreate finds a free slot and a frame, passes its guard at page 1024, and faults |
| KernelRuns.PlainNeverFaults | ZeOSSysenter/zeos/sys.c:274-460 | no call of a run without threads and heaps faults |
| KernelRuns.PlainStepKeeps | ZeOSSysenter/zeos/sys.c:274-460 | a step of such a run keeps ownership, and fork never lacks frames while there is a free slot |
| KernelRuns.PlainRunOwned | ZeOSSysenter/zeos/sys.c:274-460 | in every state of such a run from boot: unique owners, the capacity formula, and fork fails only with -ENOMEM |
| KernelRuns.PlainForkClones | ZeOSSysenter/zeos/sys.c:303-349 | in a run without threads and heaps every fork that finds a free slot succeeds and makes a perfect clone |
| Boot.ReadIt | ZeOSSysenter/zeos/bootsect.S:210-257 | every BIOS read is servable; sectors 1, 2, 3, ... go in order to 0x10000, 0x10200, ...; stops after the segment that holds the end |
| Boot.TurnInStep | ZeOSSysenter/zeos/bootsect.S:224-257 | one turn on wrapping 16-bit registers keeps disk position and address in step |
| Boot.ReadServable | ZeOSSysenter/zeos/bootsect.S:259-284 | each read moves at least one sector and stays in one track and one 64 KB segment |
| Boot.LoadedOnce | ZeOSSysenter/zeos/bootsect.S:218-257 | exactly one read transfers sector s, to 0x10000 + 512 * (s - 1) |
| Boot.ImageCovered | ZeOSSysenter/zeos/build.c:167-171 | with the size build writes, exactly one read transfers the sector of each byte b of the image and puts it at 0x10000 + b |
| Boot.StaysBelowBootSector | ZeOSSysenter/zeos/bootsect.S:218-223 | nothing at or above 0x90000 is written iff syssize < 0x8000 |
| Boot.TerminatesIff | ZeOSSysenter/zeos/bootsect.S:218-257 | read_it stops iff syssize < 0xF000 |
| Keyboard.LatestIsNext | ZeOSSysenter/zeos/interrupt.c:52-57 | the newest key in a cell is the next to deliver iff at most 256 are pending |
| Keyboard.TypeThenRead | ZeOSSysenter/zeos/interrupt.c:52-57 | keys typed and not read: the first getKey delivers key 0 if at most 256 are pending, and key 256 after 257 presses |
| Keyboard.Ring.KeyboardRoutine | ZeOSSysenter/zeos/interrupt.c:44-59 | stores on codes with the top bit; pointers and count follow the history |
| Keyboard.Ring.GetKey | ZeOSSysenter/zeos/sys.c:57-66 | return codes; the delivered keys are the stored ones in order while at most 256 were ever pending, written through the page table; a fault with the ring as it was iff the accepted pointer is not mapped, which for a process means page 284 |
| Console.Terminal.SysWrite | ZeOSSysenter/zeos/sys.c:399-424 | -9, -22 or -14, printing nothing; or exactly the buffer across 512-byte chunks and the result nbytes; or a fault after the whole chunks before the first unreadable one, iff the accepted buffer reaches page 284 |
| Console.Terminal.WriteConsole | ZeOSSysenter/zeos/devices.c:8-16 | prints size bytes in order and returns size |
| UserAccess.AccessOkRange | ZeOSSysenter/zeos/utils.c:64-83 | for reading and, the case for writing having no break, for writing: a range is accepted iff it starts in the user pages, does not wrap and ends at the latest in page 284, one past the last user page |
| UserAccess.ReadableIff | ZeOSSysenter/zeos/utils.c:64-83 | what access_ok accepts is mapped in a process's table iff it is empty or ends below page 284 |
| UserAccess.AcceptedButUnreadable | ZeOSSysenter/zeos/utils.c:78-82 | 5000 bytes from the start of page 283 pass access_ok and cannot be read |
| UserAccess.OwnedUserTable | ZeOSSysenter/zeos/mm.c:85-110 | every process of a run without threads and heaps maps code and data and not page 284 |
| Console.CopyFromUser | ZeOSSysenter/zeos/utils.c:21-36 | words then bytes through the page table equal a byte copy; a fault iff a byte is unmapped |
| Division.DoDiv | ZeOSSysenter/zeos/utils.c:111-123 | quotient and remainder are exact for every 64-bit n, and the second divide never overflows |
| Division.GetTicks | ZeOSSysenter/zeos/utils.c:129-140 | floor(tsc / 109000) mod 2^32 |
| Itoa.Itoa | ZeOSSysenter/zeos/libc.c:12-34 | a zero-terminated decimal string without leading zero that parses back to a; a negative number gives the empty string |
| Itoa.Strlen | ZeOSSysenter/zeos/libc.c:36-45 | the position of the first zero |
| Itoa.StrlenOfDecimal | ZeOSSysenter/zeos/libc.c:36-45 | on what itoa wrote, strlen is the digit count |

## Left out

- The older tree `zeOSpparri`: its fork, tick and write differ; only the newer tree is modelled.
- Stack switching, sysenter, MSR, GDT, IDT, TSS and A20 code: `task_switch` is `current := t`, BIOS calls are records in a log.
- The TLB: addresses are translated by the page table as it stands. The heap loop of fork writes to a window page just
  unmapped, without a flush. A stale translation would send that write to the child's data frame; fork would then return
  with the child's window pages mapped to the caller's heap frames, and no frame backing two pages would be false.
- What the page-fault handler does: it is in a library whose source is not part of this model. A run ends at a fault.
- Statistics (`p_stats`), screen, sprites, user programs and the file I/O of build.c.
- Semaphore number 10: the guards admit it for a ten-entry array, and what lies behind the array is not part of this model.
- The word behind the last page table, which slot 9 reaches as entry 1024: it is taken to be zero and stores to it are dropped.
- Heap.Sbrk: sizes whose rounding overflows 32 bits; frame 256 is asked to be in use, as it is in every reachable state.
- Copy.CopyData: copies that move up over an overlap; no caller makes one.
- Kernel.Kernel.SysThreadCreate: what access_ok says of the three pointers is a parameter; the heap is asked to start below the end of the table.
- The destinations of update_process_state_rr other than the ready ring: no caller uses them.
- Scan codes beyond the 98 entries of char_map, and wrap-around of PIDs, TIDs and semaphore counts after 2^31 steps.
- Accessed and dirty bits that the processor sets in page-table entries, and the write protection of code pages.
