/** Runs from boot in which fork faults, and in which a failed fork does not restore the page tables. */
module KernelFailures {
  import opened Errno
  import opened Tasks
  import opened TaskInvariant
  import opened Paging
  import opened AddressSpace
  import opened Cloning
  import opened Ownership
  import opened KernelSteps
  import opened KernelSafety
  import opened KernelRuns
  import opened KernelProgress
  import opened KernelLimit
  import Heap
  import Runs

  lemma BootCapacity(k: Kern)
    requires Booted(k)
    ensures |AvailableSet(k.m.used)| == 356
  {
    BootFree();
    BootOwned(k.m, 1);
    Capacity(k.m, {1});
  }

  /** Nobody is blocked. */
  predicate NobodyBlocked(s: Sys) {
    |s.queues| == NUM_QUEUES && forall i :: 0 <= i < NUM_SEM ==> s.queues[SemQueue(i)] == []
  }

  lemma BootRings()
    ensures Boot().queues[FREE] == [2, 3, 4, 5, 6, 7, 8, 9] && Boot().queues[READY] == [] && NobodyBlocked(Boot())
    ensures Boot().current == 1 && Boot().idle == 0
  {
  }

  // ---- a fork that faults

  lemma RingsAfterThread(page: int)
    requires !PastLimit(page)
    ensures var s := ThreadCreateStep(Boot(), true, page, true).0;
            Shape(s) && s.queues[FREE] == [3, 4, 5, 6, 7, 8, 9] && NobodyBlocked(s)
  {
    BootRings();
  }

  /** A caller with a heap and its own table, frames and a free slot at hand. */
  lemma HeapFaults(k: Kern)
    requires GeneralInv(k) && k.s.current != k.s.idle && NobodyBlocked(k.s) && k.s.queues[FREE] != []
    requires |AvailableSet(k.m.used)| >= NUM_PAG_DATA && k.m.dir[k.s.current] != k.s.queues[FREE][0]
    requires k.m.heapPtr[k.s.current] > INIT_HEAP
    ensures Admissible(k, ForkCall) && Faults(k, ForkCall)
  {
    CallerFit(k);
    EnoughFrames(k.m.used, k.m.tables[k.s.queues[FREE][0]]);
  }

  /** The state after init has created its first thread. */
  lemma FirstThread(k0: Kern) returns (k: Kern)
    requires Booted(k0)
    ensures k in Next(k0, NewThread()) && GeneralInv(k) && k.s.current == 1 && k.s.idle == 0
    ensures k.s.queues[FREE] == [3, 4, 5, 6, 7, 8, 9] && NobodyBlocked(k.s)
    ensures k.m.dir[1] == 1 && k.m.heapPtr[1] > INIT_HEAP && |AvailableSet(k.m.used)| == 355
  {
    BootClimbed(k0);
    var c, f;
    k, c, f := CreateThread(k0, 0);
    RingsAfterThread(HeapPage(k0.m, 1));
    BootCapacity(k0);
    TookOne(k0.m.used, k.m.used, f);
  }

  lemma ReachOne(k0: Kern, call: Call, k: Kern)
    requires k in Next(k0, call)
    ensures Reaches(k0, [call], k)
  {
    assert [] + [call] == [call];
    Runs.ReachMore(Next, k0, [], k0, call, k);
  }

  /** init has created one thread: its heap is no longer empty, and its next fork faults. */
  lemma ForkFaultReached(k0: Kern) returns (k: Kern)
    requires Booted(k0)
    ensures Reaches(k0, [NewThread()], k) && GeneralInv(k)
    ensures Admissible(k, ForkCall) && Faults(k, ForkCall)
  {
    k := FirstThread(k0);
    HeapFaults(k);
    ReachOne(k0, NewThread(), k);
  }

  lemma TookOne(u0: seq<bool>, u: seq<bool>, f: int)
    requires Available(u0, f) && u == u0[f := true]
    ensures |AvailableSet(u)| == |AvailableSet(u0)| - 1
  {
    assert Took(u0, u, [f]);
    TookCount(u0, u, [f]);
  }

  // ---- page tables that are not restored

  /** init has a child in slot 2, which is ready. */
  predicate ChildReady(s: Sys) {
    && Shape(s) && s.current == 1 && s.idle == 0 && s.queues[READY] == [2]
    && s.queues[FREE] == [3, 4, 5, 6, 7, 8, 9] && NobodyBlocked(s)
  }

  /** init runs and all slots from 2 on are free. */
  predicate InitAlone(s: Sys) {
    && Shape(s) && s.current == 1 && s.idle == 0 && s.queues[READY] == []
    && s.queues[FREE] == [2, 3, 4, 5, 6, 7, 8, 9] && NobodyBlocked(s)
  }

  lemma RingsAfterFork(s: Sys)
    requires InitAlone(s)
    ensures ChildReady(ForkStep(s, true).0)
  {
  }

  lemma TwoLive(s: Sys)
    requires ChildReady(s)
    ensures Live(s) == {1, 2}
  {
    forall t | 3 <= t < NR_TASKS
      ensures t in s.queues[FREE]
    {
      assert s.queues[FREE][t - 3] == t;
    }
  }

  lemma BootStart(k: Kern)
    requires Booted(k)
    ensures PlainInv(k) && InitAlone(k.s)
  {
    BootPlain(k);
    BootRings();
  }

  lemma PlainFork(k0: Kern) returns (k: Kern)
    requires PlainInv(k0) && k0.s.current != k0.s.idle && NobodyBlocked(k0.s) && k0.s.queues[FREE] != []
    ensures k in Next(k0, ForkCall) && PlainInv(k) && k.s == ForkStep(k0.s, true).0
  {
    FramesAtHand(k0);
    PlainNeverFaults(k0, ForkCall);
    k := ForkProgress(k0);
    PlainForkKeeps(k0, k);
  }

  lemma ForkChild(k0: Kern) returns (k: Kern)
    requires PlainInv(k0) && InitAlone(k0.s)
    ensures k in Next(k0, ForkCall) && PlainInv(k) && ChildReady(k.s)
  {
    k := PlainFork(k0);
    RingsAfterFork(k0.s);
  }

  lemma TwoProcesses(k: Kern)
    requires PlainInv(k) && ChildReady(k.s)
    ensures Owned(k.m, {1, 2}) && |AvailableSet(k.m.used)| == 336
  {
    TwoLive(k.s);
    Capacity(k.m, {1, 2});
  }

  /** The child has the CPU and init is ready. */
  predicate ChildRuns(s: Sys) {
    && Shape(s) && s.current == 2 && s.idle == 0 && s.queues[READY] == [1]
    && s.queues[FREE] == [3, 4, 5, 6, 7, 8, 9] && NobodyBlocked(s)
  }

  lemma YieldRings(s: Sys)
    requires ChildReady(s) && Enabled(s, Yield)
    ensures ChildRuns(Step(s, Yield))
  {
  }

  /** The child runs. */
  lemma RunChild(k1: Kern) returns (k: Kern)
    requires GeneralInv(k1) && ChildReady(k1.s)
    ensures k in Next(k1, Plain(Yield)) && GeneralInv(k) && k.m == k1.m && ChildRuns(k.s)
  {
    k := Kern(Step(k1.s, Yield), k1.m);
    YieldRings(k1.s);
    Leads(k1, k, Plain(Yield));
    StepKeeps(k1, k, Plain(Yield));
  }

  /** init has the CPU and the child's slot is the last free one. */
  predicate ChildGone(s: Sys) {
    Shape(s) && s.current == 1 && s.idle == 0 && s.queues[FREE] == [3, 4, 5, 6, 7, 8, 9, 2] && NobodyBlocked(s)
  }

  /** 336 frames are left, init has an empty heap, and slot 2 has data pages. */
  ghost predicate DataLeft(m: Mem) {
    && Sized(m) && |AvailableSet(m.used)| == 336 && m.tables[2][DataPage(0)] != EMPTY
    && m.dir[1] == 1 && m.heapPtr[1] == INIT_HEAP
  }

  lemma ExitRings(s: Sys)
    requires ChildRuns(s)
    ensures ChildGone(ExitStep(s, false))
  {
  }

  lemma ReleasesNothing(m: Mem)
    requires Owned(m, {1, 2}) && |AvailableSet(m.used)| == 336
    ensures 0 <= HeapPage(m, 2) <= TOTAL_PAGES && DataLeft(StackReleased(m, 2))
  {
    assert m.tables[2][FIRST_HEAP_PAGE] == EMPTY;
    assert m.tables[2][DataPage(0)] == Mapped(DataFrame(m, 2, 0));
    assert StackReleased(m, 2).used == m.used;
  }

  /** The child ends with threadExit: its slot is free and its data still mapped. */
  lemma EndChild(k2: Kern) returns (k: Kern)
    requires GeneralInv(k2) && ChildRuns(k2.s) && Owned(k2.m, {1, 2}) && |AvailableSet(k2.m.used)| == 336
    ensures k in Next(k2, ThreadExitCall) && GeneralInv(k) && ChildGone(k.s) && DataLeft(k.m)
  {
    ReleasesNothing(k2.m);
    ExitRings(k2.s);
    k := Kern(ExitStep(k2.s, false), StackReleased(k2.m, 2));
    Leads(k2, k, ThreadExitCall);
    StepKeeps(k2, k, ThreadExitCall);
  }

  const MOST_PAGES := 317

  /** Nineteen frames are left, and the slot with the old data is n places behind the head of the free ring. */
  ghost predicate Short(k: Kern, n: nat) {
    && GeneralInv(k) && k.s.current == 1 && k.s.idle == 0 && NobodyBlocked(k.s)
    && |AvailableSet(k.m.used)| == 19
    && n < |k.s.queues[FREE]| && k.s.queues[FREE][n] == 2 && k.m.tables[2][DataPage(0)] != EMPTY
  }

  /** The heap grows by 317 pages. */
  lemma HeapTaken(m: Mem, m': Mem, r: int)
    requires MemSafe(m) && Sized(m') && m.dir[1] == 1 && m.heapPtr[1] == INIT_HEAP && |AvailableSet(m.used)| == 336
    requires Heap.SbrkEffect(m, m', 1, MOST_PAGES * PAGE_SIZE, r)
    ensures |AvailableSet(m'.used)| == 19 && m'.tables[2] == m.tables[2]
  {
    assert !Heap.Fails(INIT_HEAP, MOST_PAGES * PAGE_SIZE, 336);
    var fs :| |fs| == Heap.PagesFor(MOST_PAGES * PAGE_SIZE) && Heap.GrewBy(m, m', 1, fs);
    TookCount(m.used, m'.used, fs);
  }

  /** init takes 317 pages. */
  lemma TakeHeap(k3: Kern) returns (k: Kern)
    requires GeneralInv(k3) && ChildGone(k3.s) && DataLeft(k3.m)
    ensures k in Next(k3, SbrkCall(MOST_PAGES * PAGE_SIZE)) && Short(k, 7)
  {
    k := Progress(k3, SbrkCall(MOST_PAGES * PAGE_SIZE));
    StepKeeps(k3, k, SbrkCall(MOST_PAGES * PAGE_SIZE));
    var r :| Heap.SbrkEffect(k3.m, k.m, 1, MOST_PAGES * PAGE_SIZE, r);
    HeapTaken(k3.m, k.m, r);
  }

  /** A fork fails here with -EAGAIN. */
  lemma ForkFails(k: Kern, n: nat)
    requires Short(k, n)
    ensures Admissible(k, ForkCall) && !Faults(k, ForkCall) && ForkReturn(k) == -EAGAIN
  {
    EnoughFrames(k.m.used, k.m.tables[k.s.queues[FREE][0]]);
  }

  /** A fork that fails on another slot moves the ring on. */
  lemma Rotate(k: Kern, n: nat) returns (k': Kern)
    requires Short(k, n) && n > 0
    ensures k' in Next(k, ForkCall) && Short(k', n - 1)
  {
    ForkFails(k, n);
    k' := Progress(k, ForkCall);
    StepKeeps(k, k', ForkCall);
    FailedForkExact(k, k');
    HeadAlone(k.s.queues, multiset{k.s.current}, k.s.idle, FREE);
    assert k.s.queues[FREE][1..][n - 1] == 2;
  }

  /** The fork that meets the old data clears it. */
  lemma TablesChange(k: Kern, k': Kern)
    requires Short(k, 0) && k' in Next(k, ForkCall)
    ensures k'.m.tables != k.m.tables
  {
    ForkFails(k, 0);
    FailedForkExact(k, k');
    assert !FirstUnmapped(k.m.tables[2], 19);
  }

  lemma ReachRotated(k0: Kern, calls: seq<Call>, k: Kern, n: nat) returns (k': Kern)
    requires Reaches(k0, calls, k) && Short(k, n) && n > 0
    ensures Reaches(k0, calls + [ForkCall], k') && Short(k', n - 1)
  {
    k' := Rotate(k, n);
    Runs.ReachMore(Next, k0, calls, k, ForkCall, k');
  }

  lemma {:induction false} RotateAll(k0: Kern, calls: seq<Call>, k: Kern, n: nat) returns (calls': seq<Call>, k': Kern)
    requires Reaches(k0, calls, k) && Short(k, n)
    ensures Reaches(k0, calls', k') && Short(k', 0) && |calls'| == |calls| + n
    decreases n
  {
    if n == 0 {
      calls', k' := calls, k;
    } else {
      var k1 := ReachRotated(k0, calls, k, n);
      calls', k' := RotateAll(k0, calls + [ForkCall], k1, n - 1);
    }
  }

  /** The first four calls. */
  lemma Shortage(k0: Kern) returns (calls: seq<Call>, k: Kern)
    requires Booted(k0)
    ensures Reaches(k0, calls, k) && |calls| == 4 && Short(k, 7)
  {
    var sbrk := SbrkCall(MOST_PAGES * PAGE_SIZE);
    BootStart(k0);
    var k1 := ForkChild(k0);
    TwoProcesses(k1);
    var k2 := RunChild(k1);
    var k3 := EndChild(k2);
    k := TakeHeap(k3);
    ReachOne(k0, ForkCall, k1);
    Runs.ReachMore(Next, k0, [ForkCall], k1, Plain(Yield), k2);
    Runs.ReachMore(Next, k0, [ForkCall] + [Plain(Yield)], k2, ThreadExitCall, k3);
    Runs.ReachMore(Next, k0, [ForkCall] + [Plain(Yield)] + [ThreadExitCall], k3, sbrk, k);
    calls := [ForkCall] + [Plain(Yield)] + [ThreadExitCall] + [sbrk];
  }

  /**
    A run of eleven calls from boot after which fork fails with -EAGAIN and, whatever state it leads to,
    has changed a page table: a child of init has ended with threadExit, and only nineteen frames are left.
   */
  lemma TablesNotRestored(k0: Kern) returns (calls: seq<Call>, k: Kern)
    requires Booted(k0)
    ensures Reaches(k0, calls, k) && |calls| == 11 && GeneralInv(k)
    ensures Admissible(k, ForkCall) && !Faults(k, ForkCall) && ForkReturn(k) == -EAGAIN
    ensures Next(k, ForkCall) != iset{} && forall k' :: k' in Next(k, ForkCall) ==> k'.m.tables != k.m.tables
  {
    calls, k := Shortage(k0);
    calls, k := RotateAll(k0, calls, k, 7);
    ForkFails(k, 0);
    var k5 := Progress(k, ForkCall);
    forall k' | k' in Next(k, ForkCall)
      ensures k'.m.tables != k.m.tables
    {
      TablesChange(k, k');
    }
  }
}
