/**
  The logical page limit is reached: each thread that comes and goes leaves its creator's heap pointer one
  page higher, and the threadCreate after the 720th faults at page 1024, which its guard lets pass.
 */
module KernelLimit {
  import opened Tasks
  import opened TaskInvariant
  import opened Paging
  import opened AddressSpace
  import opened KernelSteps
  import opened KernelSafety
  import Runs

  /** init alone, with its own table, after n threads have come and gone. */
  ghost predicate Climbed(k: Kern, n: nat) {
    && GeneralInv(k) && k.s.current == 1 && k.s.idle == 0
    && k.s.queues[READY] == [] && k.s.queues[FREE] != []
    && k.m.dir[1] == 1 && k.m.heapPtr[1] == INIT_HEAP + n * PAGE_SIZE && FrameLeft(k.m)
  }

  /** The thread that init has just created is about to run. */
  ghost predicate ThreadReady(k: Kern, k0: Kern, c: nat, f: int)
    requires KernOk(k0)
  {
    && GeneralInv(k) && k.s.current == 1 && k.s.idle == 0 && c < NR_TASKS && c != 0 && c != 1
    && k.s.queues[READY] == [c]
    && k.m.dir[1] == 1 && k.m.dir[c] == 1 && k.m.heapPtr[c] == k0.m.heapPtr[1] && k.m.heapPtr[1] == k0.m.heapPtr[1] + PAGE_SIZE
    && 0 <= HeapPage(k0.m, 1) < TOTAL_PAGES && f >= 0
    && Available(k0.m.used, f) && f > NUM_PAG_KERNEL && k.m.used == k0.m.used[f := true]
    && k.m.tables[1][HeapPage(k0.m, 1)] == Mapped(f)
  }

  function NewThread(): Call {
    ThreadCreateCall(true, 0, 0)
  }

  /** The memory in which the new thread has its stack. */
  ghost function WithStack(m: Mem, p: nat, c: nat): (m': Mem)
    requires Sized(m) && p < NR_TASKS && c < NR_TASKS && p != c && 0 <= HeapPage(m, p) < TOTAL_PAGES && FrameLeft(m)
    ensures Sized(m') && StackMapped(m, m', p, c, StackTop(0, 0))
  {
    var f := FirstFree(m.used, NUM_PAG_KERNEL);
    PageTaken(m, p, c, f).(ram := Overwritten(m.ram, f * PAGE_SIZE + STACK_TOP, StackTop(0, 0)))
  }

  lemma CreateThread(k: Kern, n: nat) returns (k': Kern, c: nat, f: int)
    requires Climbed(k, n) && INIT_HEAP + n * PAGE_SIZE < HEAP_LIMIT
    ensures k' in Next(k, NewThread()) && ThreadReady(k', k, c, f)
    ensures k'.s == ThreadCreateStep(k.s, true, HeapPage(k.m, 1), true).0
  {
    c := k.s.queues[FREE][0];
    f := FirstFree(k.m.used, NUM_PAG_KERNEL);
    HeadAlone(k.s.queues, multiset{k.s.current}, k.s.idle, FREE);
    assert c in k.s.queues[FREE];
    k' := Kern(ThreadCreateStep(k.s, true, HeapPage(k.m, 1), true).0, WithStack(k.m, 1, c));
    GuardIsFalse(k);
    Leads(k, k', NewThread());
    StepKeeps(k, k', NewThread());
  }

  lemma RunThread(k: Kern, k0: Kern, c: nat, f: int) returns (k': Kern)
    requires KernOk(k0) && ThreadReady(k, k0, c, f)
    ensures k' in Next(k, Plain(Yield)) && GeneralInv(k') && k'.m == k.m
    ensures k'.s.current == c && k'.s.idle == 0 && k'.s.queues[READY] == [1]
  {
    k' := Kern(Step(k.s, Yield), k.m);
    Leads(k, k', Plain(Yield));
    StepKeeps(k, k', Plain(Yield));
  }

  lemma EndThread(k: Kern, k0: Kern, k1: Kern, c: nat, f: int, n: nat) returns (k': Kern)
    requires Climbed(k0, n) && ThreadReady(k1, k0, c, f)
    requires GeneralInv(k) && k.m == k1.m && k.s.current == c && k.s.idle == 0 && k.s.queues[READY] == [1]
    ensures k' in Next(k, ThreadExitCall) && Climbed(k', n + 1)
  {
    k' := Kern(ExitStep(k.s, false), StackReleased(k.m, c));
    assert HeapPage(k.m, c) == HeapPage(k0.m, 1);
    assert k'.m.used == k0.m.used;
    Leads(k, k', ThreadExitCall);
    StepKeeps(k, k', ThreadExitCall);
    LiveExit(k.s, false);
  }

  /** n threads come and go. */
  lemma {:induction false} Climb(k0: Kern, n: nat) returns (calls: seq<Call>, k: Kern)
    requires Booted(k0) && INIT_HEAP + n * PAGE_SIZE <= HEAP_LIMIT
    ensures Reaches(k0, calls, k) && Climbed(k, n) && |calls| == 3 * n
  {
    if n == 0 {
      calls, k := [], k0;
      BootClimbed(k0);
    } else {
      calls, k := Climb(k0, n - 1);
      var k1, c, f := CreateThread(k, n - 1);
      var k2 := RunThread(k1, k, c, f);
      var k3 := EndThread(k2, k, k1, c, f, n - 1);
      Runs.ReachMore(Next, k0, calls, k, NewThread(), k1);
      Runs.ReachMore(Next, k0, calls + [NewThread()], k1, Plain(Yield), k2);
      Runs.ReachMore(Next, k0, calls + [NewThread()] + [Plain(Yield)], k2, ThreadExitCall, k3);
      calls, k := calls + [NewThread()] + [Plain(Yield)] + [ThreadExitCall], k3;
    }
  }

  lemma BootClimbed(k: Kern)
    requires Booted(k)
    ensures Climbed(k, 0)
  {
    BootGeneral(k);
    assert Available(k.m.used, 400);
    assert k.s.queues[FREE] == [2, 3, 4, 5, 6, 7, 8, 9];
  }

  /** After 720 threads init's next threadCreate finds a free slot and a frame, and faults. */
  lemma LimitReached(k0: Kern) returns (calls: seq<Call>, k: Kern)
    requires Booted(k0)
    ensures Reaches(k0, calls, k) && |calls| == 2160 && GeneralInv(k)
    ensures HeapPage(k.m, k.s.current) == TOTAL_PAGES && Admissible(k, NewThread()) && Faults(k, NewThread())
  {
    calls, k := Climb(k0, 720);
  }
}
