/**
  What holds in every state of every run of the kernel, threads and heaps included: no frame backs two
  pages, heap pointers stay in range, and a fork that runs out of frames rolls back.
 */
module KernelSafety {
  import opened Errno
  import opened Tasks
  import opened TaskInvariant
  import opened TaskTheorem
  import opened EntryLaws
  import opened Paging
  import Copy
  import opened AddressSpace
  import opened Cloning
  import opened KernelSteps
  import Runs
  import Heap

  const FIRST_PID := 1000

  ghost predicate HeapsOk(s: Sys, m: Mem)
    requires Shape(s) && Sized(m)
  {
    forall t :: t in Live(s) ==> m.heapStart[t] == INIT_HEAP && HeapOk(m.heapPtr[t])
  }

  /** New PIDs and TIDs are larger than all in the structs, and a semaphore not in use is blank. */
  predicate Names(s: Sys) {
    && s.lastPid >= FIRST_PID && s.lastTid >= FIRST_PID
    && (forall t :: 0 <= t < |s.tasks| ==> s.tasks[t].pid <= s.lastPid && s.tasks[t].tid <= s.lastTid)
    && forall i :: 0 <= i < |s.sems| && s.sems[i].semid == -1 ==> s.sems[i] == NO_SEM
  }

  ghost predicate GeneralInv(k: Kern) {
    Inv(k.s) && MemSafe(k.m) && HeapsOk(k.s, k.m) && Names(k.s)
  }

  // ---- every step keeps it

  lemma NamesCpu(s: Sys, e: Event)
    requires Inv(s) && Enabled(s, e) && Names(s) && (e.Tick? || e.Yield? || e.Exit? || e.ThreadExit?)
    ensures Names(Step(s, e))
  {
    if e.Tick? {
      TickLaw(s);
    } else if e.Yield? {
      YieldLaw(s);
    } else {
      ExitLaw(s, e);
    }
  }

  lemma NamesNew(s: Sys, e: Event)
    requires Inv(s) && Enabled(s, e) && Names(s) && (e.Fork? || e.ThreadCreate?)
    ensures Names(Step(s, e))
  {
    if e.Fork? {
      ForkLaw(s, e.frames);
    } else {
      ThreadLaw(s, e.accessOk, e.page, e.frame);
    }
  }

  lemma NamesSem(s: Sys, e: Event)
    requires Inv(s) && Enabled(s, e) && Names(s) && (e.SemCreate? || e.SemWait? || e.SemSignal? || e.SemDestroy?)
    ensures Names(Step(s, e))
  {
    if e.SemCreate? {
      CreateLaw(s, e.value);
      assert (forall i :: 0 <= i < 10 ==> s.sems[i].semid != -1) || exists i :: 0 <= i < 10 && s.sems[i].semid == -1;
    } else if !Owner(s, e.id) {
      StrangerLaw(s, e.id);
    } else if e.SemWait? {
      WaitLaw(s, e.id);
    } else if e.SemSignal? {
      SignalLaw(s, e.id);
    } else {
      NamesDestroy(s, e.id);
    }
  }

  lemma NamesDestroy(s: Sys, id: int)
    requires Inv(s) && s.current != s.idle && Names(s) && Owner(s, id)
    ensures Names(SemDestroyStep(s, id).0)
  {
    DestroyLaw(s, id);
    var s' := SemDestroyStep(s, id).0;
    forall t | 0 <= t < 10
      ensures s'.tasks[t].pid == s.tasks[t].pid && s'.tasks[t].tid == s.tasks[t].tid
    {
      assert t in s.queues[2 + id] ==> NowIn(s, s', t, Ready);
    }
  }

  lemma NamesKept(s: Sys, e: Event)
    requires Inv(s) && Enabled(s, e) && Names(s)
    ensures Names(Step(s, e))
  {
    if e.Tick? || e.Yield? || e.Exit? || e.ThreadExit? {
      NamesCpu(s, e);
    } else if e.Fork? || e.ThreadCreate? {
      NamesNew(s, e);
    } else {
      NamesSem(s, e);
    }
  }

  lemma PlainKeeps(k: Kern, k': Kern, e: Event)
    requires GeneralInv(k) && k' in Next(k, Plain(e))
    ensures GeneralInv(k')
  {
    StepKeepsIffSafe(k.s, e);
    FreeKept(k.s, e);
    NamesKept(k.s, e);
    assert Live(k'.s) == Live(k.s);
  }

  lemma CallerFit(k: Kern)
    requires GeneralInv(k) && k.s.current != k.s.idle
    ensures k.s.current in Live(k.s) && CallerOk(k.m, k.s.current)
  {
    CurrentLive(k.s);
  }

  lemma ForkKeepsGeneral(k: Kern, k': Kern)
    requires GeneralInv(k) && k' in Next(k, ForkCall)
    ensures GeneralInv(k')
  {
    var p := k.s.current;
    ForkResult(k.s, Frames(k));
    NamesKept(k.s, Fork(Frames(k)));
    CallerFit(k);
    if k.s.queues[FREE] != [] {
      var c := k.s.queues[FREE][0];
      LiveFork(k.s, Frames(k));
      EnoughFrames(k.m.used, k.m.tables[c]);
      if Frames(k) {
        CloneKeepsSafe(k.m, k'.m, p, c);
      } else {
        FailureKeepsSafe(k.m, p, c);
      }
    }
  }

  lemma ExitKeepsGeneral(k: Kern, k': Kern)
    requires GeneralInv(k) && k' in Next(k, ExitCall)
    ensures GeneralInv(k')
  {
    StepKeepsIffSafe(k.s, Exit);
    NamesKept(k.s, Exit);
    LiveExit(k.s, true);
    ExitKeepsSafe(k.m, k'.m, k.s.current);
  }

  lemma StackKeepsSafe(m: Mem, m': Mem, p: nat, c: nat, top: seq<Copy.byte>)
    requires MemSafe(m) && p < NR_TASKS && c < NR_TASKS && HeapOk(m.heapPtr[p]) && HeapPage(m, p) < TOTAL_PAGES
    requires FrameLeft(m) && StackMapped(m, m', p, c, top)
    ensures MemSafe(m')
  {
    var f := FirstFree(m.used, NUM_PAG_KERNEL);
    assert Took(m.used, m'.used, [f]) by {
      assert Available(m.used, f);
    }
    MapKeepsSafe(m, m', m.dir[p], HeapPage(m, p), [f]);
  }

  /** Fields of the structs do not matter to memory. */
  lemma StructKeepsSafe(m: Mem, m': Mem)
    requires MemSafe(m) && Sized(m') && m'.used == m.used && m'.tables == m.tables
    ensures MemSafe(m')
  {
    forall t, q | 0 <= t < NR_TASKS && PAG_LOG_INIT_DATA <= q < TOTAL_PAGES
      ensures EntryOk(m', t, q)
    {
      assert EntryOk(m, t, q);
    }
    ClearKeepsSafe(m, m');
  }

  /** The guard of sys_threadCreate is never true of a heap pointer in range. */
  lemma GuardIsFalse(k: Kern)
    requires GeneralInv(k) && k.s.current != k.s.idle
    ensures FIRST_HEAP_PAGE <= HeapPage(k.m, k.s.current) <= TOTAL_PAGES && !PastLimit(HeapPage(k.m, k.s.current))
    ensures PointersOk(k.m, k.s.current) && k.m.heapStart[k.s.current] <= k.m.heapPtr[k.s.current]
  {
    CallerFit(k);
  }

  /** The thread starts from the creator's heap; the creator's pointer may move up a page. */
  ghost predicate HeapsShared(k: Kern, k': Kern)
    requires KernOk(k) && Sized(k'.m)
  {
    k'.m == k.m ||
    (&& k.s.queues[FREE] != []
     && var p, c := k.s.current, k.s.queues[FREE][0];
     && k'.m.heapStart == k.m.heapStart[c := k.m.heapStart[p]]
     && (|| k'.m.heapPtr == k.m.heapPtr[c := k.m.heapPtr[p]]
         || (&& HeapPage(k.m, p) < TOTAL_PAGES
             && k'.m.heapPtr == k.m.heapPtr[c := k.m.heapPtr[p]][p := k.m.heapPtr[p] + PAGE_SIZE])))
  }

  /** The memory half of a threadCreate. */
  lemma ThreadMemory(k: Kern, k': Kern, call: Call)
    requires GeneralInv(k) && call.ThreadCreateCall? && k' in Next(k, call)
    ensures MemSafe(k'.m)
    ensures HeapsShared(k, k')
  {
    GuardIsFalse(k);
    CallerFit(k);
    if call.accessOk && k.s.queues[FREE] != [] {
      if FrameLeft(k.m) {
        StackKeepsSafe(k.m, k'.m, k.s.current, k.s.queues[FREE][0], StackTop(call.start, call.parameter));
      } else {
        StructKeepsSafe(k.m, k'.m);
      }
    }
  }

  /** The ring half. */
  lemma ThreadRings(k: Kern, k': Kern, call: Call)
    requires GeneralInv(k) && call.ThreadCreateCall? && k' in Next(k, call)
    ensures Inv(k'.s) && Names(k'.s)
    ensures Live(k'.s) == Live(k.s) || (k.s.queues[FREE] != [] && Live(k'.s) == Live(k.s) + {k.s.queues[FREE][0] as int})
  {
    var e := ThreadCreate(call.accessOk, HeapPage(k.m, k.s.current), FrameLeft(k.m));
    GuardIsFalse(k);
    StepKeepsIffSafe(k.s, e);
    NamesKept(k.s, e);
    if call.accessOk && k.s.queues[FREE] != [] {
      LiveThread(k.s, e.page, e.frame);
    }
  }

  lemma ThreadKeepsGeneral(k: Kern, k': Kern, call: Call)
    requires GeneralInv(k) && call.ThreadCreateCall? && k' in Next(k, call)
    ensures GeneralInv(k')
  {
    CallerFit(k);
    ThreadMemory(k, k', call);
    ThreadRings(k, k', call);
    ThreadHeaps(k, k');
  }

  lemma ThreadHeaps(k: Kern, k': Kern)
    requires KernOk(k) && KernOk(k') && HeapsOk(k.s, k.m) && k.s.current in Live(k.s)
    requires Live(k'.s) == Live(k.s) || (k.s.queues[FREE] != [] && Live(k'.s) == Live(k.s) + {k.s.queues[FREE][0] as int})
    requires HeapsShared(k, k') && (k'.m == k.m ==> Live(k'.s) == Live(k.s))
    ensures HeapsOk(k'.s, k'.m)
  {
  }

  lemma ThreadExitKeepsGeneral(k: Kern, k': Kern)
    requires GeneralInv(k) && k' in Next(k, ThreadExitCall)
    ensures GeneralInv(k')
  {
    StepKeepsIffSafe(k.s, ThreadExit);
    NamesKept(k.s, ThreadExit);
    CallerFit(k);
    LiveExit(k.s, false);
    ReleaseKeepsSafe(k.m, k'.m, k.m.dir[k.s.current], HeapPage(k.m, k.s.current));
  }

  lemma SbrkKeepsGeneral(k: Kern, k': Kern, size: int)
    requires GeneralInv(k) && k' in Next(k, SbrkCall(size))
    ensures GeneralInv(k')
  {
    CallerFit(k);
    var r :| Heap.SbrkEffect(k.m, k'.m, k.s.current, size, r);
    Heap.SbrkKeeps(k.m, k'.m, k.s.current, size, r);
  }

  /** Every call that returns keeps the invariant of the whole kernel. */
  lemma StepKeeps(k: Kern, k': Kern, call: Call)
    requires GeneralInv(k) && k' in Next(k, call)
    ensures GeneralInv(k')
  {
    match call
    case Plain(e) => PlainKeeps(k, k', e);
    case ForkCall => ForkKeepsGeneral(k, k');
    case ExitCall => ExitKeepsGeneral(k, k');
    case ThreadCreateCall(_, _, _) => ThreadKeepsGeneral(k, k', call);
    case ThreadExitCall => ThreadExitKeepsGeneral(k, k');
    case SbrkCall(size) => SbrkKeepsGeneral(k, k', size);
  }

  // ---- whole runs

  ghost predicate Booted(k: Kern) {
    k.s == Boot() && Sized(k.m) && BootMem(k.m, 1)
  }

  /** A sequence of states and the calls between them. */
  ghost predicate KernelRun(ks: seq<Kern>, calls: seq<Call>) {
    Runs.IsRun(Next, ks, calls)
  }

  /** Legal from k on: every call is admissible and faultless wherever the earlier ones may lead. */
  ghost predicate LegalCalls(k: Kern, calls: seq<Call>)
    decreases |calls|
  {
    calls == [] ||
    (&& Admissible(k, calls[0]) && !Faults(k, calls[0])
     && forall k' :: k' in Next(k, calls[0]) ==> LegalCalls(k', calls[1..]))
  }

  /** The calls can lead from k to k'. */
  ghost predicate Reaches(k: Kern, calls: seq<Call>, k': Kern) {
    Runs.Reaches(Next, k, calls, k')
  }

  lemma BootFree()
    ensures forall c :: c in Boot().queues[FREE] ==> 2 <= c < NR_TASKS
    ensures Live(Boot()) == {1}
  {
    var s := Boot();
    assert s.queues[FREE] == [2, 3, 4, 5, 6, 7, 8, 9];
    forall t | 2 <= t < NR_TASKS
      ensures t in s.queues[FREE]
    {
      assert s.queues[FREE][t - 2] == t;
    }
  }

  lemma BootEntry(m: Mem, t: int, q: int)
    requires Sized(m) && BootMem(m, 1) && 0 <= t < NR_TASKS && PAG_LOG_INIT_DATA <= q < TOTAL_PAGES
    ensures EntryOk(m, t, q)
    ensures PageFrame(m, t, q) != 0 ==> t == 1 && PageFrame(m, t, q) == FIRST_DATA_FRAME + 2 * (q - PAG_LOG_INIT_DATA)
  {
    if t != 1 {
      assert KernelTable(m.tables[t]);
    } else if q < DataPage(NUM_PAG_DATA) {
      assert DataPage(q - PAG_LOG_INIT_DATA) == q;
    }
  }

  lemma BootLow(m: Mem)
    requires Sized(m) && BootMem(m, 1)
    ensures LowPages(m)
  {
    forall q | NUM_PAG_KERNEL <= q < PAG_LOG_INIT_DATA
      ensures m.tables[1][q].frame < FIRST_DATA_FRAME
    {
      assert CodePage(q - PAG_LOG_INIT_CODE) == q;
    }
    forall t | 0 <= t < NR_TASKS && t != 1
      ensures KernelTable(m.tables[t])
    {
    }
  }

  lemma BootSafe(m: Mem)
    requires Sized(m) && BootMem(m, 1)
    ensures MemSafe(m)
  {
    BootLow(m);
    forall t, q | 0 <= t < NR_TASKS && PAG_LOG_INIT_DATA <= q < TOTAL_PAGES
      ensures EntryOk(m, t, q)
      ensures PageFrame(m, t, q) != 0 ==> t == 1 && PageFrame(m, t, q) == FIRST_DATA_FRAME + 2 * (q - PAG_LOG_INIT_DATA)
    {
      BootEntry(m, t, q);
    }
    forall t | 0 <= t < NR_TASKS && t != 1
      ensures KernelTable(m.tables[t])
    {
    }
  }

  lemma BootGeneral(k: Kern)
    requires Booted(k)
    ensures GeneralInv(k)
  {
    BootInv();
    BootFree();
    BootSafe(k.m);
    BootHeaps(k.s, k.m);
    BootNames();
  }

  lemma BootHeaps(s: Sys, m: Mem)
    requires Shape(s) && Live(s) == {1} && Sized(m) && BootMem(m, 1)
    ensures HeapsOk(s, m)
  {
  }

  lemma BootNames()
    ensures Names(Boot())
  {
  }

  lemma RunStep(ks: seq<Kern>, calls: seq<Call>, i: nat)
    requires KernelRun(ks, calls) && i < |calls|
    ensures ks[i + 1] in Next(ks[i], calls[i])
  {
  }

  /** Safety of whole runs of the kernel. */
  lemma RunKeeps(ks: seq<Kern>, calls: seq<Call>, n: nat)
    requires KernelRun(ks, calls) && GeneralInv(ks[0]) && n < |ks|
    ensures GeneralInv(ks[n])
  {
    forall k, k', c | GeneralInv(k) && k' in Next(k, c)
      ensures GeneralInv(k')
    {
      StepKeeps(k, k', c);
    }
    Runs.RunInvariant(Next, GeneralInv, (k, c) => true, ks, calls, n);
  }

  /** In every state of every run from boot, no other page of any table reaches a mapped data, stack or heap frame. */
  lemma RunIsolated(ks: seq<Kern>, calls: seq<Call>, n: nat, t: int, q: int, u: int, r: int)
    requires KernelRun(ks, calls) && Booted(ks[0]) && n < |ks|
    requires 0 <= t < 10 && 0 <= u < 10 && 264 <= q < 1024 && 0 <= r < 1024
    requires !(t == u && q == r) && Sized(ks[n].m) && ks[n].m.tables[t][q].present
    ensures ks[n].m.tables[u][r].frame != ks[n].m.tables[t][q].frame
    ensures ks[n].m.tables[t][q].frame < TOTAL_PAGES && ks[n].m.used[ks[n].m.tables[t][q].frame]
  {
    BootGeneral(ks[0]);
    RunKeeps(ks, calls, n);
    Exclusive(ks[n].m, t, q, u, r);
    assert EntryOk(ks[n].m, t, q);
  }

  // ---- the page limit

  /** The slot that a threadCreate takes is lost iff the guard finds the heap pointer past the limit. */
  lemma SlotLostIff(k: Kern, k': Kern, accessOk: bool, top: seq<Copy.byte>)
    requires Inv(k.s) && Sized(k.m) && k.s.current != k.s.idle && k.s.queues[FREE] != []
    requires PointersOk(k.m, k.s.current)
    requires !StackFaults(k.s, accessOk, HeapPage(k.m, k.s.current), FrameLeft(k.m)) && ThreadRel(k, k', accessOk, top)
    ensures Contents(k'.s)[k.s.queues[FREE][0]] == 0 <==> accessOk && PastLimit(HeapPage(k.m, k.s.current))
  {
    var page, frame := HeapPage(k.m, k.s.current), FrameLeft(k.m);
    ThreadCreateResult(k.s, accessOk, page, frame);
    HeadAlone(k.s.queues, multiset{k.s.current}, k.s.idle, FREE);
    if accessOk && PastLimit(page) {
      ThreadLost(k.s, page, frame);
    } else {
      assert k.s.queues[FREE][0] in k.s.queues[FREE];
    }
  }

  // ---- a fork that runs out of frames

  /** Free slots, and the tables of slots that run in another table, have no data pages. */
  ghost predicate Tidy(k: Kern)
    requires KernOk(k)
  {
    && (forall c :: c in k.s.queues[FREE] ==> DataUnmapped(k.m.tables[c]))
    && (forall t :: t in Live(k.s) && k.m.dir[t] != t ==> DataUnmapped(k.m.tables[t]))
  }

  /** threadExit by a process's own task, with its data still mapped. */
  predicate LeavesData(k: Kern, call: Call)
    requires KernOk(k)
  {
    call.ThreadExitCall? && k.m.dir[k.s.current] == k.s.current && !DataUnmapped(k.m.tables[k.s.current])
  }

  ghost predicate DataKept(m: Mem, m': Mem, t: int)
    requires Sized(m) && Sized(m') && 0 <= t < NR_TASKS
  {
    forall q :: DataPage(0) <= q < DataPage(NUM_PAG_DATA) ==> m'.tables[t][q] == m.tables[t][q]
  }

  /** If the data pages of all tables are kept, only newly freed slots and newly started tasks matter. */
  lemma TidyKept(k: Kern, k': Kern)
    requires KernOk(k) && KernOk(k') && Tidy(k)
    requires forall t :: 0 <= t < NR_TASKS ==> DataKept(k.m, k'.m, t)
    requires forall c :: c in k'.s.queues[FREE] && c !in k.s.queues[FREE] ==> DataUnmapped(k.m.tables[c])
    requires forall t :: t in Live(k'.s) && k'.m.dir[t] != t ==>
               (t in Live(k.s) && k.m.dir[t] != t) || t in k.s.queues[FREE]
    ensures Tidy(k')
  {
    forall t | 0 <= t < NR_TASKS && DataUnmapped(k.m.tables[t])
      ensures DataUnmapped(k'.m.tables[t])
    {
      assert DataKept(k.m, k'.m, t);
    }
    forall c | c in k'.s.queues[FREE]
      ensures DataUnmapped(k'.m.tables[c])
    {
      assert DataUnmapped(k.m.tables[c]);
    }
  }

  /** Does a failed fork restore the child's table? Yes, if the slot was tidy. */
  lemma TidyRestored(m: Mem, p: nat, c: nat)
    requires MemSafe(m) && p < NR_TASKS && c < NR_TASKS && DataUnmapped(m.tables[c])
    requires AllocLoop(m.used, m.tables[c]).n < NUM_PAG_DATA
    ensures FailedFork(m, p, c) == CopiedStruct(m, p, c)
  {
    EnoughFrames(m.used, m.tables[c]);
    RollbackExact(m.used, m.tables[c]);
    FailureKeepsSafe(m, p, c);
    var n := |AvailableSet(m.used)|;
    forall i | 0 <= i < n
      ensures m.tables[c][DataPage(i)] == EMPTY
    {
    }
    assert m.tables[c := m.tables[c]] == m.tables;
  }

  lemma TidyFork(k: Kern, k': Kern)
    requires GeneralInv(k) && k' in Next(k, ForkCall) && Tidy(k) && KernOk(k')
    ensures Tidy(k')
  {
    if k.s.queues[FREE] != [] {
      var p, c := k.s.current, k.s.queues[FREE][0];
      CallerFit(k);
      LiveFork(k.s, Frames(k));
      HeadAlone(k.s.queues, multiset{p}, k.s.idle, FREE);
      assert c in k.s.queues[FREE];
      if !Frames(k) {
        TidyRestored(k.m, p, c);
        TidyKept(k, k');
      } else {
        TidyClone(k, k', p, c);
      }
    }
  }

  lemma TidyClone(k: Kern, k': Kern, p: nat, c: nat)
    requires KernOk(k) && KernOk(k') && Tidy(k) && p < NR_TASKS && c < NR_TASKS && p != c && CloneOf(k.m, k'.m, p, c)
    requires c !in k'.s.queues[FREE] && forall d :: d in k'.s.queues[FREE] ==> d in k.s.queues[FREE]
    requires Live(k'.s) == Live(k.s) + {c as int}
    ensures Tidy(k')
  {
  }

  lemma TidyExit(k: Kern, k': Kern)
    requires GeneralInv(k) && k' in Next(k, ExitCall) && Tidy(k) && KernOk(k')
    ensures Tidy(k')
  {
    LiveExit(k.s, true);
    forall t | 0 <= t < NR_TASKS && (t == k.m.dir[k.s.current] || DataUnmapped(k.m.tables[t]))
      ensures DataUnmapped(k'.m.tables[t])
    {
    }
  }

  lemma TidyThread(k: Kern, k': Kern, call: Call)
    requires GeneralInv(k) && call.ThreadCreateCall? && k' in Next(k, call) && Tidy(k) && KernOk(k')
    ensures Tidy(k')
  {
    GuardIsFalse(k);
    if call.accessOk && k.s.queues[FREE] != [] {
      LiveThread(k.s, HeapPage(k.m, k.s.current), FrameLeft(k.m));
      assert k.s.queues[FREE][0] in k.s.queues[FREE];
    }
    TidyKept(k, k');
  }

  lemma TidyThreadExit(k: Kern, k': Kern)
    requires GeneralInv(k) && k' in Next(k, ThreadExitCall) && Tidy(k) && KernOk(k')
    ensures Tidy(k') <==> !LeavesData(k, ThreadExitCall)
  {
    var p := k.s.current;
    CallerFit(k);
    LiveExit(k.s, false);
    assert forall t :: 0 <= t < NR_TASKS ==> DataKept(k.m, k'.m, t);
    if LeavesData(k, ThreadExitCall) {
      assert p in k'.s.queues[FREE];
      var q :| DataPage(0) <= q < DataPage(NUM_PAG_DATA) && k.m.tables[p][q] != EMPTY;
      assert DataKept(k.m, k'.m, p) && k'.m.tables[p][q] != EMPTY;
    } else {
      TidyKept(k, k');
    }
  }

  /** A call leaves data pages in a free slot iff it is a threadExit by a process's own task. */
  lemma TidyIff(k: Kern, k': Kern, call: Call)
    requires GeneralInv(k) && Tidy(k) && k' in Next(k, call)
    ensures KernOk(k') && (Tidy(k') <==> !LeavesData(k, call))
  {
    StepKeeps(k, k', call);
    match call
    case Plain(e) => FreeKept(k.s, e);
      assert Live(k'.s) == Live(k.s);
    case ForkCall => TidyFork(k, k');
    case ExitCall => TidyExit(k, k');
    case ThreadCreateCall(_, _, _) => TidyThread(k, k', call);
    case ThreadExitCall => TidyThreadExit(k, k');
    case SbrkCall(size) =>
      CallerFit(k);
      var r :| Heap.SbrkEffect(k.m, k'.m, k.s.current, size, r);
      Heap.SbrkKeeps(k.m, k'.m, k.s.current, size, r);
      TidyKept(k, k');
  }

  ghost predicate TidyInv(k: Kern) {
    GeneralInv(k) && Tidy(k)
  }

  /** The call does not end a process's own task with threadExit. */
  predicate KeepsTidy(k: Kern, call: Call) {
    KernOk(k) ==> !LeavesData(k, call)
  }

  /** A run in which no process ends its own task with threadExit. */
  ghost predicate TidyRun(ks: seq<Kern>, calls: seq<Call>) {
    KernelRun(ks, calls) && forall i {:trigger calls[i]} :: 0 <= i < |calls| ==> KeepsTidy(ks[i], calls[i])
  }

  lemma BootTidy(k: Kern)
    requires Booted(k)
    ensures Tidy(k)
  {
    BootFree();
    forall c | 0 <= c < NR_TASKS && c != 1
      ensures DataUnmapped(k.m.tables[c])
    {
      assert KernelTable(k.m.tables[c]);
    }
  }

  lemma RunTidy(ks: seq<Kern>, calls: seq<Call>, n: nat)
    requires TidyRun(ks, calls) && TidyInv(ks[0]) && n < |ks|
    ensures TidyInv(ks[n])
  {
    forall k, k', c | TidyInv(k) && KeepsTidy(k, c) && k' in Next(k, c)
      ensures TidyInv(k')
    {
      StepKeeps(k, k', c);
      TidyIff(k, k', c);
    }
    Runs.RunInvariant(Next, TidyInv, KeepsTidy, ks, calls, n);
  }

  /** What sys_fork returns. */
  function ForkReturn(k: Kern): int
    requires KernOk(k)
  {
    ForkStep(k.s, Frames(k)).1
  }

  /** No semaphore is in use. */
  predicate NoSems(s: Sys) {
    forall i :: 0 <= i < |s.sems| ==> s.sems[i].semid == -1
  }

  /**
    Frames, memory and the other slots are as before and the free ring has moved on by one. The slot
    tried keeps a copy of the caller's struct, and all semaphores are blank.
   */
  ghost predicate RolledBack(k: Kern, k': Kern)
    requires KernOk(k) && KernOk(k') && k.s.queues[FREE] != []
  {
    var c := k.s.queues[FREE][0];
    && k'.m.used == k.m.used && k'.m.ram == k.m.ram
    && (forall t :: 0 <= t < NR_TASKS && t != c ==> k'.m.tables[t] == k.m.tables[t])
    && (forall t :: 0 <= t < NR_TASKS && t != c ==>
          k'.m.dir[t] == k.m.dir[t] && k'.m.heapStart[t] == k.m.heapStart[t] && k'.m.heapPtr[t] == k.m.heapPtr[t])
    && k'.s.tasks == k.s.tasks[c := k.s.tasks[k.s.current]]
    && (forall i :: 0 <= i < NUM_SEM ==> k'.s.sems[i] == NO_SEM && k'.s.queues[SemQueue(i)] == [])
    && k'.s == k.s.(tasks := k'.s.tasks, sems := k'.s.sems, queues := k'.s.queues)
    && k'.s.queues[FREE] == k.s.queues[FREE][1..] + [c] && k'.s.queues[READY] == k.s.queues[READY]
  }

  /** A failed fork keeps the semaphores iff none was in use. */
  lemma SemsKeptIff(k: Kern, k': Kern)
    requires GeneralInv(k) && KernOk(k') && k.s.queues[FREE] != [] && RolledBack(k, k')
    ensures k'.s.sems == k.s.sems <==> NoSems(k.s)
  {
    if k'.s.sems == k.s.sems {
      forall i | 0 <= i < NUM_SEM
        ensures k.s.sems[i].semid == -1
      {
        assert k'.s.sems[i] == NO_SEM;
      }
    }
  }

  /**
    A fork that returns -EAGAIN has rolled back, but it has lost every semaphore in use. It restores the
    page tables too iff the data pages it had tried were unmapped in the slot it tried.
   */
  lemma FailedForkExact(k: Kern, k': Kern)
    requires GeneralInv(k) && k.s.current != k.s.idle && Sized(k'.m) && ForkRel(k, k')
    requires ForkReturn(k) == -11
    ensures KernOk(k') && k.s.queues[FREE] != [] && |AvailableSet(k.m.used)| < 20
    ensures RolledBack(k, k')
    ensures k'.s.sems == k.s.sems <==> NoSems(k.s)
    ensures k'.m.tables == k.m.tables <==> FirstUnmapped(k.m.tables[k.s.queues[FREE][0]], |AvailableSet(k.m.used)|)
  {
    LiveFork(k.s, Frames(k));
    var c := k.s.queues[FREE][0];
    EnoughFrames(k.m.used, k.m.tables[c]);
    RollbackExact(k.m.used, k.m.tables[c]);
    FailureKeepsSafe(k.m, k.s.current, c);
    assert k'.m.tables == k.m.tables[c := AllocLoop(k.m.used, k.m.tables[c]).pt];
    if FirstUnmapped(k.m.tables[c], |AvailableSet(k.m.used)|) {
      assert k'.m.tables == k.m.tables;
    } else {
      assert k'.m.tables[c] != k.m.tables[c];
    }
    SemsKeptIff(k, k');
  }

  /**
    In every run from boot a fork that fails with -EAGAIN restores frames, memory and all other slots,
    rotates the free ring and blanks the semaphores; if no process has ended with threadExit, it
    restores all page tables as well.
   */
  lemma FailedForkRollsBack(ks: seq<Kern>, calls: seq<Call>, n: nat)
    requires KernelRun(ks, calls) && Booted(ks[0]) && n < |calls| && calls[n] == ForkCall
    requires KernOk(ks[n]) && ForkReturn(ks[n]) == -11
    ensures KernOk(ks[n + 1]) && ks[n].s.queues[FREE] != [] && RolledBack(ks[n], ks[n + 1])
    ensures ks[n + 1].s.sems == ks[n].s.sems <==> NoSems(ks[n].s)
    ensures TidyRun(ks, calls) ==> ks[n + 1].m.tables == ks[n].m.tables
  {
    BootGeneral(ks[0]);
    RunKeeps(ks, calls, n);
    RunStep(ks, calls, n);
    FailedForkExact(ks[n], ks[n + 1]);
    if TidyRun(ks, calls) {
      BootTidy(ks[0]);
      RunTidy(ks, calls, n);
      var c := ks[n].s.queues[FREE][0];
      assert c in ks[n].s.queues[FREE];
      EnoughFrames(ks[n].m.used, ks[n].m.tables[c]);
      TidyRestored(ks[n].m, ks[n].s.current, c);
    }
  }
}
