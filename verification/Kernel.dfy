/**
  The kernel itself: the scheduler's rings and the memory system driven by the same entries. Every
  method makes exactly one step of the kernel machine and keeps its invariant.
 */
module Kernel {
  import opened Errno
  import opened Word32
  import opened Tasks
  import opened TaskInvariant
  import opened Copy
  import opened Paging
  import opened AddressSpace
  import opened Cloning
  import opened KernelSteps
  import opened KernelSafety
  import opened NewTasks
  import Heap
  import Sched

  // ---- the memory half of the thread calls

  /** The memory half of main. */
  method BootMemory(lo: nat, hi: nat) returns (mem: Memory)
    requires 0 < lo < NUM_PAG_KERNEL && 0 < hi < NUM_PAG_KERNEL
    ensures mem.Valid() && BootMem(mem.Snap(), 1)
    ensures fresh(mem) && fresh(mem.tables) && fresh(mem.physMem) && fresh(mem.ram)
    ensures fresh(mem.dir) && fresh(mem.heapStart) && fresh(mem.heapPtr)
  {
    mem := new Memory();
    mem.InitMemory(0, 1, lo, hi);
  }

  method ShareStruct(mem: Memory, p: nat, c: nat)
    requires mem.Valid() && p < NR_TASKS && c < NR_TASKS
    modifies mem.dir, mem.heapStart, mem.heapPtr
    ensures mem.Valid() && mem.Snap() == SharedStruct(old(mem.Snap()), p, c)
  {
    mem.dir[c] := mem.dir[p];
    mem.heapStart[c] := mem.heapStart[p];
    mem.heapPtr[c] := mem.heapPtr[p];
  }

  /** Maps a frame at the caller's heap pointer, which moves up one page; no frame, no effect. */
  method MapStack(mem: Memory, p: nat, c: nat) returns (frame: bool)
    requires mem.Valid() && p < NR_TASKS && c < NR_TASKS && mem.dir[c] == mem.dir[p]
    requires 0 <= HeapPage(mem.Snap(), p) <= TOTAL_PAGES
    modifies mem.physMem, mem.tables, mem.heapPtr
    ensures mem.Valid() && frame == FrameLeft(old(mem.Snap()))
    ensures !frame ==> mem.Snap() == old(mem.Snap())
    ensures frame ==> var m := old(mem.Snap());
                      var f := FirstFree(m.used, NUM_PAG_KERNEL);
                      mem.Snap() == m.(used := m.used[f := true],
                                       tables := WithEntry(m.tables, m.dir[p], HeapPage(m, p), Mapped(f)),
                                       heapPtr := m.heapPtr[p := m.heapPtr[p] + PAGE_SIZE])
  {
    var f := mem.TakePageAt(mem.dir[c], mem.heapPtr[p] / PAGE_SIZE);
    frame := f != -1;
    if frame {
      mem.heapPtr[p] := mem.heapPtr[p] + PAGE_SIZE;
    }
  }

  /** A 32-bit store at physical address a. */
  method StoreWord(mem: Memory, a: nat, w: nat)
    requires mem.Valid() && a + 4 <= RAM_SIZE
    modifies mem.ram
    ensures Stored(old(mem.ram[..]), mem.ram[..], a, WordBytes(w))
  {
    var bs := WordBytes(w);
    mem.ram[a], mem.ram[a + 1], mem.ram[a + 2], mem.ram[a + 3] := bs[0], bs[1], bs[2], bs[3];
  }

  lemma StoredMore(ram: seq<byte>, ram': seq<byte>, ram'': seq<byte>, at: int, bs: seq<byte>, cs: seq<byte>)
    requires Stored(ram, ram', at, bs) && Stored(ram', ram'', at + |bs|, cs)
    ensures Stored(ram, ram'', at, bs + cs)
  {
  }

  /** The three words at the top of a new stack. */
  method StoreTopAt(mem: Memory, a: nat, start: nat, parameter: nat)
    requires mem.Valid() && a + 12 <= RAM_SIZE
    modifies mem.ram
    ensures Stored(old(mem.ram[..]), mem.ram[..], a, StackTop(start, parameter))
  {
    ghost var ram0 := mem.ram[..];
    StoreWord(mem, a, 0x777);
    ghost var ram1 := mem.ram[..];
    StoreWord(mem, a + 4, start);
    StoredMore(ram0, ram1, mem.ram[..], a, WordBytes(0x777), WordBytes(start));
    ghost var ram2 := mem.ram[..];
    StoreWord(mem, a + 8, parameter);
    StoredMore(ram0, ram2, mem.ram[..], a, WordBytes(0x777) + WordBytes(start), WordBytes(parameter));
  }

  /** ... through table d: a page fault if the page is not mapped. */
  method StoreTop(mem: Memory, d: nat, page: nat, start: nat, parameter: nat) returns (fault: bool)
    requires mem.Valid() && d < NR_TASKS
    modifies mem.ram
    ensures fault <==> !Accessible(mem.Snap().tables[d], page * PAGE_SIZE + STACK_TOP)
    ensures !fault ==> page < TOTAL_PAGES
                       && Stored(old(mem.ram[..]), mem.ram[..],
                                 mem.tables[d][page].frame * PAGE_SIZE + STACK_TOP, StackTop(start, parameter))
  {
    var pt := mem.tables[d];
    var va := page * PAGE_SIZE + STACK_TOP;
    if !Accessible(pt[..], va) {
      return true;
    }
    assert va / PAGE_SIZE == page && va % PAGE_SIZE == STACK_TOP;
    StoreTopAt(mem, Translate(pt[..], va), start, parameter);
    fault := false;
  }

  method UnmapStack(mem: Memory, p: nat)
    requires mem.Valid() && p < NR_TASKS && 0 <= HeapPage(mem.Snap(), p) <= TOTAL_PAGES
    modifies mem.physMem, mem.tables, mem.heapPtr
    ensures mem.Valid() && mem.Snap() == StackReleased(old(mem.Snap()), p)
  {
    mem.ReleasePageAt(mem.dir[p], mem.heapPtr[p] / PAGE_SIZE);
    mem.heapPtr[p] := mem.heapPtr[p] - PAGE_SIZE;
  }

  /** The stack page at the limit is the one that no table maps. */
  lemma StackAccess(m: Mem, d: nat, page: nat, f: nat)
    requires Sized(m) && d < NR_TASKS && page <= TOTAL_PAGES && f < TOTAL_PAGES
    requires page < TOTAL_PAGES ==> m.tables[d][page] == Mapped(f)
    ensures Accessible(m.tables[d], page * PAGE_SIZE + STACK_TOP) <==> page < TOTAL_PAGES
  {
    assert (page * PAGE_SIZE + STACK_TOP) / PAGE_SIZE == page;
  }

  /** The first words on the stack page, which is mapped iff it lies below the limit. */
  method FirstWords(mem: Memory, p: nat, c: nat, start: nat, parameter: nat, page: nat, ghost m: Mem) returns (fault: bool)
    requires mem.Valid() && p < NR_TASKS && c < NR_TASKS && p != c && Sized(m) && FrameLeft(m)
    requires page == HeapPage(m, p) <= TOTAL_PAGES && mem.Snap() == PageTaken(m, p, c, FirstFree(m.used, NUM_PAG_KERNEL))
    modifies mem.ram
    ensures mem.Valid() && (fault <==> page == TOTAL_PAGES)
    ensures !fault ==> StackMapped(m, mem.Snap(), p, c, StackTop(start, parameter))
  {
    StackAccess(mem.Snap(), mem.dir[p], page, FirstFree(m.used, NUM_PAG_KERNEL));
    fault := StoreTop(mem, mem.dir[p], page, start, parameter);
  }

  method StackFor(mem: Memory, p: nat, c: nat, start: nat, parameter: nat, ghost m: Mem) returns (frame: bool, fault: bool)
    requires mem.Valid() && p < NR_TASKS && c < NR_TASKS && p != c && Sized(m) && mem.Snap() == SharedStruct(m, p, c)
    requires PointersOk(m, p) && HeapPage(m, p) <= TOTAL_PAGES
    modifies mem.physMem, mem.tables, mem.heapPtr, mem.ram
    ensures mem.Valid()
    ensures frame == FrameLeft(m) && (fault <==> frame && HeapPage(m, p) == TOTAL_PAGES)
    ensures !frame ==> mem.Snap() == ReleasedBelow(SharedStruct(m, p, c), p)
    ensures frame && !fault ==> StackMapped(m, mem.Snap(), p, c, StackTop(start, parameter))
  {
    var page := mem.heapPtr[p] / PAGE_SIZE;
    frame := MapStack(mem, p, c);
    fault := false;
    if frame {
      fault := FirstWords(mem, p, c, start, parameter, page, m);
    } else {
      ReleaseBelow(mem, p);
    }
  }

  method ReleasePageBelow(mem: Memory, p: nat)
    requires mem.Valid() && p < NR_TASKS && 0 <= HeapPage(mem.Snap(), p) <= TOTAL_PAGES
    modifies mem.physMem, mem.tables, mem.heapPtr
    ensures mem.Valid() && mem.Snap() == PageBelow(old(mem.Snap()), p)
  {
    mem.ReleasePageAt(mem.dir[p], mem.heapPtr[p] / PAGE_SIZE);
    mem.heapPtr[p] := Wrap32(mem.heapPtr[p] - PAGE_SIZE);
  }

  /** The release loop of sys_threadCreate. */
  method ReleaseBelow(mem: Memory, p: nat)
    requires mem.Valid() && p < NR_TASKS && PointersOk(mem.Snap(), p)
    modifies mem.physMem, mem.tables, mem.heapPtr
    ensures mem.Valid() && mem.Snap() == ReleasedBelow(old(mem.Snap()), p)
  {
    while mem.heapPtr[p] < mem.heapStart[p]
      invariant mem.Valid() && PointersOk(mem.Snap(), p) && ReleasedBelow(mem.Snap(), p) == ReleasedBelow(old(mem.Snap()), p)
      decreases if mem.heapPtr[p] < mem.heapStart[p] then mem.heapPtr[p] + 1 else 0
    {
      BelowStep(mem.Snap(), p);
      ReleasePageBelow(mem, p);
    }
  }

  lemma BelowStep(m: Mem, p: nat)
    requires Sized(m) && p < NR_TASKS && PointersOk(m, p) && m.heapPtr[p] < m.heapStart[p]
    ensures PointersOk(PageBelow(m, p), p) && ReleasedBelow(m, p) == ReleasedBelow(PageBelow(m, p), p)
    ensures m.heapPtr[p] >= PAGE_SIZE ==> PageBelow(m, p).heapPtr[p] < m.heapPtr[p]
    ensures m.heapPtr[p] < PAGE_SIZE ==> PageBelow(m, p).heapPtr[p] >= m.heapStart[p]
  {
  }

  lemma ForkAssembled(k: Kern, k': Kern, r: int, outcome: ForkOutcome)
    requires KernOk(k) && Sized(k'.m) && k.s.queues[FREE] != []
    requires outcome == ForkOutcomeOf(k.m, k.s.current, k.s.queues[FREE][0]) && !outcome.PageFault?
    requires outcome.Cloned? ==>
               k'.s == ForkCommit(ForkBegin(k.s), k.s.queues[FREE][0]) && r == k.s.lastPid + 1
               && CloneOf(k.m, k'.m, k.s.current, k.s.queues[FREE][0])
    requires outcome.NoFrames? ==>
               k'.s == PushBack(ForkBegin(k.s), FREE, k.s.queues[FREE][0]) && r == -EAGAIN
               && k'.m == FailedFork(k.m, k.s.current, k.s.queues[FREE][0])
    ensures ForkRel(k, k') && r == ForkReturn(k)
  {
  }

  /** What a fork that returns r has done, from the caller's point of view. */
  ghost predicate ForkPromise(k: Kern, k': Kern, r: int)
    requires GeneralInv(k) && KernOk(k')
  {
    && (r == -12 <==> k.s.queues[FREE] == []) && (r == -12 ==> k' == k)
    && (r == -11 ==>
          && k.s.queues[FREE] != [] && |AvailableSet(k.m.used)| < 20 && RolledBack(k, k')
          && (k'.m.tables == k.m.tables <==> FirstUnmapped(k.m.tables[k.s.queues[FREE][0]], |AvailableSet(k.m.used)|))
          && (Tidy(k) ==> k'.m.tables == k.m.tables)
          && (k'.s.sems == k.s.sems <==> NoSems(k.s)))
    && (r > 0 ==>
          && k.s.queues[FREE] != [] && NewProcess(k, k', k.s.queues[FREE][0], r)
          && CloneOf(k.m, k'.m, k.s.current, k.s.queues[FREE][0]))
    && (r > 0 || r == -12 || r == -11)
  }

  lemma TidySlot(pt: seq<Entry>, n: nat)
    requires |pt| == TOTAL_PAGES && DataUnmapped(pt) && n <= NUM_PAG_DATA
    ensures FirstUnmapped(pt, n)
  {
  }

  lemma ForkKeepsPromise(k: Kern, k': Kern, r: int)
    requires GeneralInv(k) && k.s.current != k.s.idle && KernOk(k') && ForkRel(k, k') && r == ForkReturn(k)
    ensures ForkPromise(k, k', r)
  {
    if r > 0 {
      ChildNamed(k, k');
    }
    if r == -EAGAIN {
      FailedForkExact(k, k');
      if Tidy(k) {
        assert k.s.queues[FREE][0] in k.s.queues[FREE];
        TidySlot(k.m.tables[k.s.queues[FREE][0]], |AvailableSet(k.m.used)|);
      }
    }
  }

  lemma ForkStepped(k: Kern, k': Kern)
    requires GeneralInv(k) && k.s.current != k.s.idle && KernOk(k') && ForkRel(k, k') && !Faults(k, ForkCall)
    requires Safe(k.s, Fork(true))
    ensures k' in Next(k, ForkCall) && GeneralInv(k')
  {
    Leads(k, k', ForkCall);
    StepKeeps(k, k', ForkCall);
  }

  /** From the state k, in which slot c is taken and named, sys_threadCreate leads to k' and returns r. */
  ghost predicate ThreadPlaced(k: Kern, k': Kern, p: nat, c: nat, top: seq<byte>, r: int)
    requires KernOk(k) && p < NR_TASKS && c < NR_TASKS && PointersOk(k.m, p)
    requires !(FrameLeft(k.m) && HeapPage(k.m, p) == TOTAL_PAGES)
  {
    if PastLimit(HeapPage(k.m, p)) then k' == Kern(k.s, SharedStruct(k.m, p, c)) && r == -1
    else if FrameLeft(k.m) then
      k'.s == PushBack(k.s, READY, c) && StackMapped(k.m, k'.m, p, c, top) && r == k.s.tasks[c].tid
    else
      var m := SharedStruct(k.m, p, c);
      PointersOk(m, p) && k' == Kern(PushBack(k.s, FREE, c), ReleasedBelow(m, p)) && r == -EAGAIN
  }

  lemma ThreadAssembled(k: Kern, k': Kern, r: int, top: seq<byte>)
    requires KernOk(k) && k.s.queues[FREE] != [] && PointersOk(k.m, k.s.current)
    requires !StackFaults(k.s, true, HeapPage(k.m, k.s.current), FrameLeft(k.m)) && KernOk(Kern(ThreadBegin(k.s), k.m))
    requires ThreadPlaced(Kern(ThreadBegin(k.s), k.m), k', k.s.current, k.s.queues[FREE][0], top, r)
    ensures ThreadRel(k, k', true, top) && r == ThreadReturn(k, true)
  {
  }

  lemma ThreadStepped(k: Kern, k': Kern, call: Call)
    requires call.ThreadCreateCall? && Admissible(k, call) && !Faults(k, call) && Sized(k'.m)
    requires PointersOk(k.m, k.s.current) && ThreadRel(k, k', call.accessOk, StackTop(call.start, call.parameter))
    ensures k' in Next(k, call)
    ensures GeneralInv(k) ==> GeneralInv(k')
  {
    if GeneralInv(k) {
      Leads(k, k', call);
      StepKeeps(k, k', call);
    }
  }

  class Kernel {
    const sched: Sched.Scheduler
    const mem: Memory

    ghost predicate Valid()
      reads sched, sched.task, sched.semafors, sched.all, mem, mem.dir
    {
      sched.Valid() && mem.Valid()
    }

    ghost function State(): (k: Kern)
      requires Valid()
      reads sched, sched.task, sched.semafors, sched.all, mem
      reads mem.physMem, mem.tables, mem.ram, mem.dir, mem.heapStart, mem.heapPtr
      ensures KernOk(k)
    {
      Kern(sched.s, mem.Snap())
    }

    /** main, up to the jump to user mode; lo and hi are the pages around the task array. */
    constructor (lo: nat, hi: nat)
      requires 0 < lo < NUM_PAG_KERNEL && 0 < hi < NUM_PAG_KERNEL
      ensures Valid() && Booted(State()) && GeneralInv(State())
    {
      var memory := BootMemory(lo, hi);
      mem := memory;
      sched := new Sched.Scheduler();
      new;
      BootGeneral(State());
    }

    // ---- fork

    /** The last part of sys_fork on the rings. */
    method QueueChild(c: nat, frames: bool) returns (r: int)
      requires Valid() && c < NR_TASKS
      requires forall k :: 0 <= k < NUM_QUEUES ==> c !in sched.s.queues[k]
      modifies sched, sched.task, sched.all
      ensures Valid() && mem.Snap() == old(mem.Snap())
      ensures sched.s == if frames then ForkCommit(old(sched.s), c) else PushBack(old(sched.s), FREE, c)
      ensures r == if frames then old(sched.s).lastPid + 1 else -EAGAIN
    {
      if frames {
        r := sched.CommitFork(c);
      } else {
        sched.Append(c, FREE, sched.freequeue);
        r := -EAGAIN;
      }
    }

    /** The ring half of sys_fork before the pages; memory is not involved. */
    method TakeChild() returns (c: nat)
      requires Valid() && Inv(sched.s) && sched.s.queues[FREE] != []
      modifies sched, sched.task, sched.semafors, sched.all
      ensures Valid() && mem.Snap() == old(mem.Snap()) && sched.s == ForkBegin(old(sched.s))
      ensures c == old(sched.s).queues[FREE][0] && c != sched.current
      ensures forall k :: 0 <= k < NUM_QUEUES ==> c !in sched.s.queues[k]
    {
      c := sched.BeginFork();
    }

    /** The memory half of sys_fork; the rings are not involved. */
    method ClonePages(p: nat, c: nat) returns (r: ForkOutcome)
      requires Valid() && p < NR_TASKS && c < NR_TASKS && p != c && CallerOk(mem.Snap(), p)
      modifies mem.physMem, mem.tables, mem.ram, mem.dir, mem.heapStart, mem.heapPtr
      ensures Valid() && sched.s == old(sched.s)
      ensures var m := old(mem.Snap());
              && r == ForkOutcomeOf(m, p, c)
              && (r.NoFrames? ==> mem.Snap() == FailedFork(m, p, c))
              && (r.Cloned? ==> CloneOf(m, mem.Snap(), p, c))
    {
      r := ForkSpace(mem, p, c);
    }

    /** sys_fork with a free slot c at hand. */
    method ForkInto(ghost c: nat) returns (r: int, outcome: ForkOutcome)
      requires Valid() && Inv(sched.s) && sched.s.queues[FREE] != [] && c == sched.s.queues[FREE][0]
      requires CallerOk(mem.Snap(), sched.current)
      modifies sched, sched.task, sched.semafors, sched.all
      modifies mem.physMem, mem.tables, mem.ram, mem.dir, mem.heapStart, mem.heapPtr
      ensures Valid() && outcome == ForkOutcomeOf(old(mem.Snap()), old(sched.current), c)
      ensures outcome.Cloned? ==> sched.s == ForkCommit(ForkBegin(old(sched.s)), c) && r == old(sched.s).lastPid + 1
      ensures outcome.NoFrames? ==> sched.s == PushBack(ForkBegin(old(sched.s)), FREE, c) && r == -EAGAIN
      ensures outcome.Cloned? ==> CloneOf(old(mem.Snap()), mem.Snap(), old(sched.current), c)
      ensures outcome.NoFrames? ==> mem.Snap() == FailedFork(old(mem.Snap()), old(sched.current), c)
    {
      var p := sched.current;
      var child := TakeChild();
      outcome := ClonePages(p, child);
      if outcome.PageFault? {
        r := 0;
      } else {
        r := QueueChild(child, outcome.Cloned?);
      }
    }

    /** sys_fork as the machine sees it. */
    method RunFork() returns (r: int, fault: bool)
      requires Valid() && GeneralInv(State()) && sched.current != sched.idle
      modifies sched, sched.task, sched.semafors, sched.all
      modifies mem.physMem, mem.tables, mem.ram, mem.dir, mem.heapStart, mem.heapPtr
      ensures Valid() && (fault <==> Faults(old(State()), ForkCall))
      ensures !fault ==> ForkRel(old(State()), State()) && r == ForkReturn(old(State()))
    {
      ghost var k := State();
      CallerFit(k);
      var empty := sched.IsEmpty(FREE, sched.freequeue);
      if empty {
        r, fault := -ENOMEM, false;
      } else {
        var outcome;
        r, outcome := ForkInto(k.s.queues[FREE][0]);
        fault := outcome.PageFault?;
        if !fault {
          ForkAssembled(k, State(), r, outcome);
        }
      }
    }

    /** sys_fork. `fault` reports a page fault inside the kernel, which stops there. */
    method SysFork() returns (r: int, fault: bool)
      requires Valid() && GeneralInv(State()) && sched.current != sched.idle
      modifies sched, sched.task, sched.semafors, sched.all
      modifies mem.physMem, mem.tables, mem.ram, mem.dir, mem.heapStart, mem.heapPtr
      ensures Valid() && (fault <==> Faults(old(State()), ForkCall))
      ensures !fault ==> ForkPromise(old(State()), State(), r)
      ensures !fault && Safe(old(sched.s), Fork(true)) ==> State() in Next(old(State()), ForkCall) && GeneralInv(State())
    {
      ghost var k := State();
      r, fault := RunFork();
      if !fault {
        ForkKeepsPromise(k, State(), r);
        if Safe(k.s, Fork(true)) {
          ForkStepped(k, State());
        }
      }
    }

    // ---- exit

    /** sys_exit. */
    method SysExit()
      requires Valid() && GeneralInv(State()) && sched.current != sched.idle
      modifies sched, sched.task, sched.all
      modifies mem.physMem, mem.tables
      ensures Valid() && State() in Next(old(State()), ExitCall) && GeneralInv(State())
    {
      ghost var k := State();
      CallerFit(k);
      FreePages(sched.current);
      RetireCurrent(true);
      Leads(k, State(), ExitCall);
      StepKeeps(k, State(), ExitCall);
    }

    method FreePages(p: nat)
      requires Valid() && p < NR_TASKS && mem.heapStart[p] <= mem.heapPtr[p]
      modifies mem.physMem, mem.tables
      ensures Valid() && sched.s == old(sched.s) && Released(old(mem.Snap()), mem.Snap(), p)
    {
      mem.ExitSpace(p);
    }

    method RetireCurrent(forgetPid: bool)
      requires Valid() && Inv(sched.s) && sched.s.current != sched.s.idle
      modifies sched, sched.task, sched.all
      ensures Valid() && mem.Snap() == old(mem.Snap()) && sched.s == ExitStep(old(sched.s), forgetPid)
    {
      sched.Retire(forgetPid);
    }

    // ---- threads

    /** sys_threadExit. */
    method SysThreadExit()
      requires Valid() && GeneralInv(State()) && sched.current != sched.idle
      modifies sched, sched.task, sched.all
      modifies mem.physMem, mem.tables, mem.heapPtr
      ensures Valid() && State() in Next(old(State()), ThreadExitCall) && GeneralInv(State())
    {
      ghost var k := State();
      GuardIsFalse(k);
      FreeStack(sched.current);
      RetireCurrent(false);
      Leads(k, State(), ThreadExitCall);
      StepKeeps(k, State(), ThreadExitCall);
    }

    method FreeStack(p: nat)
      requires Valid() && p < NR_TASKS && 0 <= HeapPage(mem.Snap(), p) <= TOTAL_PAGES
      modifies mem.physMem, mem.tables, mem.heapPtr
      ensures Valid() && sched.s == old(sched.s) && mem.Snap() == StackReleased(old(mem.Snap()), p)
    {
      UnmapStack(mem, p);
    }

    /** The ring half of sys_threadCreate before the stack. */
    method TakeThread() returns (c: nat)
      requires Valid() && Inv(sched.s) && sched.s.queues[FREE] != []
      modifies sched, sched.task, sched.all
      ensures Valid() && mem.Snap() == old(mem.Snap())
      ensures c == old(sched.s).queues[FREE][0] && c != old(sched.s).current
      ensures sched.s == ThreadBegin(old(sched.s))
      ensures forall k :: 0 <= k < NUM_QUEUES ==> c !in sched.s.queues[k]
    {
      HeadAlone(sched.s.queues, multiset{sched.s.current}, sched.s.idle, FREE);
      c := sched.TakeThreadSlot();
    }

    method GiveStruct(p: nat, c: nat)
      requires Valid() && p < NR_TASKS && c < NR_TASKS
      modifies mem.dir, mem.heapStart, mem.heapPtr
      ensures Valid() && sched.s == old(sched.s) && mem.Snap() == SharedStruct(old(mem.Snap()), p, c)
    {
      ShareStruct(mem, p, c);
    }

    /** The stack page of a thread in slot c whose struct is already shared, and its first words. */
    method GiveStack(p: nat, c: nat, start: nat, parameter: nat, ghost m: Mem) returns (frame: bool, fault: bool)
      requires Valid() && p < NR_TASKS && c < NR_TASKS && p != c && Sized(m) && mem.Snap() == SharedStruct(m, p, c)
      requires PointersOk(m, p) && HeapPage(m, p) <= TOTAL_PAGES
      modifies mem.physMem, mem.tables, mem.heapPtr, mem.ram
      ensures Valid() && sched.s == old(sched.s)
      ensures frame == FrameLeft(m) && (fault <==> frame && HeapPage(m, p) == TOTAL_PAGES)
      ensures !frame ==> mem.Snap() == ReleasedBelow(SharedStruct(m, p, c), p)
      ensures frame && !fault ==> StackMapped(m, mem.Snap(), p, c, StackTop(start, parameter))
    {
      frame, fault := StackFor(mem, p, c, start, parameter, m);
    }

    method QueueThread(c: nat, frame: bool) returns (r: int)
      requires Valid() && c < NR_TASKS
      requires forall k :: 0 <= k < NUM_QUEUES ==> c !in sched.s.queues[k]
      modifies sched, sched.all
      ensures Valid() && mem.Snap() == old(mem.Snap())
      ensures sched.s == PushBack(old(sched.s), if frame then READY else FREE, c)
      ensures r == if frame then old(sched.s).tasks[c].tid else -EAGAIN
    {
      r := sched.PlaceThread(c, frame);
    }

    /** sys_threadCreate from the guard on, for the slot c taken; `past` says that the guard stopped it. */
    method PlaceThread(p: nat, c: nat, start: nat, parameter: nat, ghost m: Mem) returns (r: int, past: bool, fault: bool)
      requires Valid() && p < NR_TASKS && c < NR_TASKS && p != c && Sized(m) && mem.Snap() == SharedStruct(m, p, c)
      requires PointersOk(m, p) && forall k :: 0 <= k < NUM_QUEUES ==> c !in sched.s.queues[k]
      modifies sched, sched.all
      modifies mem.physMem, mem.tables, mem.heapPtr, mem.ram
      ensures Valid() && past == PastLimit(HeapPage(m, p)) && (fault <==> FrameLeft(m) && HeapPage(m, p) == TOTAL_PAGES)
      ensures !fault ==> ThreadPlaced(Kern(old(sched.s), m), State(), p, c, StackTop(start, parameter), r)
    {
      r, fault := -1, false;
      past := mem.heapPtr[p] / PAGE_SIZE > TOTAL_PAGES;
      if !past {
        var frame;
        frame, fault := GiveStack(p, c, start, parameter, m);
        if !fault {
          r := QueueThread(c, frame);
        }
      }
    }

    /** sys_threadCreate with a free slot at hand. */
    method ThreadInto(p: nat, ghost c: nat, start: nat, parameter: nat) returns (r: int, past: bool, fault: bool)
      requires Valid() && Inv(sched.s) && sched.s.queues[FREE] != [] && c == sched.s.queues[FREE][0]
      requires p == sched.s.current && PointersOk(mem.Snap(), p)
      modifies sched, sched.task, sched.all
      modifies mem.physMem, mem.tables, mem.dir, mem.heapStart, mem.heapPtr, mem.ram
      ensures var m := old(mem.Snap());
              && Valid() && past == PastLimit(HeapPage(m, p)) && (fault <==> FrameLeft(m) && HeapPage(m, p) == TOTAL_PAGES)
              && (!fault ==> ThreadPlaced(Kern(ThreadBegin(old(sched.s)), m), State(), p, c, StackTop(start, parameter), r))
    {
      ghost var m := mem.Snap();
      var child := TakeThread();
      GiveStruct(p, child);
      r, past, fault := PlaceThread(p, child, start, parameter, m);
    }

    /**
      sys_threadCreate; accessOk is what the pointer checks say. For a heap pointer past the
      limit it loses the slot, at the limit it faults, and below the heap it releases pages when no frame is left.
     */
    method SysThreadCreate(accessOk: bool, start: nat, parameter: nat) returns (r: int, fault: bool)
      requires Valid() && Inv(sched.s) && sched.current != sched.idle && PointersOk(State().m, sched.current)
      requires start < TWO32 && parameter < TWO32
      modifies sched, sched.task, sched.all
      modifies mem.physMem, mem.tables, mem.dir, mem.heapStart, mem.heapPtr, mem.ram
      ensures Valid()
      ensures fault <==> Faults(old(State()), ThreadCreateCall(accessOk, start, parameter))
      ensures !fault ==> State() in Next(old(State()), ThreadCreateCall(accessOk, start, parameter))
      ensures !fault ==> r == ThreadReturn(old(State()), accessOk)
      ensures !fault && GeneralInv(old(State())) ==> GeneralInv(State())
      ensures !fault && GeneralInv(old(State())) && r > 0 ==> ThreadStarted(old(State()), State(), start, parameter, r)
    {
      ghost var k := State();
      r, fault := RunThreadCreate(accessOk, start, parameter);
      if !fault {
        ThreadStepped(k, State(), ThreadCreateCall(accessOk, start, parameter));
        if GeneralInv(k) && r > 0 {
          ThreadStarts(k, State(), ThreadCreateCall(accessOk, start, parameter));
        }
      }
    }

    /** sys_threadCreate as the machine sees it. */
    method RunThreadCreate(accessOk: bool, start: nat, parameter: nat) returns (r: int, fault: bool)
      requires Valid() && Inv(sched.s) && sched.current != sched.idle && PointersOk(State().m, sched.current)
      modifies sched, sched.task, sched.all
      modifies mem.physMem, mem.tables, mem.dir, mem.heapStart, mem.heapPtr, mem.ram
      ensures Valid()
      ensures fault <==> Faults(old(State()), ThreadCreateCall(accessOk, start, parameter))
      ensures !fault ==> ThreadRel(old(State()), State(), accessOk, StackTop(start, parameter))
      ensures !fault ==> r == ThreadReturn(old(State()), accessOk)
    {
      if !accessOk {
        return -EFAULT, false;
      }
      var empty := sched.IsEmpty(FREE, sched.freequeue);
      if empty {
        return -ENOMEM, false;
      }
      r, fault := CreateThread(start, parameter);
    }

    /** sys_threadCreate with good pointers and a free slot. */
    method CreateThread(start: nat, parameter: nat) returns (r: int, fault: bool)
      requires Valid() && Inv(sched.s) && sched.s.queues[FREE] != [] && PointersOk(State().m, sched.current)
      modifies sched, sched.task, sched.all
      modifies mem.physMem, mem.tables, mem.dir, mem.heapStart, mem.heapPtr, mem.ram
      ensures Valid()
      ensures var k := old(State());
              fault <==> StackFaults(k.s, true, HeapPage(k.m, k.s.current), FrameLeft(k.m))
      ensures !fault ==> ThreadRel(old(State()), State(), true, StackTop(start, parameter))
      ensures !fault ==> r == ThreadReturn(old(State()), true)
    {
      ghost var k := State();
      var past;
      r, past, fault := ThreadInto(sched.current, k.s.queues[FREE][0], start, parameter);
      if !fault {
        ThreadAssembled(k, State(), r, StackTop(start, parameter));
      }
    }

    // ---- sbrk

    /** sys_sbrk for the running task. */
    method SysSbrk(size: int) returns (r: int)
      requires Valid() && GeneralInv(State()) && sched.current != sched.idle && Heap.SizeOk(size)
      modifies mem.physMem, mem.tables, mem.heapPtr
      ensures Valid() && sched.s == old(sched.s)
      ensures Heap.SbrkEffect(old(mem.Snap()), mem.Snap(), sched.current, size, r)
      ensures State() in Next(old(State()), SbrkCall(size)) && GeneralInv(State())
    {
      ghost var k := State();
      CallerFit(k);
      r := SbrkOf(sched.current, size);
      Leads(k, State(), SbrkCall(size));
      StepKeeps(k, State(), SbrkCall(size));
    }

    method SbrkOf(p: nat, size: int) returns (r: int)
      requires Valid() && p < NR_TASKS && mem.physMem[NUM_PAG_KERNEL] && Heap.SizeOk(size)
      requires HeapOk(mem.heapPtr[p]) && mem.heapStart[p] == INIT_HEAP
      modifies mem.physMem, mem.tables, mem.heapPtr
      ensures Valid() && sched.s == old(sched.s) && Heap.SbrkEffect(old(mem.Snap()), mem.Snap(), p, size, r)
    {
      r := Heap.Sbrk(mem, p, size);
    }

    // ---- the other entries, and whole runs

    /** The clock, a yield or a semaphore call. */
    method EnterPlain(e: Event)
      requires Valid() && GeneralInv(State()) && Admissible(State(), Plain(e))
      modifies sched, sched.task, sched.semafors, sched.all
      ensures Valid() && State() in Next(old(State()), Plain(e)) && GeneralInv(State())
    {
      ghost var k := State();
      EnterRings(e);
      Leads(k, State(), Plain(e));
      StepKeeps(k, State(), Plain(e));
    }

    method EnterRings(e: Event)
      requires Valid() && Inv(sched.s) && Enabled(sched.s, e)
      modifies sched, sched.task, sched.semafors, sched.all
      ensures Valid() && mem.Snap() == old(mem.Snap()) && sched.s == Step(old(sched.s), e)
    {
      sched.Handle(e);
    }

    /** A fork while nobody is blocked. */
    method EnterFork() returns (fault: bool)
      requires Valid() && GeneralInv(State()) && sched.current != sched.idle && Safe(sched.s, Fork(true))
      modifies sched, sched.task, sched.semafors, sched.all
      modifies mem.physMem, mem.tables, mem.dir, mem.heapStart, mem.heapPtr, mem.ram
      ensures Valid() && (fault <==> Faults(old(State()), ForkCall))
      ensures !fault ==> State() in Next(old(State()), ForkCall) && GeneralInv(State())
    {
      var r;
      r, fault := SysFork();
    }

    /** exit, threadExit or sbrk. */
    method EnterTaskCall(call: Call)
      requires Valid() && GeneralInv(State()) && Admissible(State(), call)
      requires call.ExitCall? || call.ThreadExitCall? || call.SbrkCall?
      modifies sched, sched.task, sched.all
      modifies mem.physMem, mem.tables, mem.heapPtr
      ensures Valid() && State() in Next(old(State()), call) && GeneralInv(State())
    {
      if call.ExitCall? {
        SysExit();
      } else if call.ThreadExitCall? {
        SysThreadExit();
      } else {
        var r := SysSbrk(call.size);
      }
    }

    /** Any call is a step of the kernel machine, or faults where the machine says so. */
    method Enter(call: Call) returns (fault: bool)
      requires Valid() && GeneralInv(State()) && Admissible(State(), call)
      modifies sched, sched.task, sched.semafors, sched.all
      modifies mem.physMem, mem.tables, mem.dir, mem.heapStart, mem.heapPtr, mem.ram
      ensures Valid() && (fault <==> Faults(old(State()), call))
      ensures !fault ==> State() in Next(old(State()), call) && GeneralInv(State())
    {
      fault := false;
      if call.Plain? {
        EnterPlain(call.e);
      } else if call.ThreadCreateCall? {
        GuardIsFalse(State());
        var r;
        r, fault := SysThreadCreate(call.accessOk, call.start, call.parameter);
      } else if call.ForkCall? {
        fault := EnterFork();
      } else {
        EnterTaskCall(call);
      }
    }

    /** Any legal sequence of calls makes a run of the kernel machine, and the invariant holds at its end. */
    method EnterAll(calls: seq<Call>)
      requires Valid() && GeneralInv(State()) && LegalCalls(State(), calls)
      modifies sched, sched.task, sched.semafors, sched.all
      modifies mem.physMem, mem.tables, mem.dir, mem.heapStart, mem.heapPtr, mem.ram
      ensures Valid() && GeneralInv(State()) && Reaches(old(State()), calls, State())
      decreases |calls|
    {
      if calls != [] {
        var fault := Enter(calls[0]);
        EnterAll(calls[1..]);
      }
    }
  }
}
