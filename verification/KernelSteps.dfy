/**
  Tasks and memory together: what each kernel entry does to both, threads and heaps included. What an
  entry meets in memory (frames left, the page of the heap pointer) is computed from memory here.
 */
module KernelSteps {
  import opened Word32
  import opened Tasks
  import opened TaskInvariant
  import opened TaskTheorem
  import opened Copy
  import opened Paging
  import opened AddressSpace
  import opened Cloning
  import Heap

  datatype Kern = Kern(s: Sys, m: Mem)

  /** A kernel entry with its arguments: the clock, a yield or a semaphore call, or one that uses memory. */
  datatype Call =
    | Plain(e: Event)
    | ForkCall
    | ExitCall
    | ThreadCreateCall(accessOk: bool, start: nat, parameter: nat)
    | ThreadExitCall
    | SbrkCall(size: int)

  /** The slots that hold a user task. */
  ghost function Live(s: Sys): set<int>
    requires Shape(s)
  {
    set t | 0 <= t < NR_TASKS && t !in s.queues[FREE] && t != s.idle
  }

  predicate KernOk(k: Kern) {
    Shape(k.s) && Sized(k.m)
  }

  // ---- fork

  /** Will the child's data pages find their frames? */
  predicate Frames(k: Kern)
    requires KernOk(k)
  {
    k.s.queues[FREE] != [] && AllocLoop(k.m.used, k.m.tables[k.s.queues[FREE][0]]).n == NUM_PAG_DATA
  }

  ghost predicate ForkRel(k: Kern, k': Kern)
    requires KernOk(k) && Sized(k'.m)
  {
    && k'.s == ForkStep(k.s, Frames(k)).0
    && if k.s.queues[FREE] == [] then k'.m == k.m
       else if Frames(k) then CloneOf(k.m, k'.m, k.s.current, k.s.queues[FREE][0])
       else k'.m == FailedFork(k.m, k.s.current, k.s.queues[FREE][0])
  }

  // ---- threads

  /** The bytes of a 32-bit word, lowest first. */
  function WordBytes(w: nat): (bs: seq<byte>)
    ensures |bs| == 4
  {
    [(w % 256) as byte, (w / 0x100 % 256) as byte, (w / 0x10000 % 256) as byte, (w / 0x1000000 % 256) as byte]
  }

  /** The top of a new thread's stack: a fake frame pointer, the function and its parameter. */
  function StackTop(start: nat, parameter: nat): (bs: seq<byte>)
    ensures |bs| == 12
  {
    WordBytes(0x777) + WordBytes(start) + WordBytes(parameter)
  }

  const STACK_TOP := 4084

  /** The bytes bs are stored at `at`, and nothing else changes. */
  ghost predicate Stored(ram: seq<byte>, ram': seq<byte>, at: int, bs: seq<byte>) {
    && |ram'| == |ram| && 0 <= at && at + |bs| <= |ram|
    && forall a :: 0 <= a < |ram| ==> ram'[a] == if at <= a < at + |bs| then bs[a - at] else ram[a]
  }

  function Overwritten(ram: seq<byte>, at: int, bs: seq<byte>): (r: seq<byte>)
    requires 0 <= at && at + |bs| <= |ram|
    ensures Stored(ram, r, at, bs)
  {
    ram[..at] + bs + ram[at + |bs|..]
  }

  function HeapPage(m: Mem, p: nat): int
    requires Sized(m) && p < NR_TASKS
  {
    m.heapPtr[p] / PAGE_SIZE
  }

  predicate FrameLeft(m: Mem)
    requires Sized(m)
  {
    FirstFree(m.used, NUM_PAG_KERNEL) != -1
  }

  /** copy_data: the thread shares the caller's table and starts from its heap pointer. */
  function SharedStruct(m: Mem, p: nat, c: nat): Mem
    requires Sized(m) && p < NR_TASKS && c < NR_TASKS
  {
    m.(dir := m.dir[c := m.dir[p]], heapStart := m.heapStart[c := m.heapStart[p]], heapPtr := m.heapPtr[c := m.heapPtr[p]])
  }

  /** The memory m with slot c's struct shared and frame f mapped at slot p's heap pointer, which moves up. */
  function PageTaken(m: Mem, p: nat, c: nat, f: nat): Mem
    requires Sized(m) && p < NR_TASKS && c < NR_TASKS && f < TOTAL_PAGES && 0 <= HeapPage(m, p) <= TOTAL_PAGES
  {
    SharedStruct(m, p, c).(
    used := m.used[f := true],
    tables := WithEntry(m.tables, m.dir[p], HeapPage(m, p), Mapped(f)),
    heapPtr := m.heapPtr[c := m.heapPtr[p]][p := m.heapPtr[p] + PAGE_SIZE])
  }

  /** One stack page at the caller's heap pointer, in the table both share, with its first three words. */
  ghost predicate StackMapped(m: Mem, m': Mem, p: nat, c: nat, top: seq<byte>)
    requires Sized(m) && p < NR_TASKS && c < NR_TASKS && 0 <= HeapPage(m, p) < TOTAL_PAGES && FrameLeft(m)
  {
    var f := FirstFree(m.used, NUM_PAG_KERNEL);
    && m' == PageTaken(m, p, c, f).(ram := m'.ram)
    && Stored(m.ram, m'.ram, f * PAGE_SIZE + STACK_TOP, top)
  }

  /** Slot p has a heap pointer and a heap start that the thread calls can work with. */
  predicate PointersOk(m: Mem, p: nat)
    requires Sized(m) && p < NR_TASKS
  {
    0 <= m.heapPtr[p] && m.heapStart[p] <= HEAP_LIMIT
  }

  /** The page at slot p's heap pointer is released and the pointer steps down, on 32 bits. */
  function PageBelow(m: Mem, p: nat): (r: Mem)
    requires Sized(m) && p < NR_TASKS && 0 <= HeapPage(m, p) <= TOTAL_PAGES
    ensures Sized(r)
  {
    var d, page := m.dir[p], HeapPage(m, p);
    m.(used := Freed(m.used, EntryAt(m.tables, d, page).frame),
       tables := WithEntry(m.tables, d, page, EMPTY),
       heapPtr := m.heapPtr[p := Wrap32(m.heapPtr[p] - PAGE_SIZE)])
  }

  /** What sys_threadCreate does without a frame: pages are released downwards while the pointer is below the heap. */
  function ReleasedBelow(m: Mem, p: nat): (r: Mem)
    requires Sized(m) && p < NR_TASKS && PointersOk(m, p)
    ensures Sized(r)
    ensures m.heapStart[p] <= m.heapPtr[p] ==> r == m
    decreases if m.heapPtr[p] < m.heapStart[p] then m.heapPtr[p] + 1 else 0
  {
    if m.heapStart[p] <= m.heapPtr[p] then m else ReleasedBelow(PageBelow(m, p), p)
  }

  ghost predicate ThreadRel(k: Kern, k': Kern, accessOk: bool, top: seq<byte>)
    requires KernOk(k) && PointersOk(k.m, k.s.current)
    requires !StackFaults(k.s, accessOk, HeapPage(k.m, k.s.current), FrameLeft(k.m))
  {
    var p := k.s.current;
    var page := HeapPage(k.m, p);
    && k'.s == ThreadCreateStep(k.s, accessOk, page, FrameLeft(k.m)).0
    && if !accessOk || k.s.queues[FREE] == [] then k'.m == k.m
       else
         var m := SharedStruct(k.m, p, k.s.queues[FREE][0]);
         if PastLimit(page) then k'.m == m
         else if !FrameLeft(k.m) then PointersOk(m, p) && k'.m == ReleasedBelow(m, p)
         else StackMapped(k.m, k'.m, p, k.s.queues[FREE][0], top)
  }

  /** The memory half of threadExit: the page at the caller's own heap pointer is its stack. */
  function StackReleased(m: Mem, p: nat): Mem
    requires Sized(m) && p < NR_TASKS && 0 <= HeapPage(m, p) <= TOTAL_PAGES
  {
    var d, page := m.dir[p], HeapPage(m, p);
    m.(used := Freed(m.used, EntryAt(m.tables, d, page).frame),
       tables := WithEntry(m.tables, d, page, EMPTY),
       heapPtr := m.heapPtr[p := m.heapPtr[p] - PAGE_SIZE])
  }

  // ---- one step

  ghost predicate ExitRel(k: Kern, k': Kern)
    requires KernOk(k) && Sized(k'.m)
  {
    k'.s == ExitStep(k.s, true) && Released(k.m, k'.m, k.s.current)
  }

  ghost predicate SbrkRel(k: Kern, k': Kern, size: int)
    requires KernOk(k) && Sized(k'.m)
  {
    k'.s == k.s && exists r :: Heap.SbrkEffect(k.m, k'.m, k.s.current, size, r)
  }

  /** The calls that the run may make here: what the task machine calls enabled and safe, with 32-bit arguments. */
  ghost predicate Admissible(k: Kern, call: Call) {
    && KernOk(k)
    && (k.s.current == k.s.idle ==> call == Plain(Tick))
    && match call
       case Plain(e) =>
         && !e.Fork? && !e.Exit? && !e.ThreadCreate? && !e.ThreadExit?
         && Enabled(k.s, e) && Safe(k.s, e)
       case ForkCall => Safe(k.s, Fork(Frames(k)))
       case ThreadCreateCall(_, start, parameter) => start < TWO32 && parameter < TWO32
       case SbrkCall(size) => Heap.SizeOk(size)
       case _ => true
  }

  /** Does the call touch an unmapped page? The kernel stops there. */
  predicate Faults(k: Kern, call: Call)
    requires KernOk(k)
  {
    match call
    case ForkCall => Frames(k) && ForkFaults(k.m, k.s.current, k.s.queues[FREE][0])
    case ThreadCreateCall(accessOk, _, _) => StackFaults(k.s, accessOk, HeapPage(k.m, k.s.current), FrameLeft(k.m))
    case _ => false
  }

  /** The call leads from k to k'. */
  ghost predicate KStep(k: Kern, k': Kern, call: Call)
    requires Admissible(k, call)
  {
    && Sized(k'.m) && !Faults(k, call)
    && match call
       case Plain(e) => k' == Kern(Step(k.s, e), k.m)
       case ForkCall => ForkRel(k, k')
       case ExitCall => ExitRel(k, k')
       case ThreadCreateCall(accessOk, start, parameter) =>
         PointersOk(k.m, k.s.current) && ThreadRel(k, k', accessOk, StackTop(start, parameter))
       case ThreadExitCall =>
         && 0 <= HeapPage(k.m, k.s.current) <= TOTAL_PAGES
         && k' == Kern(ExitStep(k.s, false), StackReleased(k.m, k.s.current))
       case SbrkCall(size) => SbrkRel(k, k', size)
  }

  /** The states a call can lead to; none if it faults. */
  ghost function Next(k: Kern, call: Call): iset<Kern> {
    iset k' | Admissible(k, call) && KStep(k, k', call)
  }

  lemma Leads(k: Kern, k': Kern, call: Call)
    requires Admissible(k, call) && KStep(k, k', call)
    ensures k' in Next(k, call)
  {
  }

  // ---- the free ring under the scheduler's steps

  lemma FreeKept(s: Sys, e: Event)
    requires Inv(s) && Enabled(s, e) && !e.Fork? && !e.Exit? && !e.ThreadCreate? && !e.ThreadExit?
    ensures Shape(Step(s, e)) && Step(s, e).queues[FREE] == s.queues[FREE] && Step(s, e).idle == s.idle
  {
    if e.Tick? || e.Yield? {
      PreemptKeepsFree(s);
      PreemptKeepsFree(s.(remaining := s.remaining - 1));
    } else {
      SemaphoreKeepsFree(s, e);
    }
  }

  lemma SemaphoreKeepsFree(s: Sys, e: Event)
    requires Inv(s) && Enabled(s, e) && (e.SemCreate? || e.SemWait? || e.SemSignal? || e.SemDestroy?)
    ensures Shape(Step(s, e)) && Step(s, e).queues[FREE] == s.queues[FREE] && Step(s, e).idle == s.idle
  {
    if e.SemDestroy? && Accepted(s, e.id) {
      DrainExact(s, e.id);
    }
  }

  lemma PreemptKeepsFree(s: Sys)
    requires Shape(s) && s.tasks[s.current].state == Run
    ensures Shape(Preempted(s))
    ensures var s' := Dispatch(Preempted(s));
            Shape(s') && s'.queues[FREE] == s.queues[FREE] && s'.idle == s.idle
  {
  }

  lemma LiveExit(s: Sys, forgetPid: bool)
    requires Inv(s) && s.current != s.idle
    ensures Shape(ExitStep(s, forgetPid)) && s.current in Live(s)
    ensures Live(ExitStep(s, forgetPid)) == Live(s) - {s.current as int}
    ensures ExitStep(s, forgetPid).queues[FREE] == s.queues[FREE] + [s.current]
  {
    RetiredParked(s, forgetPid);
    CurrentLive(s);
    var s' := ExitStep(s, forgetPid);
    assert s'.queues[FREE] == s.queues[FREE] + [s.current];
  }

  lemma LiveFork(s: Sys, frames: bool)
    requires Inv(s) && s.current != s.idle && s.queues[FREE] != []
    ensures Shape(ForkStep(s, frames).0) && s.current in Live(s)
    ensures var c: int := s.queues[FREE][0];
            && 0 <= c < NR_TASKS && c !in Live(s)
            && Live(ForkStep(s, frames).0) == if frames then Live(s) + {c} else Live(s)
  {
    HeadAlone(s.queues, multiset{s.current}, s.idle, FREE);
    CurrentLive(s);
    var c := s.queues[FREE][0];
    assert c in s.queues[FREE];
    assert s.queues[FREE] == [c] + s.queues[FREE][1..];
  }

  lemma LiveThread(s: Sys, page: int, frame: bool)
    requires Inv(s) && s.current != s.idle && s.queues[FREE] != [] && !PastLimit(page)
    ensures var s' := ThreadCreateStep(s, true, page, frame).0;
            var c: int := s.queues[FREE][0];
            && Shape(s') && 0 <= c < NR_TASKS && c !in Live(s)
            && Live(s') == if frame then Live(s) + {c} else Live(s)
  {
    HeadAlone(s.queues, multiset{s.current}, s.idle, FREE);
    var c := s.queues[FREE][0];
    assert c in s.queues[FREE];
    assert s.queues[FREE] == [c] + s.queues[FREE][1..];
  }

  lemma CurrentLive(s: Sys)
    requires Inv(s) && s.current != s.idle
    ensures s.current in Live(s)
  {
    if s.current in s.queues[FREE] {
      Alone(s.queues, multiset{s.current}, s.idle, FREE, s.current);
    }
  }
}
