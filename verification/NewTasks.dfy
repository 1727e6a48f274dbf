/**
  What a successful fork and a successful threadCreate give the new task, and what a threadExit takes:
  numbers, table, stack and bytes, for any caller and whatever threads and heaps exist.
 */
module NewTasks {
  import opened Tasks
  import opened EntryLaws
  import opened Paging
  import Copy
  import opened AddressSpace
  import opened Cloning
  import opened KernelSteps
  import opened KernelSafety

  // ---- what a successful fork gives the child

  /** The child in slot c is the caller's copy with the new PID r, which no other struct has, and nobody else's changes. */
  ghost predicate NewProcess(k: Kern, k': Kern, c: nat, r: int)
    requires KernOk(k) && KernOk(k') && c < 10 && k.s.queues[0] != []
  {
    var caller := k.s.tasks[k.s.current];
    && r == k.s.lastPid + 1 == k'.s.lastPid
    && k'.s.tasks[c] == Task(r, caller.tid, Ready, caller.quantum)
    && (forall t :: 0 <= t < 10 && t != c ==> k'.s.tasks[t] == k.s.tasks[t] && k'.s.tasks[t].pid != r)
    && k'.s.queues[0] == k.s.queues[0][1..] && k'.s.queues[1] == k.s.queues[1] + [c] && k'.s.current == k.s.current
    && k'.m.dir[c] == c && k'.m.heapStart[c] == k.m.heapStart[k.s.current] && k'.m.heapPtr[c] == k.m.heapPtr[k.s.current]
    && (forall t :: 0 <= t < 10 && t != c ==>
          k'.m.dir[t] == k.m.dir[t] && k'.m.heapStart[t] == k.m.heapStart[t] && k'.m.heapPtr[t] == k.m.heapPtr[t])
  }

  lemma ChildNamed(k: Kern, k': Kern)
    requires GeneralInv(k) && k.s.current != k.s.idle && KernOk(k') && ForkRel(k, k') && ForkReturn(k) > 0
    ensures k.s.queues[0] != [] && k.s.queues[0][0] < 10 && NewProcess(k, k', k.s.queues[0][0], ForkReturn(k))
  {
    ForkLaw(k.s, Frames(k));
    HeadAloneIfAny(k.s);
  }

  /** Page 264 + i of slot c holds what page 264 + i of table d held. */
  ghost predicate SameBytes(m: Mem, m': Mem, d: int, c: int, i: int)
    requires Sized(m) && Sized(m') && 0 <= d < 10 && 0 <= c < 10 && 0 <= i < 20
  {
    var f, g := PageFrame(m, d, 264 + i), PageFrame(m', c, 264 + i);
    0 <= f < 1024 && 0 <= g < 1024 && Frame(m'.ram, g) == Frame(m.ram, f)
  }

  /** The whole address space is cloned, the child's data is its own, and nobody else notices. */
  ghost predicate PerfectClone(m: Mem, m': Mem, d: int, c: int)
    requires Sized(m) && Sized(m') && 0 <= d < 10 && 0 <= c < 10
  {
    && (forall i :: 0 <= i < 20 ==> SameBytes(m, m', d, c, i))
    && (forall q :: 0 <= q < 264 ==> m'.tables[c][q].frame == m.tables[d][q].frame)
    && (forall g, t, q :: 264 <= g < 284 && 0 <= t < 10 && 0 <= q < 1024 && !(t == c && q == g)
          ==> PageFrame(m', t, q) != PageFrame(m', c, g))
    && (forall t :: 0 <= t < 10 && t != c ==> m'.tables[t] == m.tables[t])
    && (forall f :: 0 <= f < 1024 && m.used[f] ==> Frame(m'.ram, f) == Frame(m.ram, f))
  }

  lemma CloneIsPerfect(m: Mem, m': Mem, p: nat, c: nat)
    requires MemSafe(m) && MemSafe(m') && p < NR_TASKS && c < NR_TASKS && p != c && m.dir[p] != c && CloneOf(m, m', p, c)
    ensures PerfectClone(m, m', m.dir[p], c)
  {
    var d, fs := m.dir[p], DataFrames(m'.tables[c]);
    assert fs[..NUM_PAG_DATA] == fs;
    forall i | 0 <= i < 20
      ensures SameBytes(m, m', d, c, i)
    {
      assert DataFrames(m.tables[d])[i] == PageFrame(m, d, DataPage(i)) && fs[i] == PageFrame(m', c, DataPage(i));
    }
    forall g, t, q | 264 <= g < 284 && 0 <= t < 10 && 0 <= q < 1024 && !(t == c && q == g)
      ensures PageFrame(m', t, q) != PageFrame(m', c, g)
    {
      assert m'.tables[c][DataPage(g - 264)] == Mapped(fs[g - 264]);
      Exclusive(m', c, g, t, q);
    }
    forall f | 0 <= f < 1024 && m.used[f]
      ensures Frame(m'.ram, f) == Frame(m.ram, f)
    {
      assert f !in fs;
    }
  }

  /**
    A fork that returns a PID has made a new process with that PID and a perfect clone of the caller's
    address space, whether a thread or the process's own task called it, and whatever threads and heaps
    others have. The one exception is the fork into the table the caller runs in.
   */
  lemma ForkClones(k: Kern, k': Kern)
    requires GeneralInv(k) && k' in Next(k, ForkCall) && ForkReturn(k) > 0
    ensures k.s.queues[0] != [] && GeneralInv(k') && NewProcess(k, k', k.s.queues[0][0], ForkReturn(k))
    ensures k.m.dir[k.s.current] != k.s.queues[0][0] ==> PerfectClone(k.m, k'.m, k.m.dir[k.s.current], k.s.queues[0][0])
  {
    StepKeeps(k, k', ForkCall);
    ChildNamed(k, k');
    LiveFork(k.s, true);
    if k.m.dir[k.s.current] != k.s.queues[0][0] {
      CloneIsPerfect(k.m, k'.m, k.s.current, k.s.queues[0][0]);
    }
  }

  // ---- what a new thread finds

  /** What sys_threadCreate returns. */
  function ThreadReturn(k: Kern, accessOk: bool): int
    requires KernOk(k)
  {
    ThreadCreateStep(k.s, accessOk, HeapPage(k.m, k.s.current), FrameLeft(k.m)).1
  }

  /** The 32-bit word at address a, lowest byte first. */
  function WordAt(ram: seq<Copy.byte>, a: int): int
    requires 0 <= a && a + 4 <= |ram|
  {
    ram[a] as int + 256 * ram[a + 1] as int + 65536 * ram[a + 2] as int + 16777216 * ram[a + 3] as int
  }

  /**
    Thread r has been started: it is the caller's copy with that TID, shares the caller's table, and has
    a fresh stack page at the caller's old heap pointer with the function and its parameter on top.
   */
  ghost predicate ThreadStarted(k: Kern, k': Kern, start: nat, parameter: nat, r: int)
    requires KernOk(k) && KernOk(k')
  {
    var p := k.s.current;
    var page, caller := k.m.heapPtr[p] / 4096, k.s.tasks[p];
    && k.s.queues[0] != [] && 304 <= page < 1024
    && var c := k.s.queues[0][0];
    && c < 10 && c != p && r == k.s.lastTid + 1
    && k'.s.tasks == k.s.tasks[c := Task(caller.pid, r, Ready, caller.quantum)]
    && k'.s.queues[0] == k.s.queues[0][1..] && k'.s.queues[1] == k.s.queues[1] + [c] && k'.s.current == p
    && StackStarted(k.m, k'.m, p, c, start, parameter)
  }

  lemma BytesOfWord(w: nat)
    requires w < 0x1_0000_0000
    ensures w % 256 + 256 * (w / 0x100 % 256) + 65536 * (w / 0x10000 % 256) + 16777216 * (w / 0x1000000 % 256) == w
  {
    var a, b, c := w / 0x100, w / 0x10000, w / 0x1000000;
    assert w == 256 * a + w % 256 && a == 256 * b + a % 256 && b == 256 * c + b % 256;
    assert c < 256;
  }

  /** A word that was stored with its bytes in order is read back. */
  lemma WordStored(ram: seq<Copy.byte>, ram': seq<Copy.byte>, at: int, bs: seq<Copy.byte>, i: nat, w: nat)
    requires Stored(ram, ram', at, bs) && w < 0x1_0000_0000 && i + 4 <= |bs| && bs[i..i + 4] == WordBytes(w)
    ensures WordAt(ram', at + i) == w
  {
    BytesOfWord(w);
    var b := bs[i..i + 4];
    assert ram'[at + i] == b[0] && ram'[at + i + 1] == b[1] && ram'[at + i + 2] == b[2] && ram'[at + i + 3] == b[3];
  }

  lemma StackWords(ram: seq<Copy.byte>, ram': seq<Copy.byte>, at: int, start: nat, parameter: nat)
    requires Stored(ram, ram', at, StackTop(start, parameter)) && start < 0x1_0000_0000 && parameter < 0x1_0000_0000
    ensures WordAt(ram', at) == 0x777 && WordAt(ram', at + 4) == start && WordAt(ram', at + 8) == parameter
  {
    var bs := StackTop(start, parameter);
    assert bs[0..4] == WordBytes(0x777) && bs[4..8] == WordBytes(start) && bs[8..12] == WordBytes(parameter);
    WordStored(ram, ram', at, bs, 0, 0x777);
    WordStored(ram, ram', at, bs, 4, start);
    WordStored(ram, ram', at, bs, 8, parameter);
  }

  /** The memory half of ThreadStarted, for the thread in slot c. */
  ghost predicate StackStarted(m: Mem, m': Mem, p: nat, c: nat, start: nat, parameter: nat)
    requires Sized(m) && Sized(m') && p < 10 && c < 10 && 0 <= m.heapPtr[p] / 4096 < 1024
  {
    var d, page := m.dir[p], m.heapPtr[p] / 4096;
    var f := m'.tables[d][page].frame;
    && Available(m.used, f) && m'.used == m.used[f := true]
    && m'.tables == m.tables[d := m.tables[d][page := Entry(f, true, true, true)]]
    && WordAt(m'.ram, f * 4096 + 4084) == 0x777
    && WordAt(m'.ram, f * 4096 + 4088) == start
    && WordAt(m'.ram, f * 4096 + 4092) == parameter
    && (forall a :: 0 <= a < 1024 * 4096 && !(f * 4096 + 4084 <= a < f * 4096 + 4096) ==> m'.ram[a] == m.ram[a])
    && m'.dir == m.dir[c := d]
    && m'.heapPtr == m.heapPtr[c := m.heapPtr[p]][p := m.heapPtr[p] + 4096]
    && m'.heapStart == m.heapStart[c := m.heapStart[p]]
  }

  lemma StackStarts(m: Mem, m': Mem, p: nat, c: nat, start: nat, parameter: nat)
    requires Sized(m) && Sized(m') && p < 10 && c < 10 && 0 <= HeapPage(m, p) < 1024 && FrameLeft(m)
    requires start < 0x1_0000_0000 && parameter < 0x1_0000_0000 && StackMapped(m, m', p, c, StackTop(start, parameter))
    ensures StackStarted(m, m', p, c, start, parameter)
  {
    var f := FirstFree(m.used, NUM_PAG_KERNEL);
    StackWords(m.ram, m'.ram, f * PAGE_SIZE + STACK_TOP, start, parameter);
  }

  /** A threadCreate that returns a TID has started that thread. */
  lemma ThreadStarts(k: Kern, k': Kern, call: Call)
    requires GeneralInv(k) && call.ThreadCreateCall? && k' in Next(k, call) && ThreadReturn(k, call.accessOk) > 0
    ensures KernOk(k') && ThreadStarted(k, k', call.start, call.parameter, ThreadReturn(k, call.accessOk))
  {
    var p := k.s.current;
    GuardIsFalse(k);
    HeadAloneIfAny(k.s);
    ThreadLaw(k.s, call.accessOk, HeapPage(k.m, p), FrameLeft(k.m));
    var c := k.s.queues[0][0];
    StackStarts(k.m, k'.m, p, c, call.start, call.parameter);
    assert k'.s.tasks == k.s.tasks[c := k'.s.tasks[c]];
  }

  /** A threadExit frees the frame of the page at the caller's heap pointer and unmaps that page, and touches no other. */
  lemma ThreadEnds(k: Kern, k': Kern)
    requires GeneralInv(k) && k' in Next(k, ThreadExitCall) && k.m.heapPtr[k.s.current] / 4096 < 1024
    ensures var d, page := k.m.dir[k.s.current], k.m.heapPtr[k.s.current] / 4096;
            var f := k.m.tables[d][page].frame;
            && (f != 0 ==> f < 1024 && k.m.used[f] && k'.m.used == k.m.used[f := false])
            && (f == 0 ==> k'.m.used == k.m.used)
            && k'.m.tables == k.m.tables[d := k.m.tables[d][page := Entry(0, false, false, false)]]
            && k'.m.ram == k.m.ram && k'.s.queues[0] == k.s.queues[0] + [k.s.current]
  {
    GuardIsFalse(k);
    ExitLaw(k.s, ThreadExit);
    assert EntryOk(k.m, k.m.dir[k.s.current], k.m.heapPtr[k.s.current] / 4096);
  }
}
