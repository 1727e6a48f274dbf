/** The kernel machine never blocks: every admissible call that does not fault has a successor state. */
module KernelProgress {
  import opened Tasks
  import opened TaskInvariant
  import opened Copy
  import opened Paging
  import opened AddressSpace
  import opened Cloning
  import opened KernelSteps
  import opened KernelSafety
  import Heap
  import Word32

  // ---- fork

  lemma OneCopied(ram: seq<byte>, src: nat, dst: nat)
    requires |ram| == RAM_SIZE && src < TOTAL_PAGES && dst < TOTAL_PAGES
    ensures Copied(ram, Overwritten(ram, dst * PAGE_SIZE, Frame(ram, src)), src * PAGE_SIZE, dst * PAGE_SIZE, PAGE_SIZE)
  {
  }

  lemma CopyTurn(ram: seq<byte>, before: seq<byte>, src: seq<int>, dst: seq<int>, n: nat)
    requires FramesCopied(ram, before, src, dst, n) && n < |src| && ReadFirst(src, dst)
    ensures FramesCopied(ram, Overwritten(before, dst[n] * PAGE_SIZE, Frame(before, src[n])), src, dst, n + 1)
  {
    OneCopied(before, src[n], dst[n]);
    CopyNext(ram, before, Overwritten(before, dst[n] * PAGE_SIZE, Frame(before, src[n])), src, dst, n);
  }

  /** The first n source frames can be copied, one after the other. */
  lemma {:induction false} AllCopied(ram: seq<byte>, src: seq<int>, dst: seq<int>, n: nat) returns (r: seq<byte>)
    requires |ram| == RAM_SIZE && InRam(src) && InRam(dst) && n <= |src| == |dst| && ReadFirst(src, dst)
    ensures FramesCopied(ram, r, src, dst, n)
  {
    if n == 0 {
      r := ram;
    } else {
      var before := AllCopied(ram, src, dst, n - 1);
      CopyTurn(ram, before, src, dst, n - 1);
      r := Overwritten(before, dst[n - 1] * PAGE_SIZE, Frame(before, src[n - 1]));
    }
  }

  /** The child's table: its data pages as allocated, the kernel and code pages of the caller's table. */
  function ChildTable(m: Mem, d: nat, c: nat): (pt: seq<Entry>)
    requires Sized(m) && d < NR_TASKS && c < NR_TASKS
    ensures |pt| == TOTAL_PAGES
  {
    var a := AllocLoop(m.used, m.tables[c]);
    seq(TOTAL_PAGES, q requires 0 <= q < TOTAL_PAGES =>
      if q < PAG_LOG_INIT_DATA then Mapped(m.tables[d][q].frame) else a.pt[q])
  }

  lemma ChildData(m: Mem, d: nat, c: nat) returns (fs: seq<int>)
    requires Sized(m) && d < NR_TASKS && c < NR_TASKS && AllocLoop(m.used, m.tables[c]).n == NUM_PAG_DATA
    ensures |fs| == NUM_PAG_DATA && Took(m.used, AllocLoop(m.used, m.tables[c]).used, fs)
    ensures DataFrames(ChildTable(m, d, c)) == fs
    ensures forall i :: 0 <= i < NUM_PAG_DATA ==> fs[i] >= 0 && ChildTable(m, d, c)[DataPage(i)] == Mapped(fs[i])
    ensures forall q :: DataPage(NUM_PAG_DATA) <= q < TOTAL_PAGES ==> ChildTable(m, d, c)[q] == m.tables[c][q]
  {
    fs := TakeExact(m.used, m.tables[c]);
    var pt := ChildTable(m, d, c);
    forall i | 0 <= i < NUM_PAG_DATA
      ensures fs[i] >= 0 && pt[DataPage(i)] == Mapped(fs[i])
    {
      assert AllocLoop(m.used, m.tables[c]).pt[DataPage(0) + i] == Mapped(fs[i]);
    }
    assert DataFrames(pt) == fs;
  }

  lemma TablesExist(m: Mem, m': Mem, d: nat, c: nat)
    requires Sized(m) && Sized(m') && d < NR_TASKS && c < NR_TASKS && AllocLoop(m.used, m.tables[c]).n == NUM_PAG_DATA
    requires m'.used == AllocLoop(m.used, m.tables[c]).used && m'.tables == m.tables[c := ChildTable(m, d, c)]
    ensures ClonedTables(m, m', d, c)
  {
    var gs := ChildData(m, d, c);
  }

  /** With frames at hand a clone exists. */
  lemma CloneExists(m: Mem, p: nat, c: nat) returns (m': Mem)
    requires MemSafe(m) && p < NR_TASKS && c < NR_TASKS && p != c && AllocLoop(m.used, m.tables[c]).n == NUM_PAG_DATA
    ensures Sized(m') && CloneOf(m, m', p, c)
  {
    var d, a, k := m.dir[p], AllocLoop(m.used, m.tables[c]), CopiedStruct(m, p, c);
    var fs := ChildData(m, d, c);
    SourcesApart(m, d, c, fs, a.used);
    var ram := m.ram;
    if d != c {
      ram := AllCopied(m.ram, Sources(m, d, c, fs), fs, NUM_PAG_DATA);
    }
    m' := k.(used := a.used, tables := m.tables[c := ChildTable(m, d, c)], ram := ram);
    TablesExist(k, m', d, c);
  }

  lemma ForkProgress(k: Kern) returns (k': Kern)
    requires GeneralInv(k) && Admissible(k, ForkCall) && !Faults(k, ForkCall)
    ensures k' in Next(k, ForkCall)
  {
    var s' := ForkStep(k.s, Frames(k)).0;
    var m' := k.m;
    if k.s.queues[FREE] != [] {
      LiveFork(k.s, Frames(k));
      var p, c := k.s.current, k.s.queues[FREE][0];
      if Frames(k) {
        m' := CloneExists(k.m, p, c);
      } else {
        m' := FailedFork(k.m, p, c);
      }
    }
    k' := Kern(s', m');
    Leads(k, k', ForkCall);
  }

  // ---- exit

  lemma ExitExists(m: Mem, p: nat) returns (m': Mem)
    requires Sized(m) && p < NR_TASKS
    ensures Sized(m') && Released(m, m', p)
  {
    var d := m.dir[p];
    var pt := m.tables[d];
    var fs := DataFrames(pt);
    m' := m.(used := seq(TOTAL_PAGES, f requires 0 <= f < TOTAL_PAGES => m.used[f] && !(f in fs && NUM_PAG_KERNEL < f)),
             tables := m.tables[d := seq(TOTAL_PAGES, q requires 0 <= q < TOTAL_PAGES =>
                                      if DataPage(0) <= q < DataPage(NUM_PAG_DATA) then EMPTY else pt[q])]);
  }

  // ---- sbrk

  /** With n frames left and room in the table, the heap can grow by n pages. */
  lemma {:induction false} GrowExists(m: Mem, p: nat, n: nat) returns (m': Mem, fs: seq<int>)
    requires Sized(m) && p < NR_TASKS && HeapOk(m.heapPtr[p])
    requires HeapPage(m, p) + n <= TOTAL_PAGES && n <= |AvailableSet(m.used)|
    ensures Sized(m') && |fs| == n && Heap.GrewBy(m, m', p, fs)
  {
    if n == 0 {
      m', fs := m, [];
      assert m.heapPtr[p := m.heapPtr[p]] == m.heapPtr;
    } else {
      var m1, gs := GrowExists(m, p, n - 1);
      var f := FirstFree(m1.used, NUM_PAG_KERNEL);
      TookAll(m.used, m1.used, gs);
      fs := gs + [f];
      m' := m1.(used := m1.used[f := true],
                tables := WithEntry(m1.tables, m1.dir[p], m1.heapPtr[p] / PAGE_SIZE, Mapped(f)),
                heapPtr := m1.heapPtr[p := m1.heapPtr[p] + PAGE_SIZE]);
      Heap.GrewMore(m, m1, m', p, gs, f);
    }
  }

  lemma ShrinkExists(m: Mem, p: nat, target: int) returns (m': Mem)
    requires Sized(m) && p < NR_TASKS
    ensures Sized(m') && Heap.Shrunk(m, m', p, target)
  {
    var d := m.dir[p];
    var ptr := if target < m.heapPtr[p] then target / PAGE_SIZE * PAGE_SIZE else m.heapPtr[p];
    var lo, hi := ptr / PAGE_SIZE + 1, m.heapPtr[p] / PAGE_SIZE + 1;
    m' := m.(heapPtr := m.heapPtr[p := ptr],
             tables := seq(NR_TASKS, t requires 0 <= t < NR_TASKS =>
                         seq(TOTAL_PAGES, q requires 0 <= q < TOTAL_PAGES =>
                           if (t == d && lo <= q < hi) || (t == d + 1 && q == 0 && lo <= TOTAL_PAGES < hi) then EMPTY
                           else m.tables[t][q])));
  }

  lemma SbrkExists(m: Mem, p: nat, size: int) returns (m': Mem, r: int)
    requires Sized(m) && p < NR_TASKS && HeapOk(m.heapPtr[p]) && Heap.SizeOk(size)
    ensures Sized(m') && Heap.SbrkEffect(m, m', p, size, r)
  {
    var frames := |AvailableSet(m.used)|;
    m', r := m, m.heapPtr[p];
    if Heap.Fails(m.heapPtr[p], size, frames) {
      r := 0;
    } else if size > 0 {
      var fs;
      m', fs := GrowExists(m, p, Heap.PagesFor(size));
    } else if size < 0 {
      m' := ShrinkExists(m, p, Word32.Wrap32(m.heapPtr[p] + size));
    }
  }

  // ---- all calls

  lemma ThreadProgress(k: Kern, call: Call) returns (k': Kern)
    requires GeneralInv(k) && call.ThreadCreateCall? && Admissible(k, call) && !Faults(k, call)
    ensures k' in Next(k, call)
  {
    GuardIsFalse(k);
    var p, page := k.s.current, HeapPage(k.m, k.s.current);
    var m' := k.m;
    if call.accessOk && k.s.queues[FREE] != [] {
      var c := k.s.queues[FREE][0];
      HeadAlone(k.s.queues, multiset{k.s.current}, k.s.idle, FREE);
      if FrameLeft(k.m) {
        var f := FirstFree(k.m.used, NUM_PAG_KERNEL);
        m' := PageTaken(k.m, p, c, f).(
        ram := Overwritten(k.m.ram, f * PAGE_SIZE + STACK_TOP, StackTop(call.start, call.parameter)));
      } else {
        m' := SharedStruct(k.m, p, c);
      }
    }
    k' := Kern(ThreadCreateStep(k.s, call.accessOk, page, FrameLeft(k.m)).0, m');
    Leads(k, k', call);
  }

  /** Every admissible call either faults or leads somewhere. */
  lemma Progress(k: Kern, call: Call) returns (k': Kern)
    requires GeneralInv(k) && Admissible(k, call) && !Faults(k, call)
    ensures k' in Next(k, call)
  {
    if call.ForkCall? {
      k' := ForkProgress(k);
    } else if call.ThreadCreateCall? {
      k' := ThreadProgress(k, call);
    } else if call.Plain? {
      k' := Kern(Step(k.s, call.e), k.m);
      Leads(k, k', call);
    } else {
      CallerFit(k);
      k' := MemoryProgress(k, call);
    }
  }

  lemma MemoryProgress(k: Kern, call: Call) returns (k': Kern)
    requires KernOk(k) && Admissible(k, call) && CallerOk(k.m, k.s.current)
    requires call.ExitCall? || call.ThreadExitCall? || call.SbrkCall?
    ensures k' in Next(k, call)
  {
    var p := k.s.current;
    if call.ExitCall? {
      var m' := ExitExists(k.m, p);
      k' := Kern(ExitStep(k.s, true), m');
    } else if call.ThreadExitCall? {
      k' := Kern(ExitStep(k.s, false), StackReleased(k.m, p));
    } else {
      var m', r := SbrkExists(k.m, p, call.size);
      k' := Kern(k.s, m');
      assert Heap.SbrkEffect(k.m, k'.m, p, call.size, r);
    }
    Leads(k, k', call);
  }
}
