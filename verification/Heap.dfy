/** sys_sbrk: all-or-nothing growth, the shrink that frees nothing, and the range of the heap pointer. */
module Heap {
  import opened Word32
  import opened Tasks
  import opened Paging
  import opened AddressSpace

  function PagesFor(size: int): int {
    (size + PAGE_SIZE - 1) / PAGE_SIZE
  }

  /** Sizes that a 32-bit int holds and whose rounding does not overflow. */
  predicate SizeOk(size: int) {
    -0x8000_0000 <= size <= 0x7FFF_FFFF - (PAGE_SIZE - 1)
  }

  /** The heap pointer after sbrk(size), given how many frames can be had. */
  function NewPointer(ptr: int, size: int, frames: nat): int {
    var target := Wrap32(ptr + size);
    if size == 0 || target < INIT_HEAP then ptr
    else if size > 0 then
      if ptr / PAGE_SIZE + PagesFor(size) > TOTAL_PAGES || frames < PagesFor(size) then ptr
      else ptr + PagesFor(size) * PAGE_SIZE
    else if target < ptr then target / PAGE_SIZE * PAGE_SIZE
    else ptr
  }

  /** sbrk fails: below the heap, out of logical pages, or out of frames. */
  predicate Fails(ptr: int, size: int, frames: nat) {
    && size != 0
    && (|| Wrap32(ptr + size) < INIT_HEAP
        || (size > 0 && (ptr / PAGE_SIZE + PagesFor(size) > TOTAL_PAGES || frames < PagesFor(size))))
  }

  /**
    The tables agree with ts0 except that pages [lo, hi) of table d are unmapped; page 1024 is the
    first entry of the next table.
   */
  ghost predicate Cleared(ts0: seq<seq<Entry>>, ts: seq<seq<Entry>>, d: nat, lo: int, hi: int) {
    && Tables(ts0) && Tables(ts)
    && forall t, q :: 0 <= t < NR_TASKS && 0 <= q < TOTAL_PAGES ==>
         ts[t][q] == if (t == d && lo <= q < hi) || (t == d + 1 && q == 0 && lo <= TOTAL_PAGES < hi) then EMPTY else ts0[t][q]
  }

  /** What growing did to the caller's table and to the frames. */
  ghost predicate GrewBy(m: Mem, m': Mem, p: nat, fs: seq<int>)
    requires Sized(m) && Sized(m') && p < NR_TASKS
  {
    && Took(m.used, m'.used, fs)
    && Grown(m.tables[m.dir[p]], m'.tables[m.dir[p]], m.heapPtr[p] / PAGE_SIZE, fs)
    && (forall t :: 0 <= t < NR_TASKS && t != m.dir[p] ==> m'.tables[t] == m.tables[t])
    && m' == m.(used := m'.used, tables := m'.tables, heapPtr := m.heapPtr[p := m.heapPtr[p] + |fs| * PAGE_SIZE])
  }

  /** One more page mapped at the pointer. */
  lemma GrewMore(m: Mem, m1: Mem, m2: Mem, p: nat, fs: seq<int>, f: nat)
    requires Sized(m) && Sized(m1) && p < NR_TASKS && GrewBy(m, m1, p, fs)
    requires HeapOk(m.heapPtr[p]) && m.heapPtr[p] / PAGE_SIZE + |fs| < TOTAL_PAGES && Available(m1.used, f)
    requires m2 == m1.(used := m1.used[f := true],
                       tables := WithEntry(m1.tables, m1.dir[p], m1.heapPtr[p] / PAGE_SIZE, Mapped(f)),
                       heapPtr := m1.heapPtr[p := m1.heapPtr[p] + PAGE_SIZE])
    ensures GrewBy(m, m2, p, fs + [f])
  {
    TakeOne(m.used, m1.used, fs, f);
    GrowMore(m.tables[m.dir[p]], m1.tables[m.dir[p]], m.heapPtr[p] / PAGE_SIZE, fs, f);
  }

  /** One turn of the growing loop: false if no frame is left. */
  method GrowPage(mem: Memory, p: nat, ghost m: Mem, ghost fs: seq<int>) returns (ok: bool, ghost fs': seq<int>)
    requires mem.Valid() && p < NR_TASKS && Sized(m) && GrewBy(m, mem.Snap(), p, fs)
    requires HeapOk(m.heapPtr[p]) && m.heapPtr[p] / PAGE_SIZE + |fs| < TOTAL_PAGES
    modifies mem.physMem, mem.tables, mem.heapPtr
    ensures mem.Valid()
    ensures ok ==> |fs'| == |fs| + 1 && GrewBy(m, mem.Snap(), p, fs')
    ensures !ok ==> fs' == fs && mem.Snap() == old(mem.Snap()) && |AvailableSet(m.used)| == |fs|
  {
    ghost var m1 := mem.Snap();
    fs' := fs;
    if mem.heapPtr[p] % PAGE_SIZE == 0 {
      var f := mem.TakePageAt(mem.dir[p], mem.heapPtr[p] / PAGE_SIZE);
      if f == -1 {
        TookAll(m.used, m1.used, fs);
        return false, fs;
      }
      fs' := fs + [f];
    }
    mem.heapPtr[p] := mem.heapPtr[p] + PAGE_SIZE;
    GrewMore(m, m1, mem.Snap(), p, fs, fs'[|fs|]);
    ok := true;
  }

  /** Halfway through the rollback: gs are still mapped, the pages up to n behind them are not. */
  ghost predicate Undone(m: Mem, m': Mem, p: nat, gs: seq<int>, n: nat)
    requires Sized(m) && Sized(m') && p < NR_TASKS
  {
    var first := m.heapPtr[p] / PAGE_SIZE;
    && |gs| <= n
    && Took(m.used, m'.used, gs)
    && (forall t :: 0 <= t < NR_TASKS && t != m.dir[p] ==> m'.tables[t] == m.tables[t])
    && m' == m.(used := m'.used, tables := m'.tables, heapPtr := m.heapPtr[p := m.heapPtr[p] + |gs| * PAGE_SIZE])
    && UndoneTable(m.tables[m.dir[p]], m'.tables[m.dir[p]], first, gs, n)
  }

  ghost predicate UndoneTable(pt0: seq<Entry>, pt: seq<Entry>, first: int, gs: seq<int>, n: nat) {
    && |pt0| == |pt| == TOTAL_PAGES && |gs| <= n && 0 <= first && first + n <= TOTAL_PAGES
    && (forall j :: 0 <= j < |gs| ==> gs[j] >= 0 && pt[first + j] == Mapped(gs[j]))
    && (forall q :: 0 <= q < first ==> pt[q] == pt0[q])
    && (forall q :: first + n <= q < TOTAL_PAGES ==> pt[q] == pt0[q])
    && (forall q :: first + |gs| <= q < first + n ==> pt[q] == EMPTY)
  }

  /** Freeing the last frame taken; frame 256 is never it. */
  lemma Untake(u0: seq<bool>, u: seq<bool>, gs: seq<int>, f: int)
    requires Took(u0, u, gs + [f]) && u0[NUM_PAG_KERNEL]
    ensures f >= 0 && Took(u0, Freed(u, f), gs)
  {
    var all := gs + [f];
    assert all[|gs|] == f && Available(u0, f);
    assert forall j :: 0 <= j < |gs| ==> gs[j] == all[j];
  }

  lemma UndoLast(pt0: seq<Entry>, pt: seq<Entry>, first: int, gs: seq<int>, f: int, n: nat)
    requires UndoneTable(pt0, pt, first, gs + [f], n)
    ensures f >= 0 && pt[first + |gs|] == Mapped(f)
    ensures UndoneTable(pt0, pt[first + |gs| := EMPTY], first, gs, n)
  {
    var all := gs + [f];
    assert all[|gs|] == f;
    assert forall j :: 0 <= j < |gs| ==> gs[j] == all[j];
  }

  /** The memory after slot p's pointer stepped back and the page under it was released. */
  function SteppedBack(m: Mem, p: nat): Mem
    requires Sized(m) && p < NR_TASKS && PAGE_SIZE <= m.heapPtr[p] <= HEAP_LIMIT
  {
    var ptr := m.heapPtr[p] - PAGE_SIZE;
    var pt := m.tables[m.dir[p]];
    m.(used := Freed(m.used, pt[ptr / PAGE_SIZE].frame),
       tables := m.tables[m.dir[p] := pt[ptr / PAGE_SIZE := EMPTY]],
       heapPtr := m.heapPtr[p := ptr])
  }

  /** One turn of the rollback loop. */
  method StepBack(mem: Memory, p: nat)
    requires mem.Valid() && p < NR_TASKS && PAGE_SIZE <= mem.heapPtr[p] <= HEAP_LIMIT
    modifies mem.physMem, mem.tables, mem.heapPtr
    ensures mem.Valid() && mem.Snap() == SteppedBack(old(mem.Snap()), p)
  {
    mem.heapPtr[p] := mem.heapPtr[p] - PAGE_SIZE;
    mem.ReleasePageAt(mem.dir[p], mem.heapPtr[p] / PAGE_SIZE);
  }

  lemma UndoStep(m: Mem, m1: Mem, p: nat, gs: seq<int>, last: int, n: nat)
    requires Sized(m) && Sized(m1) && p < NR_TASKS && Undone(m, m1, p, gs + [last], n)
    requires HeapOk(m.heapPtr[p]) && m.used[NUM_PAG_KERNEL]
    ensures PAGE_SIZE <= m1.heapPtr[p] <= HEAP_LIMIT
    ensures Sized(SteppedBack(m1, p)) && Undone(m, SteppedBack(m1, p), p, gs, n)
  {
    UndoLast(m.tables[m.dir[p]], m1.tables[m.dir[p]], m.heapPtr[p] / PAGE_SIZE, gs, last, n);
    Untake(m.used, m1.used, gs, last);
  }

  /** The rollback loop: pointer and frames as before, the pages tried unmapped. */
  method Undo(mem: Memory, p: nat, oldPointer: int, ghost m: Mem, ghost fs: seq<int>)
    requires mem.Valid() && p < NR_TASKS && Sized(m) && GrewBy(m, mem.Snap(), p, fs)
    requires HeapOk(m.heapPtr[p]) && m.used[NUM_PAG_KERNEL] && oldPointer == m.heapPtr[p]
    modifies mem.physMem, mem.tables, mem.heapPtr
    ensures mem.Valid() && Undone(m, mem.Snap(), p, [], |fs|)
  {
    ghost var gs := fs;
    while mem.heapPtr[p] > oldPointer
      invariant mem.Valid() && Undone(m, mem.Snap(), p, gs, |fs|)
      decreases |gs|
    {
      ghost var rest := gs[..|gs| - 1];
      assert gs == rest + [gs[|gs| - 1]];
      UndoStep(m, mem.Snap(), p, rest, gs[|gs| - 1], |fs|);
      StepBack(mem, p);
      gs := rest;
    }
  }

  /** A failed growth: everything as before, except that pages it had tried are unmapped. */
  ghost predicate Untouched(m: Mem, m': Mem, p: nat)
    requires Sized(m) && Sized(m') && p < NR_TASKS
  {
    && m' == m.(tables := m'.tables)
    && (forall t :: 0 <= t < NR_TASKS && t != m.dir[p] ==> m'.tables[t] == m.tables[t])
    && (forall q :: 0 <= q < TOTAL_PAGES ==>
          || m'.tables[m.dir[p]][q] == m.tables[m.dir[p]][q]
          || (m.heapPtr[p] / PAGE_SIZE <= q && m'.tables[m.dir[p]][q] == EMPTY))
  }

  lemma UndoneIsUntouched(m: Mem, m': Mem, p: nat, n: nat)
    requires Sized(m) && Sized(m') && p < NR_TASKS && Undone(m, m', p, [], n)
    ensures Untouched(m, m', p)
  {
    assert m'.used == m.used;
    assert m'.heapPtr == m.heapPtr;
  }

  /** If the pages above the pointer were unmapped, a failed growth changes nothing at all. */
  lemma FailureRestores(m: Mem, m': Mem, p: nat)
    requires Sized(m) && Sized(m') && p < NR_TASKS && Untouched(m, m', p)
    requires forall q :: 0 <= q < TOTAL_PAGES && m.heapPtr[p] / PAGE_SIZE <= q ==> m.tables[m.dir[p]][q] == EMPTY
    ensures m' == m
  {
    assert m'.tables[m.dir[p]] == m.tables[m.dir[p]];
    assert m'.tables == m.tables;
  }

  /** The growing loop with its rollback. */
  method Grow(mem: Memory, p: nat, target: int, ghost need: nat) returns (ok: bool)
    requires mem.Valid() && p < NR_TASKS && HeapOk(mem.heapPtr[p]) && mem.physMem[NUM_PAG_KERNEL]
    requires mem.heapPtr[p] / PAGE_SIZE + need <= TOTAL_PAGES
    requires mem.heapPtr[p] + (need - 1) * PAGE_SIZE < target <= mem.heapPtr[p] + need * PAGE_SIZE
    modifies mem.physMem, mem.tables, mem.heapPtr
    ensures mem.Valid()
    ensures ok <==> |AvailableSet(old(mem.physMem[..]))| >= need
    ensures ok ==> exists fs :: |fs| == need && GrewBy(old(mem.Snap()), mem.Snap(), p, fs)
    ensures !ok ==> Untouched(old(mem.Snap()), mem.Snap(), p)
  {
    var oldPointer := mem.heapPtr[p];
    ghost var m := mem.Snap();
    ghost var fs: seq<int> := [];
    while mem.heapPtr[p] < target
      invariant mem.Valid() && |fs| <= need && GrewBy(m, mem.Snap(), p, fs)
      decreases need - |fs|
    {
      var mapped;
      mapped, fs := GrowPage(mem, p, m, fs);
      if !mapped {
        Undo(mem, p, oldPointer, m, fs);
        UndoneIsUntouched(m, mem.Snap(), p, |fs|);
        return false;
      }
    }
    TookAll(m.used, mem.physMem[..], fs);
    ok := true;
  }

  /** The shrinking loop: del_ss_pag comes before get_frame, so free_frame(0) is all that is freed. */
  method Shrink(mem: Memory, p: nat, target: int)
    requires mem.Valid() && p < NR_TASKS && HeapOk(mem.heapPtr[p]) && INIT_HEAP <= target
    modifies mem.physMem, mem.tables, mem.heapPtr
    ensures mem.Valid() && Shrunk(old(mem.Snap()), mem.Snap(), p, target)
  {
    ghost var m := mem.Snap();
    while mem.heapPtr[p] > target
      invariant mem.Valid() && Shrinking(m, mem.Snap(), p)
      invariant mem.heapPtr[p] > target - PAGE_SIZE || mem.heapPtr[p] == m.heapPtr[p]
      invariant mem.heapPtr[p] >= INIT_HEAP
      decreases mem.heapPtr[p]
    {
      ShrinkStep(m, mem.Snap(), p);
      ShrinkPage(mem, p);
    }
  }

  /** Part of the way down: pointer moved, entries above it cleared one page late, frames untouched. */
  ghost predicate Shrinking(m: Mem, m': Mem, p: nat)
    requires Sized(m) && Sized(m') && p < NR_TASKS
  {
    && m'.heapPtr[p] <= m.heapPtr[p] && m'.heapPtr[p] % PAGE_SIZE == 0
    && m' == m.(tables := m'.tables, heapPtr := m.heapPtr[p := m'.heapPtr[p]])
    && Cleared(m.tables, m'.tables, m.dir[p], m'.heapPtr[p] / PAGE_SIZE + 1, m.heapPtr[p] / PAGE_SIZE + 1)
  }

  function ShrunkPage(m: Mem, p: nat): Mem
    requires Sized(m) && p < NR_TASKS && 0 <= m.heapPtr[p] <= HEAP_LIMIT
  {
    m.(tables := WithEntry(m.tables, m.dir[p], m.heapPtr[p] / PAGE_SIZE, EMPTY),
       heapPtr := m.heapPtr[p := m.heapPtr[p] - PAGE_SIZE])
  }

  lemma ClearOne(ts0: seq<seq<Entry>>, ts: seq<seq<Entry>>, d: nat, page: nat, hi: int)
    requires Cleared(ts0, ts, d, page + 1, hi) && d < NR_TASKS && page < hi && page <= TOTAL_PAGES
    ensures Cleared(ts0, WithEntry(ts, d, page, EMPTY), d, page, hi)
  {
  }

  lemma ShrinkStep(m: Mem, m1: Mem, p: nat)
    requires Sized(m) && Sized(m1) && p < NR_TASKS && Shrinking(m, m1, p) && 0 <= m1.heapPtr[p] <= HEAP_LIMIT
    ensures Sized(ShrunkPage(m1, p)) && Shrinking(m, ShrunkPage(m1, p), p)
  {
    ClearOne(m.tables, m1.tables, m.dir[p], m1.heapPtr[p] / PAGE_SIZE, m.heapPtr[p] / PAGE_SIZE + 1);
  }

  method ShrinkPage(mem: Memory, p: nat)
    requires mem.Valid() && p < NR_TASKS && HeapOk(mem.heapPtr[p])
    modifies mem.physMem, mem.tables, mem.heapPtr
    ensures mem.Valid()
    ensures mem.Snap() == ShrunkPage(old(mem.Snap()), p)
  {
    if mem.heapPtr[p] % PAGE_SIZE == 0 {
      if mem.heapPtr[p] > DATA_END {
        mem.DelPageAt(mem.dir[p], mem.heapPtr[p] / PAGE_SIZE);
        var f := mem.GetFrameAt(mem.dir[p], mem.heapPtr[p] / PAGE_SIZE);
        FreeFrame(mem.physMem, f);
      }
    }
    mem.heapPtr[p] := mem.heapPtr[p] - PAGE_SIZE;
  }

  /** Shrinking moves the pointer and clears entries above it, one page late; no frame is released. */
  ghost predicate Shrunk(m: Mem, m': Mem, p: nat, target: int)
    requires Sized(m) && Sized(m') && p < NR_TASKS
  {
    var ptr := if target < m.heapPtr[p] then target / PAGE_SIZE * PAGE_SIZE else m.heapPtr[p];
    && m' == m.(tables := m'.tables, heapPtr := m.heapPtr[p := ptr])
    && Cleared(m.tables, m'.tables, m.dir[p], ptr / PAGE_SIZE + 1, m.heapPtr[p] / PAGE_SIZE + 1)
  }

  /** The whole effect of sbrk(size) by slot p, with its result. */
  ghost predicate SbrkEffect(m: Mem, m': Mem, p: nat, size: int, r: int)
    requires Sized(m) && Sized(m') && p < NR_TASKS
  {
    var frames := |AvailableSet(m.used)|;
    && m'.heapPtr[p] == NewPointer(m.heapPtr[p], size, frames)
    && r == (if Fails(m.heapPtr[p], size, frames) then 0 else m.heapPtr[p])
    && (Fails(m.heapPtr[p], size, frames) ==> Untouched(m, m', p))
    && (size == 0 ==> m' == m)
    && (size > 0 && r != 0 ==> exists fs :: |fs| == PagesFor(size) && GrewBy(m, m', p, fs))
    && (size < 0 && r != 0 ==> Shrunk(m, m', p, Wrap32(m.heapPtr[p] + size)))
  }

  /**
    sys_sbrk. Growth succeeds with the old pointer, or fails with 0 and leaves pointer and frames
    alone; a shrink only moves the pointer and unmaps pages.
   */
  method Sbrk(mem: Memory, p: nat, size: int) returns (r: int)
    requires mem.Valid() && p < NR_TASKS && SizeOk(size) && mem.physMem[NUM_PAG_KERNEL]
    requires HeapOk(mem.heapPtr[p]) && mem.heapStart[p] == INIT_HEAP
    modifies mem.physMem, mem.tables, mem.heapPtr
    ensures mem.Valid() && SbrkEffect(old(mem.Snap()), mem.Snap(), p, size, r)
  {
    if size == 0 {
      return mem.heapPtr[p];
    }
    var oldPointer := mem.heapPtr[p];
    var newPointer := Wrap32(oldPointer + size);
    if newPointer < INIT_HEAP {
      return 0;
    }
    if size > 0 {
      var needed := PagesFor(size);
      var reserved := (mem.heapPtr[p] - mem.heapStart[p]) / PAGE_SIZE;
      if NUM_PAG_CODE + 2 * NUM_PAG_DATA + NUM_PAG_KERNEL + needed + reserved > TOTAL_PAGES {
        return 0;
      }
      var ok := Grow(mem, p, newPointer, needed);
      if !ok {
        return 0;
      }
    } else {
      Shrink(mem, p, newPointer);
    }
    r := oldPointer;
  }

  /** One request to sbrk and the number of frames available when it is made. */
  datatype Request = Request(size: int, frames: nat)

  ghost function PointerAfter(ptr: int, rs: seq<Request>): int
    decreases |rs|
  {
    if rs == [] then ptr else PointerAfter(NewPointer(ptr, rs[0].size, rs[0].frames), rs[1..])
  }

  /** Over any sequence of calls the pointer stays page-aligned between the heap's start and its limit. */
  lemma {:induction false} PointerInRange(ptr: int, rs: seq<Request>)
    requires HeapOk(ptr) && forall i :: 0 <= i < |rs| ==> SizeOk(rs[i].size)
    ensures HeapOk(PointerAfter(ptr, rs))
    ensures PointerAfter(ptr, rs) % 4096 == 0 && 0x130000 <= PointerAfter(ptr, rs) <= 1024 * 4096
    decreases |rs|
  {
    if rs != [] {
      PointerStep(ptr, rs[0].size, rs[0].frames);
      PointerInRange(NewPointer(ptr, rs[0].size, rs[0].frames), rs[1..]);
    }
  }

  lemma PointerStep(ptr: int, size: int, frames: nat)
    requires HeapOk(ptr) && SizeOk(size)
    ensures HeapOk(NewPointer(ptr, size, frames))
  {
    var target := Wrap32(ptr + size);
    if size > 0 {
      assert (ptr + PagesFor(size) * PAGE_SIZE) % PAGE_SIZE == 0;
      assert ptr == ptr / PAGE_SIZE * PAGE_SIZE;
    } else if INIT_HEAP <= target < ptr {
      assert (target / PAGE_SIZE * PAGE_SIZE) % PAGE_SIZE == 0;
      assert INIT_HEAP / PAGE_SIZE * PAGE_SIZE == INIT_HEAP;
    }
  }

  // ---- what sbrk keeps

  /** Only heap pages, a first entry of a table, and slot p's pointer may have changed. */
  ghost predicate HeapOnly(m: Mem, m': Mem, p: nat)
    requires Sized(m) && p < NR_TASKS
  {
    && Sized(m')
    && (forall t, q :: 0 <= t < NR_TASKS && 0 < q < FIRST_HEAP_PAGE ==> m'.tables[t][q] == m.tables[t][q])
    && m'.dir == m.dir && m'.heapStart == m.heapStart && m'.ram == m.ram
    && m'.heapPtr == m.heapPtr[p := m'.heapPtr[p]]
  }

  lemma GrewKeeps(m: Mem, m': Mem, p: nat, fs: seq<int>)
    requires MemSafe(m) && Sized(m') && p < NR_TASKS && HeapOk(m.heapPtr[p]) && GrewBy(m, m', p, fs)
    ensures MemSafe(m') && HeapOnly(m, m', p)
  {
    MapKeepsSafe(m, m', m.dir[p], m.heapPtr[p] / PAGE_SIZE, fs);
  }

  lemma ShrunkKeeps(m: Mem, m': Mem, p: nat, target: int)
    requires MemSafe(m) && Sized(m') && p < NR_TASKS && HeapOk(m.heapPtr[p]) && INIT_HEAP <= target && Shrunk(m, m', p, target)
    ensures MemSafe(m') && HeapOnly(m, m', p)
  {
    forall t, q | 0 <= t < NR_TASKS && PAG_LOG_INIT_DATA <= q < TOTAL_PAGES
      ensures m'.tables[t][q] == EMPTY || (m'.tables[t][q] == m.tables[t][q] && EntryOk(m', t, q))
    {
      assert EntryOk(m, t, q);
    }
    ClearKeepsSafe(m, m');
  }

  lemma UntouchedKeeps(m: Mem, m': Mem, p: nat)
    requires MemSafe(m) && Sized(m') && p < NR_TASKS && HeapOk(m.heapPtr[p]) && Untouched(m, m', p)
    ensures MemSafe(m') && HeapOnly(m, m', p)
  {
    forall t, q | 0 <= t < NR_TASKS && PAG_LOG_INIT_DATA <= q < TOTAL_PAGES
      ensures m'.tables[t][q] == EMPTY || (m'.tables[t][q] == m.tables[t][q] && EntryOk(m', t, q))
    {
      assert EntryOk(m, t, q);
    }
    ClearKeepsSafe(m, m');
  }

  /** Whatever sbrk does, memory stays in order and the pointer in range. */
  lemma SbrkKeeps(m: Mem, m': Mem, p: nat, size: int, r: int)
    requires MemSafe(m) && Sized(m') && p < NR_TASKS && HeapOk(m.heapPtr[p]) && SizeOk(size)
    requires SbrkEffect(m, m', p, size, r)
    ensures MemSafe(m') && HeapOnly(m, m', p) && HeapOk(m'.heapPtr[p])
  {
    var frames := |AvailableSet(m.used)|;
    PointerStep(m.heapPtr[p], size, frames);
    if Fails(m.heapPtr[p], size, frames) {
      UntouchedKeeps(m, m', p);
    } else if size > 0 {
      var fs :| |fs| == PagesFor(size) && GrewBy(m, m', p, fs);
      GrewKeeps(m, m', p, fs);
    } else if size < 0 {
      ShrunkKeeps(m, m', p, Wrap32(m.heapPtr[p] + size));
    }
  }

  // ---- what a caller sees

  /**
    sbrk in plain numbers. A growing call that returns a pointer returns the old one, and the new one is
    the first page boundary at or above the bytes asked for; a shrinking call rounds down. 0 means that
    nothing moved: the target lies below the heap, the table ends too soon, or there are fewer frames
    than pages. A shrink past address 0 wraps around, returns the old pointer and does nothing.
   */
  lemma SbrkMeans(m: Mem, m': Mem, p: nat, size: int, r: int)
    requires Sized(m) && Sized(m') && p < NR_TASKS && HeapOk(m.heapPtr[p]) && SizeOk(size) && SbrkEffect(m, m', p, size, r)
    ensures var before, after, frames := m.heapPtr[p], m'.heapPtr[p], |AvailableSet(m.used)|;
            && (r == 0 || r == before) && (r == 0 ==> after == before && m'.used == m.used) && after % 4096 == 0
            && (size == 0 ==> r == before && m' == m)
            && (size > 0 && r != 0 ==> after - 4096 < before + size <= after <= 1024 * 4096)
            && (size > 0 ==> (r == 0 <==> !Fits(before + size, before, frames)))
            && (size < 0 ==> (r == 0 <==> 0 <= before + size < 0x130000) && m'.used == m.used)
            && (size < 0 && before + size >= 0x130000 ==> after <= before + size < after + 4096)
            && (size < 0 && before + size < 0 ==> m' == m)
  {
    if size < 0 {
      ShrinkTarget(m.heapPtr[p], size);
      if m.heapPtr[p] + size < 0 {
        NothingCleared(m.tables, m'.tables, m.dir[p], m.heapPtr[p] / PAGE_SIZE + 1);
        assert m'.heapPtr == m.heapPtr;
      }
    } else if size > 0 {
      GrowTarget(m.heapPtr[p], size, |AvailableSet(m.used)|);
    }
  }

  lemma NothingCleared(ts0: seq<seq<Entry>>, ts: seq<seq<Entry>>, d: nat, n: int)
    requires Cleared(ts0, ts, d, n, n)
    ensures ts == ts0
  {
    forall t | 0 <= t < NR_TASKS
      ensures ts[t] == ts0[t]
    {
      assert forall q :: 0 <= q < TOTAL_PAGES ==> ts[t][q] == ts0[t][q];
    }
  }

  /** The bytes up to `end` fit below the end of the table, and their pages can be had. */
  predicate Fits(end: int, from: int, frames: int) {
    end <= 1024 * 4096 && end - from <= frames * 4096
  }

  lemma GrowTarget(ptr: int, size: int, frames: nat)
    requires HeapOk(ptr) && 0 < size && SizeOk(size)
    ensures Wrap32(ptr + size) == ptr + size
    ensures var n := PagesFor(size); n * 4096 - 4096 < size <= n * 4096
    ensures (ptr / PAGE_SIZE + PagesFor(size) <= TOTAL_PAGES && PagesFor(size) <= frames) <==> Fits(ptr + size, ptr, frames)
  {
    assert ptr == ptr / PAGE_SIZE * PAGE_SIZE;
  }

  lemma ShrinkTarget(ptr: int, size: int)
    requires HeapOk(ptr) && size < 0 && SizeOk(size)
    ensures ptr + size >= 0 ==> Wrap32(ptr + size) == ptr + size
    ensures ptr + size < 0 ==> Wrap32(ptr + size) == ptr + size + TWO32
  {
  }
}
