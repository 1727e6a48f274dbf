/**
  The memory half of sys_fork: the allocation loop with its rollback, the copy through the window in
  the parent's table, and the heap loop. The parent's table is that of the caller's process; it is the
  child's own table when a thread of a process that has exited forks into that process's old slot.
 */
module Cloning {
  import opened Tasks
  import opened Copy
  import opened Paging
  import opened AddressSpace

  // ---- the allocation loop, on values

  /** Frames, the child's table and the number of data pages that could be mapped. */
  datatype Pages = Pages(used: seq<bool>, pt: seq<Entry>, n: nat)

  predicate PagesOk(x: Pages) {
    |x.used| == TOTAL_PAGES && |x.pt| == TOTAL_PAGES && x.n <= NUM_PAG_DATA
  }

  /** alloc_frame and set_ss_pag for page after page, until all are mapped or no frame is left. */
  function TakeData(x: Pages): (r: Pages)
    requires PagesOk(x)
    ensures PagesOk(r) && x.n <= r.n
    decreases NUM_PAG_DATA - x.n
  {
    if x.n == NUM_PAG_DATA then x
    else
      var f := FirstFree(x.used, NUM_PAG_KERNEL);
      if f == -1 then x else TakeData(Pages(x.used[f := true], x.pt[DataPage(x.n) := Mapped(f)], x.n + 1))
  }

  /** free_frame and del_ss_pag for the pages from i on. */
  function GiveBackData(x: Pages, i: nat): (r: Pages)
    requires PagesOk(x) && i <= x.n
    ensures PagesOk(r) && r.n == x.n
    decreases x.n - i
  {
    if i == x.n then x
    else GiveBackData(Pages(Freed(x.used, x.pt[DataPage(i)].frame), x.pt[DataPage(i) := EMPTY], x.n), i + 1)
  }

  /** The whole loop of sys_fork over the data pages; fewer than twenty pages means failure. */
  function AllocLoop(used: seq<bool>, pt: seq<Entry>): (r: Pages)
    requires |used| == TOTAL_PAGES && |pt| == TOTAL_PAGES
    ensures PagesOk(r)
  {
    var x := TakeData(Pages(used, pt, 0));
    if x.n == NUM_PAG_DATA then x else GiveBackData(x, 0)
  }

  /** One turn of the loop. */
  lemma TakeTurn(u0: seq<bool>, pt0: seq<Entry>, x: Pages, fs: seq<int>, f: nat)
    requires PagesOk(x) && x.n < NUM_PAG_DATA && Taken(u0, pt0, x, fs) && Available(x.used, f)
    ensures Taken(u0, pt0, Pages(x.used[f := true], x.pt[DataPage(x.n) := Mapped(f)], x.n + 1), fs + [f])
  {
    TakeOne(u0, x.used, fs, f);
    GrowMore(pt0, x.pt, DataPage(0), fs, f);
  }

  /** x.n pages are mapped to the fresh frames fs. */
  ghost predicate Taken(u0: seq<bool>, pt0: seq<Entry>, x: Pages, fs: seq<int>) {
    |fs| == x.n && Took(u0, x.used, fs) && Grown(pt0, x.pt, DataPage(0), fs)
  }

  lemma {:induction false} TakeMore(u0: seq<bool>, pt0: seq<Entry>, x: Pages, fs: seq<int>) returns (gs: seq<int>)
    requires PagesOk(x) && Taken(u0, pt0, x, fs)
    ensures Taken(u0, pt0, TakeData(x), gs)
    ensures TakeData(x).n < NUM_PAG_DATA ==> FirstFree(TakeData(x).used, NUM_PAG_KERNEL) == -1
    decreases NUM_PAG_DATA - x.n
  {
    gs := fs;
    if x.n < NUM_PAG_DATA {
      var f := FirstFree(x.used, NUM_PAG_KERNEL);
      if f != -1 {
        var x' := Pages(x.used[f := true], x.pt[DataPage(x.n) := Mapped(f)], x.n + 1);
        TakeTurn(u0, pt0, x, fs, f);
        gs := TakeMore(u0, pt0, x', fs + [f]);
        assert TakeData(x) == TakeData(x');
      }
    }
  }

  /** The frames taken are fresh and distinct, and they are all there were unless all twenty pages got one. */
  lemma TakeExact(used: seq<bool>, pt: seq<Entry>) returns (fs: seq<int>)
    requires |used| == TOTAL_PAGES && |pt| == TOTAL_PAGES
    ensures var x := TakeData(Pages(used, pt, 0));
            && Taken(used, pt, x, fs)
            && (if x.n == NUM_PAG_DATA then |AvailableSet(used)| >= NUM_PAG_DATA else |AvailableSet(used)| == x.n)
            && (x.n < NUM_PAG_DATA ==> forall f :: !Available(x.used, f))
  {
    fs := TakeMore(used, pt, Pages(used, pt, 0), []);
    TookAll(used, TakeData(Pages(used, pt, 0)).used, fs);
  }

  /** The frame map when the frames fs[..i] have been given back; free_frame never releases frame 256. */
  ghost predicate Returned(u0: seq<bool>, u: seq<bool>, fs: seq<int>, i: nat) {
    && |u0| == |u| == TOTAL_PAGES && i <= |fs|
    && forall f :: 0 <= f < TOTAL_PAGES ==> (u[f] <==> u0[f] || f in fs[i..] || (f == NUM_PAG_KERNEL && f in fs))
  }

  lemma ReturnNext(u0: seq<bool>, u1: seq<bool>, u: seq<bool>, fs: seq<int>, i: nat)
    requires Took(u0, u1, fs) && Returned(u0, u, fs, i) && i < |fs|
    ensures fs[i] >= 0 && Returned(u0, Freed(u, fs[i]), fs, i + 1)
  {
    assert Available(u0, fs[i]);
    assert fs[i..] == [fs[i]] + fs[i + 1..];
    assert fs[i] !in fs[i + 1..];
  }

  /** Where the rollback stands after i pages. */
  ghost predicate GaveBack(u0: seq<bool>, pt1: seq<Entry>, x: Pages, fs: seq<int>, i: nat) {
    PagesOk(x) && |fs| == x.n && i <= x.n && Returned(u0, x.used, fs, i) && Unmapped(pt1, pt1, x.pt, i)
  }

  lemma GiveNext(u0: seq<bool>, u1: seq<bool>, pt1: seq<Entry>, x: Pages, fs: seq<int>, i: nat)
    requires Took(u0, u1, fs) && GaveBack(u0, pt1, x, fs, i) && i < |fs|
    requires forall j :: 0 <= j < |fs| ==> fs[j] >= 0 && pt1[DataPage(j)] == Mapped(fs[j])
    ensures GaveBack(u0, pt1, Pages(Freed(x.used, x.pt[DataPage(i)].frame), x.pt[DataPage(i) := EMPTY], x.n), fs, i + 1)
  {
    assert pt1[DataPage(i)] == Mapped(fs[i]);
    ReturnNext(u0, u1, x.used, fs, i);
  }

  lemma {:induction false} GiveBackExact(u0: seq<bool>, u1: seq<bool>, pt1: seq<Entry>, x: Pages, fs: seq<int>, i: nat)
    requires Took(u0, u1, fs) && GaveBack(u0, pt1, x, fs, i)
    requires forall j :: 0 <= j < |fs| ==> fs[j] >= 0 && pt1[DataPage(j)] == Mapped(fs[j])
    ensures GaveBack(u0, pt1, GiveBackData(x, i), fs, x.n)
    decreases x.n - i
  {
    if i < x.n {
      GiveNext(u0, u1, pt1, x, fs, i);
      GiveBackExact(u0, u1, pt1, Pages(Freed(x.used, x.pt[DataPage(i)].frame), x.pt[DataPage(i) := EMPTY], x.n), fs, i + 1);
    }
  }

  /** Does the table have its first n data pages unmapped? */
  predicate FirstUnmapped(pt: seq<Entry>, n: int)
    requires |pt| == TOTAL_PAGES && n <= NUM_PAG_DATA
  {
    forall i :: 0 <= i < n ==> pt[DataPage(i)] == EMPTY
  }

  lemma TakesFirst(u0: seq<bool>, u: seq<bool>, fs: seq<int>)
    requires Took(u0, u, fs) && forall f :: !Available(u, f)
    ensures u0[NUM_PAG_KERNEL] || NUM_PAG_KERNEL in fs
  {
    assert !Available(u, NUM_PAG_KERNEL);
  }

  /** What a failed allocation leaves: its pages unmapped, and all frames given back except frame 256. */
  lemma FailureExact(used: seq<bool>, pt: seq<Entry>)
    requires |used| == TOTAL_PAGES && |pt| == TOTAL_PAGES && |AvailableSet(used)| < NUM_PAG_DATA
    ensures var r := AllocLoop(used, pt);
            && r.n == |AvailableSet(used)|
            && r.used == used[NUM_PAG_KERNEL := true]
            && Unmapped(pt, pt, r.pt, r.n)
  {
    var x := TakeData(Pages(used, pt, 0));
    var fs := TakeExact(used, pt);
    assert fs[0..] == fs;
    GiveBackExact(used, x.used, x.pt, x, fs, 0);
    var r := AllocLoop(used, pt);
    TakesFirst(used, x.used, fs);
    assert r.used == used[NUM_PAG_KERNEL := true];
  }

  /**
    When there are fewer than twenty frames, the rollback restores the frame map iff frame 256 was in
    use, and the table iff the pages it had tried were unmapped before.
   */
  lemma RollbackExact(used: seq<bool>, pt: seq<Entry>)
    requires |used| == TOTAL_PAGES && |pt| == TOTAL_PAGES && |AvailableSet(used)| < NUM_PAG_DATA
    ensures AllocLoop(used, pt).n < NUM_PAG_DATA
    ensures AllocLoop(used, pt).used == used <==> used[NUM_PAG_KERNEL]
    ensures AllocLoop(used, pt).pt == pt <==> FirstUnmapped(pt, |AvailableSet(used)|)
  {
    FailureExact(used, pt);
    var r := AllocLoop(used, pt);
    assert used[NUM_PAG_KERNEL := true][NUM_PAG_KERNEL];
    if r.pt == pt {
      forall i | 0 <= i < r.n
        ensures pt[DataPage(i)] == EMPTY
      {
        assert r.pt[DataPage(i)] == EMPTY;
      }
    } else if FirstUnmapped(pt, r.n) {
      forall q | 0 <= q < TOTAL_PAGES
        ensures r.pt[q] == pt[q]
      {
        assert DataPage(0) <= q < DataPage(r.n) ==> pt[DataPage(q - DataPage(0))] == EMPTY;
      }
    }
  }

  // ---- what a fork does to memory

  /** The slot's struct is copied and gets its own directory. */
  function CopiedStruct(m: Mem, p: nat, c: nat): Mem
    requires Sized(m) && p < NR_TASKS && c < NR_TASKS
  {
    m.(dir := m.dir[c := c], heapStart := m.heapStart[c := m.heapStart[p]], heapPtr := m.heapPtr[c := m.heapPtr[p]])
  }

  /** A fork that runs out of frames, as the loops leave it. */
  function FailedFork(m: Mem, p: nat, c: nat): Mem
    requires Sized(m) && p < NR_TASKS && c < NR_TASKS
  {
    var a := AllocLoop(m.used, m.tables[c]);
    CopiedStruct(m, p, c).(used := a.used, tables := m.tables[c := a.pt])
  }

  predicate DataPresent(pt: seq<Entry>)
    requires |pt| == TOTAL_PAGES
  {
    forall i :: 0 <= i < NUM_PAG_DATA ==> pt[DataPage(i)].present
  }

  predicate InRam(fs: seq<int>) {
    forall j :: 0 <= j < |fs| ==> 0 <= fs[j] < TOTAL_PAGES
  }

  /** The first n destination frames hold the old source frames; all other frames are unchanged. */
  ghost predicate FramesCopied(ram0: seq<byte>, ram: seq<byte>, src: seq<int>, dst: seq<int>, n: nat) {
    && |ram0| == |ram| == RAM_SIZE && n <= |src| == |dst|
    && InRam(src) && InRam(dst)
    && (forall j :: 0 <= j < n ==> Frame(ram, dst[j]) == Frame(ram0, src[j]))
    && (forall f :: 0 <= f < TOTAL_PAGES && f !in dst[..n] ==> Frame(ram, f) == Frame(ram0, f))
  }

  /** A copied page changes its frame and no other. */
  lemma CopyFrame(m0: seq<byte>, m: seq<byte>, src: nat, dst: nat)
    requires |m0| == RAM_SIZE && src < TOTAL_PAGES && dst < TOTAL_PAGES
    requires Copied(m0, m, src * PAGE_SIZE, dst * PAGE_SIZE, PAGE_SIZE)
    ensures Frame(m, dst) == Frame(m0, src)
    ensures forall f :: 0 <= f < TOTAL_PAGES && f != dst ==> Frame(m, f) == Frame(m0, f)
  {
    forall f | 0 <= f < TOTAL_PAGES && f != dst
      ensures Frame(m, f) == Frame(m0, f)
    {
      assert f < dst ==> (f + 1) * PAGE_SIZE <= dst * PAGE_SIZE;
      assert f > dst ==> (dst + 1) * PAGE_SIZE <= f * PAGE_SIZE;
    }
  }

  /** No source frame is overwritten before it is read. */
  predicate ReadFirst(src: seq<int>, dst: seq<int>) {
    NoRepeat(dst) && forall i, j :: 0 <= i < |src| && 0 <= j < |dst| && src[i] == dst[j] ==> i == j
  }

  lemma CopyNext(ram0: seq<byte>, ram: seq<byte>, ram': seq<byte>, src: seq<int>, dst: seq<int>, n: nat)
    requires FramesCopied(ram0, ram, src, dst, n) && n < |src| && ReadFirst(src, dst)
    requires Copied(ram, ram', src[n] * PAGE_SIZE, dst[n] * PAGE_SIZE, PAGE_SIZE)
    ensures FramesCopied(ram0, ram', src, dst, n + 1)
  {
    CopyFrame(ram, ram', src[n], dst[n]);
    assert dst[..n + 1] == dst[..n] + [dst[n]];
    assert src[n] !in dst[..n];
    forall j | 0 <= j < n
      ensures Frame(ram', dst[j]) == Frame(ram0, src[j])
    {
      assert dst[j] != dst[n];
    }
  }

  /**
    Is f the frame of a page between the heap's start and the caller's heap pointer? The entry of a heap
    page that is not mapped gives frame 0, so then physical frame 0 counts too.
   */
  ghost predicate HeapFrame(m: Mem, p: nat, f: int)
    requires Sized(m) && p < NR_TASKS
  {
    exists q :: && 0 <= q < TOTAL_PAGES && m.heapStart[p] / PAGE_SIZE <= q < m.heapPtr[p] / PAGE_SIZE
                && PageFrame(m, m.dir[p], q) == f
  }

  /** Frames and tables of a clone: fresh data frames, shared kernel and code frames, nothing else changed. */
  ghost predicate ClonedTables(m: Mem, m': Mem, d: nat, c: nat)
    requires Sized(m) && Sized(m') && d < NR_TASKS && c < NR_TASKS
  {
    var fs := DataFrames(m'.tables[c]);
    && Took(m.used, m'.used, fs)
    && (forall i :: 0 <= i < NUM_PAG_DATA ==> m'.tables[c][DataPage(i)] == Mapped(fs[i]))
    && (forall q :: 0 <= q < PAG_LOG_INIT_DATA ==> m'.tables[c][q] == Mapped(m.tables[d][q].frame))
    && (forall q :: DataPage(NUM_PAG_DATA) <= q < TOTAL_PAGES ==> m'.tables[c][q] == m.tables[c][q])
    && (forall t :: 0 <= t < NR_TASKS && t != c ==> m'.tables[t] == m.tables[t])
  }

  /** Only frames of the caller's heap differ, and frame 0 if a page of that heap is not mapped. */
  ghost predicate HeapOnlyChanged(m: Mem, ram: seq<byte>, p: nat)
    requires Sized(m) && p < NR_TASKS
  {
    |ram| == RAM_SIZE && forall f :: 0 <= f < TOTAL_PAGES && !HeapFrame(m, p, f) ==> Frame(ram, f) == Frame(m.ram, f)
  }

  /**
    The pages of slot c have become a clone of those of the caller's process: fresh frames with the
    same bytes. In the caller's own table there is nothing to copy from, and heap frames (or frame 0,
    for a heap page that is not mapped) are overwritten.
   */
  ghost predicate ClonedPages(m: Mem, m': Mem, p: nat, c: nat)
    requires Sized(m) && Sized(m') && p < NR_TASKS && c < NR_TASKS
  {
    var d := m.dir[p];
    && ClonedTables(m, m', d, c)
    && (d != c ==> FramesCopied(m.ram, m'.ram, DataFrames(m.tables[d]), DataFrames(m'.tables[c]), NUM_PAG_DATA))
    && (d == c ==> HeapOnlyChanged(m, m'.ram, p))
    && m' == m.(used := m'.used, tables := m'.tables, ram := m'.ram)
  }

  /** Slot c has become a clone of the caller's process, struct and pages. */
  ghost predicate CloneOf(m: Mem, m': Mem, p: nat, c: nat)
    requires Sized(m) && Sized(m') && p < NR_TASKS && c < NR_TASKS
  {
    ClonedPages(CopiedStruct(m, p, c), m', p, c)
  }

  /** What the fork loops rely on: memory in order and a proper heap of the caller. */
  ghost predicate CallerOk(m: Mem, p: nat) {
    MemSafe(m) && p < NR_TASKS && m.heapStart[p] == INIT_HEAP && HeapOk(m.heapPtr[p])
  }

  datatype ForkOutcome = Cloned | NoFrames | PageFault

  /**
    Does a fork with enough frames touch an unmapped page? The copy loop reads the caller's data pages,
    and the heap loop writes to a window page that it has mapped in the child's table only.
   */
  predicate ForkFaults(m: Mem, p: nat, c: nat)
    requires Sized(m) && p < NR_TASKS && c < NR_TASKS
  {
    m.dir[p] != c && (!DataPresent(m.tables[m.dir[p]]) || m.heapStart[p] < m.heapPtr[p])
  }

  /** How the memory half of a fork ends. */
  function ForkOutcomeOf(m: Mem, p: nat, c: nat): ForkOutcome
    requires Sized(m) && p < NR_TASKS && c < NR_TASKS
  {
    if AllocLoop(m.used, m.tables[c]).n < NUM_PAG_DATA then NoFrames
    else if ForkFaults(m, p, c) then PageFault
    else Cloned
  }

  // ---- the loops themselves

  /** The rollback loop. */
  method GiveBack(mem: Memory, c: nat, pag: nat)
    requires mem.Valid() && c < NR_TASKS && pag <= NUM_PAG_DATA
    modifies mem.physMem, mem.tables[c]
    ensures var r := GiveBackData(Pages(old(mem.physMem[..]), old(mem.tables[c][..]), pag), 0);
            mem.physMem[..] == r.used && mem.tables[c][..] == r.pt
  {
    ghost var x := Pages(mem.physMem[..], mem.tables[c][..], pag);
    for i := 0 to pag
      invariant GiveBackData(Pages(mem.physMem[..], mem.tables[c][..], pag), i) == GiveBackData(x, 0)
    {
      var f := GetFrame(mem.tables[c], DataPage(i));
      FreeFrame(mem.physMem, f);
      DelSsPag(mem.tables[c], DataPage(i));
    }
  }

  /** The allocation loop of sys_fork. */
  method AllocData(mem: Memory, c: nat) returns (ok: bool)
    requires mem.Valid() && c < NR_TASKS
    modifies mem.physMem, mem.tables[c]
    ensures var r := AllocLoop(old(mem.physMem[..]), old(mem.tables[c][..]));
            mem.physMem[..] == r.used && mem.tables[c][..] == r.pt && (ok <==> r.n == NUM_PAG_DATA)
  {
    ghost var x := Pages(mem.physMem[..], mem.tables[c][..], 0);
    for pag := 0 to NUM_PAG_DATA
      invariant TakeData(Pages(mem.physMem[..], mem.tables[c][..], pag)) == TakeData(x)
    {
      var f := AllocFrame(mem.physMem);
      if f != -1 {
        SetSsPag(mem.tables[c], DataPage(pag), f);
      } else {
        GiveBack(mem, c, pag);
        return false;
      }
    }
    ok := true;
  }

  /** set_ss_pag(child, page, get_frame(parent, page)) for n pages. */
  method ShareRange(mem: Memory, d: nat, c: nat, from: nat, n: nat)
    requires mem.Valid() && d < NR_TASKS && c < NR_TASKS && from + n <= TOTAL_PAGES
    modifies mem.tables[c]
    ensures forall q :: 0 <= q < TOTAL_PAGES ==>
              mem.tables[c][q] == if from <= q < from + n then Mapped(old(mem.tables[d][q].frame)) else old(mem.tables[c][q])
  {
    for pag := 0 to n
      invariant forall q :: 0 <= q < TOTAL_PAGES ==>
                  mem.tables[c][q] ==
                  if from <= q < from + pag then Mapped(old(mem.tables[d][q].frame)) else old(mem.tables[c][q])
      invariant d != c ==> mem.tables[d][..] == old(mem.tables[d][..])
    {
      var f := GetFrame(mem.tables[d], from + pag);
      SetSsPag(mem.tables[c], from + pag, f);
    }
  }

  /** copy_data of one page between two pages of table d; a page fault if one of them is not mapped. */
  method CopyPage(mem: Memory, d: nat, from: nat, to: nat) returns (fault: bool)
    requires mem.Valid() && d < NR_TASKS && from < TOTAL_PAGES && to < TOTAL_PAGES
    modifies mem.ram
    ensures fault <==> !Accessible(mem.tables[d][..], from * PAGE_SIZE) || !Accessible(mem.tables[d][..], to * PAGE_SIZE)
    ensures !fault ==> Copied(old(mem.ram[..]), mem.ram[..],
                              mem.tables[d][from].frame * PAGE_SIZE, mem.tables[d][to].frame * PAGE_SIZE, PAGE_SIZE)
  {
    if !Accessible(mem.tables[d][..], from * PAGE_SIZE) || !Accessible(mem.tables[d][..], to * PAGE_SIZE) {
      return true;
    }
    var source := Translate(mem.tables[d][..], from * PAGE_SIZE);
    var target := Translate(mem.tables[d][..], to * PAGE_SIZE);
    CopyData(mem.ram, source, target, PAGE_SIZE);
    fault := false;
  }

  /** One turn of the copy loop: the child's page is mapped into the window of table d, copied and unmapped. */
  method CopyThroughWindow(mem: Memory, d: nat, c: nat, pag: nat) returns (fault: bool)
    requires mem.Valid() && d < NR_TASKS && c < NR_TASKS && DataPage(0) <= pag < DataPage(NUM_PAG_DATA)
    requires mem.tables[c][pag].frame < TOTAL_PAGES && mem.tables[d][pag].frame < TOTAL_PAGES
    requires mem.tables[d][pag + NUM_PAG_DATA] == EMPTY
    modifies mem.tables[d], mem.ram
    ensures fault <==> !old(mem.tables[d][pag].present)
    ensures !fault ==> mem.tables[d][..] == old(mem.tables[d][..])
    ensures !fault ==> Copied(old(mem.ram[..]), mem.ram[..],
                              mem.tables[d][pag].frame * PAGE_SIZE, mem.tables[c][pag].frame * PAGE_SIZE, PAGE_SIZE)
  {
    var window := pag + NUM_PAG_DATA;
    var f := GetFrame(mem.tables[c], pag);
    SetSsPag(mem.tables[d], window, f);
    fault := CopyPage(mem, d, pag, window);
    if !fault {
      DelSsPag(mem.tables[d], window);
    }
  }

  /** The copy loop of sys_fork. */
  method CloneData(mem: Memory, d: nat, c: nat) returns (fault: bool)
    requires mem.Valid() && d < NR_TASKS && c < NR_TASKS
    requires forall i :: 0 <= i < NUM_PAG_DATA ==> mem.tables[d][DataPage(i) + NUM_PAG_DATA] == EMPTY
    requires InRam(DataFrames(mem.tables[d][..])) && InRam(DataFrames(mem.tables[c][..]))
    requires ReadFirst(DataFrames(mem.tables[d][..]), DataFrames(mem.tables[c][..]))
    modifies mem.tables[d], mem.ram
    ensures fault <==> !DataPresent(old(mem.tables[d][..]))
    ensures !fault ==> mem.tables[d][..] == old(mem.tables[d][..])
    ensures !fault ==> FramesCopied(old(mem.ram[..]), mem.ram[..],
                                    DataFrames(mem.tables[d][..]), DataFrames(mem.tables[c][..]), NUM_PAG_DATA)
  {
    ghost var src, dst := DataFrames(mem.tables[d][..]), DataFrames(mem.tables[c][..]);
    for i := 0 to NUM_PAG_DATA
      invariant mem.tables[d][..] == old(mem.tables[d][..]) && mem.tables[c][..] == old(mem.tables[c][..])
      invariant forall j :: 0 <= j < i ==> mem.tables[d][DataPage(j)].present
      invariant FramesCopied(old(mem.ram[..]), mem.ram[..], src, dst, i)
    {
      ghost var before := mem.ram[..];
      assert 0 <= src[i] < TOTAL_PAGES && 0 <= dst[i] < TOTAL_PAGES;
      fault := CopyThroughWindow(mem, d, c, DataPage(i));
      if fault {
        return;
      }
      CopyNext(old(mem.ram[..]), before, mem.ram[..], src, dst, i);
    }
    fault := false;
  }

  /** Only frames of the pages lo to hi of the table may have changed. */
  ghost predicate OnlyFramesOf(ram0: seq<byte>, ram: seq<byte>, pt: seq<Entry>, lo: int, hi: int) {
    && |ram0| == |ram| == RAM_SIZE && |pt| == TOTAL_PAGES && 0 <= lo <= hi <= TOTAL_PAGES
    && forall f :: 0 <= f < TOTAL_PAGES && (forall q :: lo <= q < hi ==> pt[q].frame != f) ==> Frame(ram, f) == Frame(ram0, f)
  }

  /**
    One turn of the heap loop: the frame of a heap page of table d is mapped into the window of the
    child's table, and data page i is copied to the window of table d.
   */
  method HeapTurn(mem: Memory, d: nat, c: nat, i: nat, page: nat) returns (fault: bool)
    requires mem.Valid() && d < NR_TASKS && c < NR_TASKS && DataPage(0) <= i < DataPage(NUM_PAG_DATA)
    requires FIRST_HEAP_PAGE <= page < TOTAL_PAGES && mem.tables[d][page].frame < TOTAL_PAGES
    requires mem.tables[d][i].present && mem.tables[d][i].frame < TOTAL_PAGES && mem.tables[d][i + NUM_PAG_DATA] == EMPTY
    modifies mem.tables[c], mem.tables[d], mem.ram
    ensures fault <==> d != c
    ensures !fault ==> mem.tables[d][..] == old(mem.tables[d][..])
    ensures !fault ==> OnlyFramesOf(old(mem.ram[..]), mem.ram[..], mem.tables[d][..], page, page + 1)
  {
    var window := i + NUM_PAG_DATA;
    var f := GetFrame(mem.tables[d], page);
    SetSsPag(mem.tables[c], window, f);
    ghost var source := mem.tables[d][i].frame;
    fault := CopyPage(mem, d, i, window);
    if !fault {
      CopyFrame(old(mem.ram[..]), mem.ram[..], source, f);
      DelSsPag(mem.tables[d], window);
    }
  }

  lemma OnlyMore(ram0: seq<byte>, ram: seq<byte>, ram': seq<byte>, pt: seq<Entry>, lo: int, hi: int)
    requires OnlyFramesOf(ram0, ram, pt, lo, hi) && hi < TOTAL_PAGES && OnlyFramesOf(ram, ram', pt, hi, hi + 1)
    ensures OnlyFramesOf(ram0, ram', pt, lo, hi + 1)
  {
    forall f | 0 <= f < TOTAL_PAGES && (forall q :: lo <= q < hi + 1 ==> pt[q].frame != f)
      ensures Frame(ram', f) == Frame(ram0, f)
    {
      assert pt[hi].frame != f;
    }
  }

  /** The heap loop of sys_fork. With two tables it faults on the first page of a heap. */
  method CopyHeap(mem: Memory, p: nat, d: nat, c: nat) returns (fault: bool)
    requires mem.Valid() && p < NR_TASKS && d < NR_TASKS && c < NR_TASKS
    requires mem.heapStart[p] == INIT_HEAP && HeapOk(mem.heapPtr[p])
    requires DataPresent(mem.tables[d][..])
    requires forall q :: PAG_LOG_INIT_DATA <= q < TOTAL_PAGES ==> mem.tables[d][q].frame < TOTAL_PAGES
    requires forall q :: DataPage(NUM_PAG_DATA) <= q < FIRST_HEAP_PAGE ==> mem.tables[d][q] == EMPTY
    modifies mem.tables[c], mem.tables[d], mem.ram
    ensures fault <==> d != c && mem.heapStart[p] < mem.heapPtr[p]
    ensures !fault ==> mem.tables[d][..] == old(mem.tables[d][..]) && mem.tables[c][..] == old(mem.tables[c][..])
    ensures !fault && d != c ==> mem.ram[..] == old(mem.ram[..])
    ensures !fault ==> OnlyFramesOf(old(mem.ram[..]), mem.ram[..], mem.tables[d][..], FIRST_HEAP_PAGE, mem.heapPtr[p] / PAGE_SIZE)
  {
    var ptr := mem.heapStart[p];
    ghost var hi := FIRST_HEAP_PAGE;
    while ptr < mem.heapPtr[p]
      invariant ptr == hi * PAGE_SIZE && INIT_HEAP <= ptr <= mem.heapPtr[p]
      invariant d != c ==> hi == FIRST_HEAP_PAGE && mem.ram[..] == old(mem.ram[..])
      invariant mem.tables[d][..] == old(mem.tables[d][..]) && mem.tables[c][..] == old(mem.tables[c][..])
      invariant OnlyFramesOf(old(mem.ram[..]), mem.ram[..], mem.tables[d][..], FIRST_HEAP_PAGE, hi)
      decreases mem.heapPtr[p] - ptr
    {
      var i := DataPage(0);
      ghost var start := ptr;
      while i < DataPage(NUM_PAG_DATA) && ptr < mem.heapPtr[p]
        invariant DataPage(0) <= i <= DataPage(NUM_PAG_DATA) && ptr == start + (i - DataPage(0)) * PAGE_SIZE
        invariant ptr == hi * PAGE_SIZE && INIT_HEAP <= ptr <= mem.heapPtr[p]
        invariant d != c ==> hi == FIRST_HEAP_PAGE && mem.ram[..] == old(mem.ram[..])
        invariant mem.tables[d][..] == old(mem.tables[d][..]) && mem.tables[c][..] == old(mem.tables[c][..])
        invariant OnlyFramesOf(old(mem.ram[..]), mem.ram[..], mem.tables[d][..], FIRST_HEAP_PAGE, hi)
        decreases mem.heapPtr[p] - ptr
      {
        ghost var before := mem.ram[..];
        assert mem.tables[d][DataPage(i - DataPage(0))].present;
        fault := HeapTurn(mem, d, c, i, ptr / PAGE_SIZE);
        if fault {
          return;
        }
        OnlyMore(old(mem.ram[..]), before, mem.ram[..], mem.tables[d][..], FIRST_HEAP_PAGE, hi);
        i, ptr, hi := i + 1, ptr + PAGE_SIZE, hi + 1;
      }
    }
    fault := false;
  }

  // ---- the memory half of sys_fork

  /** The frames the copy loop reads, seen from the memory m before the allocation of fs. */
  ghost function Sources(m: Mem, d: nat, c: nat, fs: seq<int>): seq<int>
    requires Sized(m) && d < NR_TASKS
  {
    if d == c then fs else DataFrames(m.tables[d])
  }

  /** The caller's frames are in use, so none of them was handed out. */
  lemma SourcesApart(m: Mem, d: nat, c: nat, fs: seq<int>, used: seq<bool>)
    requires MemSafe(m) && d < NR_TASKS && |fs| == NUM_PAG_DATA && Took(m.used, used, fs)
    ensures InRam(fs) && InRam(Sources(m, d, c, fs)) && ReadFirst(Sources(m, d, c, fs), fs)
  {
    var src := Sources(m, d, c, fs);
    if d != c {
      forall i | 0 <= i < NUM_PAG_DATA
        ensures 0 <= src[i] < TOTAL_PAGES && (src[i] == 0 || m.used[src[i]])
      {
        assert EntryOk(m, d, DataPage(i));
      }
    }
  }

  /** Memory right after the allocation loop has succeeded. */
  ghost predicate Allocated(m: Mem, m': Mem, c: nat, fs: seq<int>)
    requires Sized(m) && Sized(m') && c < NR_TASKS
  {
    && |fs| == NUM_PAG_DATA && Took(m.used, m'.used, fs) && Grown(m.tables[c], m'.tables[c], DataPage(0), fs)
    && m' == m.(used := m'.used, tables := m.tables[c := m'.tables[c]])
  }

  /** ... and when the kernel and code pages have been shared as well. */
  ghost predicate Shared(m: Mem, m': Mem, d: nat, c: nat, fs: seq<int>)
    requires Sized(m) && Sized(m') && d < NR_TASKS && c < NR_TASKS
  {
    && |fs| == NUM_PAG_DATA && Took(m.used, m'.used, fs)
    && DataFrames(m'.tables[c]) == fs && ClonedTables(m, m', d, c)
    && m' == m.(used := m'.used, tables := m'.tables)
  }

  /** The two loops that share kernel and code pages. */
  method ShareLow(mem: Memory, d: nat, c: nat, ghost m: Mem, ghost fs: seq<int>)
    requires mem.Valid() && d < NR_TASKS && c < NR_TASKS && Sized(m) && Allocated(m, mem.Snap(), c, fs)
    modifies mem.tables[c]
    ensures Shared(m, mem.Snap(), d, c, fs)
  {
    ShareRange(mem, d, c, 0, NUM_PAG_KERNEL);
    ShareRange(mem, d, c, PAG_LOG_INIT_CODE, NUM_PAG_CODE);
    assert DataFrames(mem.Snap().tables[c]) == fs;
  }

  lemma SharedReady(m: Mem, m': Mem, d: nat, c: nat, fs: seq<int>)
    requires MemSafe(m) && Sized(m') && d < NR_TASKS && c < NR_TASKS && Shared(m, m', d, c, fs)
    ensures DataFrames(m'.tables[d]) == Sources(m, d, c, fs)
    ensures DataPresent(m'.tables[d]) <==> d == c || DataPresent(m.tables[d])
    ensures forall q :: PAG_LOG_INIT_DATA <= q < TOTAL_PAGES ==> m'.tables[d][q].frame < TOTAL_PAGES
    ensures forall q :: DataPage(NUM_PAG_DATA) <= q < FIRST_HEAP_PAGE ==> m'.tables[d][q] == EMPTY
    ensures InRam(fs) && InRam(Sources(m, d, c, fs)) && ReadFirst(Sources(m, d, c, fs), fs)
  {
    SourcesApart(m, d, c, fs, m'.used);
    forall q | PAG_LOG_INIT_DATA <= q < TOTAL_PAGES
      ensures m'.tables[d][q].frame < TOTAL_PAGES
    {
      assert EntryOk(m, d, q);
      if d == c && q < DataPage(NUM_PAG_DATA) {
        assert m'.tables[c][DataPage(q - DataPage(0))] == Mapped(fs[q - DataPage(0)]);
      }
    }
  }

  /** The copy loop and the heap loop of sys_fork. */
  method CopyPages(mem: Memory, p: nat, d: nat, c: nat, ghost m: Mem, ghost fs: seq<int>) returns (fault: bool)
    requires mem.Valid() && p < NR_TASKS && c < NR_TASKS && CallerOk(m, p) && d == m.dir[p]
    requires Shared(m, mem.Snap(), d, c, fs)
    modifies mem.tables[d], mem.tables[c], mem.ram
    ensures fault <==> ForkFaults(m, p, c)
    ensures !fault ==> mem.Snap() == old(mem.Snap()).(ram := mem.ram[..])
    ensures !fault && d != c ==> FramesCopied(m.ram, mem.ram[..], DataFrames(m.tables[d]), fs, NUM_PAG_DATA)
    ensures !fault && d == c ==> HeapOnlyChanged(m, mem.ram[..], p)
  {
    ghost var m1 := mem.Snap();
    SharedReady(m, m1, d, c, fs);
    fault := CloneData(mem, d, c);
    if fault {
      return;
    }
    ghost var ram1 := mem.ram[..];
    fault := CopyHeap(mem, p, d, c);
    if !fault {
      assert mem.Snap().tables == m1.tables;
      if d == c {
        OwnTableRam(m, m1.tables[c], ram1, mem.ram[..], p, fs);
      }
    }
  }

  /** Copying the fresh pages to themselves changes nothing, so what changed is what the heap loop wrote. */
  lemma OwnTableRam(m: Mem, pt: seq<Entry>, ram1: seq<byte>, ram: seq<byte>, p: nat, fs: seq<int>)
    requires CallerOk(m, p) && |pt| == TOTAL_PAGES
    requires forall q :: FIRST_HEAP_PAGE <= q < TOTAL_PAGES ==> pt[q] == m.tables[m.dir[p]][q]
    requires FramesCopied(m.ram, ram1, fs, fs, |fs|)
    requires OnlyFramesOf(ram1, ram, pt, FIRST_HEAP_PAGE, m.heapPtr[p] / PAGE_SIZE)
    ensures HeapOnlyChanged(m, ram, p)
  {
    forall f | 0 <= f < TOTAL_PAGES && !HeapFrame(m, p, f)
      ensures Frame(ram, f) == Frame(m.ram, f)
    {
      forall q | FIRST_HEAP_PAGE <= q < m.heapPtr[p] / PAGE_SIZE
        ensures pt[q].frame != f
      {
        assert PageFrame(m, m.dir[p], q) == pt[q].frame;
      }
      assert fs[..|fs|] == fs;
      if f in fs {
        var j :| 0 <= j < |fs| && fs[j] == f;
        assert Frame(ram1, fs[j]) == Frame(m.ram, fs[j]);
      }
    }
  }

  /** The fields that copy_data and allocate_DIR give the child. */
  method CopyStruct(mem: Memory, p: nat, c: nat)
    requires mem.Valid() && p < NR_TASKS && c < NR_TASKS
    modifies mem.dir, mem.heapStart, mem.heapPtr
    ensures mem.Valid() && mem.Snap() == CopiedStruct(old(mem.Snap()), p, c)
  {
    mem.dir[c] := mem.dir[p];
    mem.heapStart[c] := mem.heapStart[p];
    mem.heapPtr[c] := mem.heapPtr[p];
    mem.dir[c] := c;
  }

  /** AllocData on the whole memory. */
  method AllocChild(mem: Memory, c: nat) returns (ok: bool, ghost fs: seq<int>)
    requires mem.Valid() && c < NR_TASKS
    modifies mem.physMem, mem.tables[c]
    ensures var m := old(mem.Snap());
            var a := AllocLoop(m.used, m.tables[c]);
            && mem.Snap() == m.(used := a.used, tables := m.tables[c := a.pt])
            && (ok <==> a.n == NUM_PAG_DATA)
            && (ok ==> Allocated(m, mem.Snap(), c, fs))
  {
    ghost var m := mem.Snap();
    fs := TakeExact(m.used, m.tables[c]);
    ok := AllocData(mem, c);
    assert mem.Snap().tables == m.tables[c := mem.tables[c][..]];
  }

  /** The pages of sys_fork, with the child's struct already copied. */
  method ForkPages(mem: Memory, p: nat, c: nat) returns (r: ForkOutcome)
    requires mem.Valid() && p < NR_TASKS && c < NR_TASKS && CallerOk(mem.Snap(), p)
    modifies mem.physMem, mem.tables, mem.ram
    ensures var m := old(mem.Snap());
            var a := AllocLoop(m.used, m.tables[c]);
            && r == (if a.n < NUM_PAG_DATA then NoFrames else if ForkFaults(m, p, c) then PageFault else Cloned)
            && (r.NoFrames? ==> mem.Snap() == m.(used := a.used, tables := m.tables[c := a.pt]))
            && (r.Cloned? ==> ClonedPages(m, mem.Snap(), p, c))
  {
    ghost var m := mem.Snap();
    var ok, fs := AllocChild(mem, c);
    if !ok {
      return NoFrames;
    }
    ShareLow(mem, mem.dir[p], c, m, fs);
    var fault := CopyPages(mem, p, mem.dir[p], c, m, fs);
    r := if fault then PageFault else Cloned;
  }

  /** The memory half of sys_fork. */
  method ForkSpace(mem: Memory, p: nat, c: nat) returns (r: ForkOutcome)
    requires mem.Valid() && p < NR_TASKS && c < NR_TASKS && p != c && CallerOk(mem.Snap(), p)
    modifies mem.physMem, mem.tables, mem.ram, mem.dir, mem.heapStart, mem.heapPtr
    ensures mem.Valid()
    ensures var m := old(mem.Snap());
            && r == ForkOutcomeOf(m, p, c)
            && (r.NoFrames? ==> mem.Snap() == FailedFork(m, p, c))
            && (r.Cloned? ==> CloneOf(m, mem.Snap(), p, c))
  {
    ghost var m := mem.Snap();
    CopyStruct(mem, p, c);
    StructKeeps(m, p, c);
    r := ForkPages(mem, p, c);
  }

  lemma StructKeeps(m: Mem, p: nat, c: nat)
    requires CallerOk(m, p) && c < NR_TASKS && p != c
    ensures CallerOk(CopiedStruct(m, p, c), p)
    ensures ForkFaults(CopiedStruct(m, p, c), p, c) == ForkFaults(m, p, c)
  {
    var m' := CopiedStruct(m, p, c);
    assert forall t, q :: 0 <= t < NR_TASKS && 0 <= q < TOTAL_PAGES ==> PageFrame(m', t, q) == PageFrame(m, t, q);
    forall t, q | 0 <= t < NR_TASKS && PAG_LOG_INIT_DATA <= q < TOTAL_PAGES
      ensures EntryOk(m', t, q)
    {
      assert EntryOk(m, t, q);
    }
  }

  // ---- what it keeps

  lemma EnoughFrames(used: seq<bool>, pt: seq<Entry>)
    requires |used| == TOTAL_PAGES && |pt| == TOTAL_PAGES
    ensures AllocLoop(used, pt).n == NUM_PAG_DATA <==> |AvailableSet(used)| >= NUM_PAG_DATA
  {
    var fs := TakeExact(used, pt);
  }

  /** A clone keeps memory in order: its frames are backing nothing else. */
  lemma CloneKeepsSafe(m: Mem, m': Mem, p: nat, c: nat)
    requires MemSafe(m) && Sized(m') && p < NR_TASKS && c < NR_TASKS && p != c && CloneOf(m, m', p, c)
    ensures MemSafe(m')
  {
    var fs := DataFrames(m'.tables[c]);
    forall q | PAG_LOG_INIT_DATA <= q < TOTAL_PAGES && !(DataPage(0) <= q < DataPage(0) + |fs|)
      ensures m'.tables[c][q] == m.tables[c][q]
    {
    }
    MapKeepsSafe(m, m', c, DataPage(0), fs);
  }

  /** Whatever the slot's table held, a failed fork gives all frames back and maps nothing. */
  lemma FailureKeepsSafe(m: Mem, p: nat, c: nat)
    requires MemSafe(m) && p < NR_TASKS && c < NR_TASKS && |AvailableSet(m.used)| < NUM_PAG_DATA
    ensures FailedFork(m, p, c).used == m.used && FailedFork(m, p, c).ram == m.ram
    ensures MemSafe(FailedFork(m, p, c))
  {
    FailureExact(m.used, m.tables[c]);
    var m' := FailedFork(m, p, c);
    assert m'.used == m.used;
    forall t, q | 0 <= t < NR_TASKS && PAG_LOG_INIT_DATA <= q < TOTAL_PAGES
      ensures m'.tables[t][q] == EMPTY || (m'.tables[t][q] == m.tables[t][q] && EntryOk(m', t, q))
    {
      assert EntryOk(m, t, q);
    }
    ClearKeepsSafe(m, m');
  }
}
