/** Page tables and physical memory: what they hold, what keeps them in order, start-up and sys_exit. */
module AddressSpace {
  import opened Tasks
  import opened Copy
  import opened Paging

  const RAM_SIZE := TOTAL_PAGES * PAGE_SIZE

  /** Everything the memory system holds, as a value. */
  datatype Mem = Mem(
    used: seq<bool>,
    tables: seq<seq<Entry>>,
    ram: seq<byte>,
    dir: seq<nat>,
    heapStart: seq<int>,
    heapPtr: seq<int>)

  predicate Tables(ts: seq<seq<Entry>>) {
    |ts| == NR_TASKS && forall t :: 0 <= t < NR_TASKS ==> |ts[t]| == TOTAL_PAGES
  }

  predicate Sized(m: Mem) {
    && |m.used| == TOTAL_PAGES
    && Tables(m.tables)
    && |m.ram| == RAM_SIZE
    && |m.dir| == NR_TASKS && |m.heapStart| == NR_TASKS && |m.heapPtr| == NR_TASKS
    && (forall t :: 0 <= t < NR_TASKS ==> m.dir[t] < NR_TASKS)
  }

  /** The contents of one frame. */
  function Frame(ram: seq<byte>, f: nat): (r: seq<byte>)
    requires |ram| == RAM_SIZE && f < TOTAL_PAGES
    ensures |r| == PAGE_SIZE
  {
    ram[f * PAGE_SIZE..(f + 1) * PAGE_SIZE]
  }

  function DataPage(i: int): int {
    PAG_LOG_INIT_DATA + i
  }

  function CodePage(i: int): int {
    PAG_LOG_INIT_CODE + i
  }

  /** The frames behind the data pages of a table. */
  function DataFrames(pt: seq<Entry>): (fs: seq<int>)
    requires |pt| == TOTAL_PAGES
    ensures |fs| == NUM_PAG_DATA && forall i :: 0 <= i < NUM_PAG_DATA ==> fs[i] == pt[DataPage(i)].frame
  {
    seq(NUM_PAG_DATA, i requires 0 <= i < NUM_PAG_DATA => pt[DataPage(i)].frame)
  }

  // ---- page-table entries, seen from C

  /**
    PT[page] for page <= 1024. The ten tables lie one behind the other, so entry 1024 of a table is
    entry 0 of the next one; the word behind the last table is taken to be zero.
   */
  function EntryAt(ts: seq<seq<Entry>>, d: nat, page: nat): Entry
    requires Tables(ts) && d < NR_TASKS && page <= TOTAL_PAGES
  {
    if page < TOTAL_PAGES then ts[d][page] else if d + 1 < NR_TASKS then ts[d + 1][0] else EMPTY
  }

  function WithEntry(ts: seq<seq<Entry>>, d: nat, page: nat, e: Entry): (r: seq<seq<Entry>>)
    requires Tables(ts) && d < NR_TASKS && page <= TOTAL_PAGES
    ensures Tables(r)
  {
    if page < TOTAL_PAGES then ts[d := ts[d][page := e]]
    else if d + 1 < NR_TASKS then ts[d + 1 := ts[d + 1][0 := e]]
    else ts
  }

  /** pt maps the pages from `first` on to the frames fs, and agrees with pt0 elsewhere. */
  ghost predicate Grown(pt0: seq<Entry>, pt: seq<Entry>, first: int, fs: seq<int>) {
    && |pt0| == |pt| == TOTAL_PAGES && 0 <= first && first + |fs| <= TOTAL_PAGES
    && (forall i :: 0 <= i < |fs| ==> fs[i] >= 0 && pt[first + i] == Mapped(fs[i]))
    && (forall q :: 0 <= q < TOTAL_PAGES && !(first <= q < first + |fs|) ==> pt[q] == pt0[q])
  }

  lemma GrowMore(pt0: seq<Entry>, pt: seq<Entry>, first: int, fs: seq<int>, f: nat)
    requires Grown(pt0, pt, first, fs) && first + |fs| < TOTAL_PAGES
    ensures Grown(pt0, pt[first + |fs| := Mapped(f)], first, fs + [f])
  {
  }

  /** used after taking the frames fs. */
  ghost predicate Took(u0: seq<bool>, u: seq<bool>, fs: seq<int>) {
    && |u0| == |u| == TOTAL_PAGES
    && NoRepeat(fs)
    && (forall i :: 0 <= i < |fs| ==> Available(u0, fs[i]))
    && (forall f :: 0 <= f < TOTAL_PAGES ==> (u[f] <==> u0[f] || f in fs))
  }

  /** If no frame is left after taking fs, then fs are all there were. */
  lemma TookAll(u0: seq<bool>, u: seq<bool>, fs: seq<int>)
    requires Took(u0, u, fs)
    ensures |fs| <= |AvailableSet(u0)|
    ensures (forall f :: !Available(u, f)) ==> |AvailableSet(u0)| == |fs|
  {
    ElementCount(fs);
    SubsetCount(Elements(fs), AvailableSet(u0));
    if forall f :: !Available(u, f) {
      forall f | f in AvailableSet(u0)
        ensures f in Elements(fs)
      {
        assert !Available(u, f);
      }
      assert AvailableSet(u0) == Elements(fs);
    }
  }

  /** What is taken is no longer available, and nothing else is lost. */
  lemma TookCount(u0: seq<bool>, u: seq<bool>, fs: seq<int>)
    requires Took(u0, u, fs)
    ensures |AvailableSet(u)| == |AvailableSet(u0)| - |fs|
  {
    ElementCount(fs);
    forall f
      ensures f in AvailableSet(u0) <==> f in AvailableSet(u) || f in Elements(fs)
    {
      if f in Elements(fs) {
        var i :| 0 <= i < |fs| && fs[i] == f;
        assert Available(u0, fs[i]);
      }
    }
    assert AvailableSet(u0) == AvailableSet(u) + Elements(fs);
    assert AvailableSet(u) !! Elements(fs);
  }

  lemma TakeOne(u0: seq<bool>, u: seq<bool>, fs: seq<int>, f: int)
    requires Took(u0, u, fs) && Available(u, f)
    ensures Took(u0, u[f := true], fs + [f])
  {
    forall i, j | 0 <= i < j < |fs + [f]|
      ensures (fs + [f])[i] != (fs + [f])[j]
    {
      assert fs[i] in fs;
    }
  }

  // ---- memory in order, threads and heaps included

  const FIRST_DATA_FRAME := 272

  /** The frame behind page q of table t; 0 if there is none. */
  function PageFrame(m: Mem, t: int, q: int): int
    requires Sized(m) && 0 <= t < NR_TASKS && 0 <= q < TOTAL_PAGES
  {
    m.tables[t][q].frame
  }

  /** Init's code frames are never handed out again. */
  ghost predicate CodeUsed(used: seq<bool>) {
    |used| == TOTAL_PAGES && forall f :: NUM_PAG_KERNEL <= f < FIRST_DATA_FRAME && f % 2 == 0 ==> used[f]
  }

  /** A data, stack or heap page is unmapped or mapped to a frame in use. */
  ghost predicate EntryOk(m: Mem, t: int, q: int)
    requires Sized(m) && 0 <= t < NR_TASKS && 0 <= q < TOTAL_PAGES
  {
    var f := PageFrame(m, t, q);
    m.tables[t][q] == EMPTY || (FIRST_DATA_FRAME <= f < TOTAL_PAGES && m.used[f] && m.tables[t][q] == Mapped(f))
  }

  ghost predicate EntriesOk(m: Mem)
    requires Sized(m)
  {
    forall t, q :: 0 <= t < NR_TASKS && PAG_LOG_INIT_DATA <= q < TOTAL_PAGES ==> EntryOk(m, t, q)
  }

  /** No frame backs two data, stack or heap pages, of one table or of two. */
  ghost predicate MappedOnce(m: Mem)
    requires Sized(m)
  {
    forall t, q, u, r ::
      (&& 0 <= t < NR_TASKS && 0 <= u < NR_TASKS && PAG_LOG_INIT_DATA <= q < TOTAL_PAGES && PAG_LOG_INIT_DATA <= r < TOTAL_PAGES
       && PageFrame(m, t, q) != 0 && PageFrame(m, t, q) == PageFrame(m, u, r))
      ==> t == u && q == r
  }

  /** Kernel and code pages have frames below the data frames. */
  ghost predicate LowPages(m: Mem)
    requires Sized(m)
  {
    && (forall t, q :: 0 <= t < NR_TASKS && 0 <= q < NUM_PAG_KERNEL ==> m.tables[t][q].frame < NUM_PAG_KERNEL)
    && (forall t, q :: 0 <= t < NR_TASKS && NUM_PAG_KERNEL <= q < PAG_LOG_INIT_DATA ==> m.tables[t][q].frame < FIRST_DATA_FRAME)
  }

  /** The copy window is mapped only while a fork copies a page. */
  ghost predicate WindowsClear(m: Mem)
    requires Sized(m)
  {
    forall t, q :: 0 <= t < NR_TASKS && DataPage(NUM_PAG_DATA) <= q < FIRST_HEAP_PAGE ==> m.tables[t][q] == EMPTY
  }

  ghost predicate MemSafe(m: Mem) {
    Sized(m) && CodeUsed(m.used) && EntriesOk(m) && MappedOnce(m) && LowPages(m) && WindowsClear(m)
  }

  /** No other page of any table, kernel and code pages included, reaches a mapped data or heap frame. */
  lemma Exclusive(m: Mem, t: int, q: int, u: int, r: int)
    requires MemSafe(m) && 0 <= t < NR_TASKS && 0 <= u < NR_TASKS
    requires PAG_LOG_INIT_DATA <= q < TOTAL_PAGES && 0 <= r < TOTAL_PAGES && !(t == u && q == r)
    requires m.tables[t][q].present
    ensures m.tables[u][r].frame != m.tables[t][q].frame
  {
    assert EntryOk(m, t, q);
    assert PageFrame(m, t, q) != 0;
    assert r >= PAG_LOG_INIT_DATA ==> PageFrame(m, u, r) != PageFrame(m, t, q);
  }

  /** Which pages fork and sbrk map: data pages or heap pages, never the window between them. */
  predicate MappableRange(first: int, n: int) {
    || (PAG_LOG_INIT_DATA <= first && first + n <= DataPage(NUM_PAG_DATA))
    || (FIRST_HEAP_PAGE <= first && first + n <= TOTAL_PAGES)
  }

  /** Frames fs are fresh and mapped from page `first` of table d on; the low pages of d may be rewritten. */
  ghost predicate MapsFresh(m: Mem, m': Mem, d: int, first: int, fs: seq<int>)
    requires Sized(m) && Sized(m') && 0 <= d < NR_TASKS
  {
    && Took(m.used, m'.used, fs) && MappableRange(first, |fs|)
    && (forall i :: 0 <= i < |fs| ==> fs[i] >= 0 && m'.tables[d][first + i] == Mapped(fs[i]))
    && (forall q :: PAG_LOG_INIT_DATA <= q < TOTAL_PAGES && !(first <= q < first + |fs|) ==> m'.tables[d][q] == m.tables[d][q])
    && (forall t :: 0 <= t < NR_TASKS && t != d ==> m'.tables[t] == m.tables[t])
  }

  /** A page of m' is one of the fresh ones, or what it was. */
  lemma FreshOrKept(m: Mem, m': Mem, d: int, first: int, fs: seq<int>, t: int, q: int)
    requires MemSafe(m) && Sized(m') && 0 <= d < NR_TASKS && MapsFresh(m, m', d, first, fs)
    requires 0 <= t < NR_TASKS && PAG_LOG_INIT_DATA <= q < TOTAL_PAGES
    ensures t == d && first <= q < first + |fs| ==>
              PageFrame(m', t, q) == fs[q - first] && Available(m.used, fs[q - first]) && EntryOk(m', t, q)
    ensures !(t == d && first <= q < first + |fs|) ==>
              m'.tables[t][q] == m.tables[t][q] && EntryOk(m', t, q) && PageFrame(m', t, q) !in fs
  {
    assert EntryOk(m, t, q);
    if t == d && first <= q < first + |fs| {
      assert m'.tables[d][first + (q - first)] == Mapped(fs[q - first]);
      assert Available(m.used, fs[q - first]) && fs[q - first] in fs;
    }
  }

  lemma MapKeepsSafe(m: Mem, m': Mem, d: int, first: int, fs: seq<int>)
    requires MemSafe(m) && Sized(m') && 0 <= d < NR_TASKS && MapsFresh(m, m', d, first, fs) && LowPages(m')
    ensures MemSafe(m')
  {
    forall t, q | 0 <= t < NR_TASKS && PAG_LOG_INIT_DATA <= q < TOTAL_PAGES
      ensures EntryOk(m', t, q)
    {
      FreshOrKept(m, m', d, first, fs, t, q);
    }
    forall t, q, u, r |
      (&& 0 <= t < NR_TASKS && 0 <= u < NR_TASKS && PAG_LOG_INIT_DATA <= q < TOTAL_PAGES && PAG_LOG_INIT_DATA <= r < TOTAL_PAGES
       && PageFrame(m', t, q) != 0 && PageFrame(m', t, q) == PageFrame(m', u, r))
      ensures t == u && q == r
    {
      FreshOrKept(m, m', d, first, fs, t, q);
      FreshOrKept(m, m', d, first, fs, u, r);
      assert PageFrame(m, t, q) == PageFrame(m, u, r) && PageFrame(m, t, q) != 0 ==> t == u && q == r;
    }
  }

  /** Unmapping pages keeps memory in order if no page that stays mapped loses its frame. */
  lemma ClearKeepsSafe(m: Mem, m': Mem)
    requires MemSafe(m) && Sized(m') && CodeUsed(m'.used) && LowPages(m')
    requires forall t, q :: 0 <= t < NR_TASKS && PAG_LOG_INIT_DATA <= q < TOTAL_PAGES ==>
               m'.tables[t][q] == EMPTY || (m'.tables[t][q] == m.tables[t][q] && EntryOk(m', t, q))
    ensures MemSafe(m')
  {
    forall t, q | 0 <= t < NR_TASKS && PAG_LOG_INIT_DATA <= q < TOTAL_PAGES
      ensures EntryOk(m', t, q)
      ensures PageFrame(m', t, q) == 0 || PageFrame(m', t, q) == PageFrame(m, t, q)
    {
    }
  }

  /** Releasing the frame of one page and unmapping the page. */
  ghost predicate PageReleased(m: Mem, m': Mem, d: int, q: int)
    requires Sized(m) && Sized(m') && 0 <= d < NR_TASKS && 0 <= q <= TOTAL_PAGES
  {
    && m'.used == Freed(m.used, EntryAt(m.tables, d, q).frame)
    && m'.tables == WithEntry(m.tables, d, q, EMPTY)
  }

  lemma ReleaseKeepsSafe(m: Mem, m': Mem, d: int, q: int)
    requires MemSafe(m) && Sized(m') && 0 <= d < NR_TASKS && FIRST_HEAP_PAGE <= q <= TOTAL_PAGES
    requires PageReleased(m, m', d, q)
    ensures MemSafe(m')
  {
    if q < TOTAL_PAGES {
      assert EntryOk(m, d, q);
    }
    forall t, r | 0 <= t < NR_TASKS && PAG_LOG_INIT_DATA <= r < TOTAL_PAGES
      ensures m'.tables[t][r] == EMPTY || (m'.tables[t][r] == m.tables[t][r] && EntryOk(m', t, r))
    {
      assert EntryOk(m, t, r);
      if q < TOTAL_PAGES && !(t == d && r == q) && PageFrame(m, t, r) == PageFrame(m, d, q) {
        assert PageFrame(m, t, r) == 0;
      }
    }
    ClearKeepsSafe(m, m');
  }

  /** Slot p's data pages are unmapped and their frames released. */
  ghost predicate Released(m: Mem, m': Mem, p: nat)
    requires Sized(m) && Sized(m') && p < NR_TASKS
  {
    var pt := m.tables[m.dir[p]];
    && (forall f :: 0 <= f < TOTAL_PAGES ==> (m'.used[f] <==> m.used[f] && !(f in DataFrames(pt) && NUM_PAG_KERNEL < f)))
    && (forall q :: 0 <= q < TOTAL_PAGES ==>
          m'.tables[m.dir[p]][q] == if DataPage(0) <= q < DataPage(NUM_PAG_DATA) then EMPTY else pt[q])
    && (forall t :: 0 <= t < NR_TASKS && t != m.dir[p] ==> m'.tables[t] == m.tables[t])
    && m' == m.(used := m'.used, tables := m'.tables)
  }

  /** sys_exit keeps memory in order: the frames it releases back no other page. */
  lemma ExitKeepsSafe(m: Mem, m': Mem, p: nat)
    requires MemSafe(m) && Sized(m') && p < NR_TASKS && Released(m, m', p)
    ensures MemSafe(m')
  {
    var d := m.dir[p];
    var fs := DataFrames(m.tables[d]);
    forall f | f in fs
      ensures f == 0 || FIRST_DATA_FRAME <= f
    {
      var i :| 0 <= i < |fs| && fs[i] == f;
      assert EntryOk(m, d, DataPage(i));
    }
    forall t, r | 0 <= t < NR_TASKS && PAG_LOG_INIT_DATA <= r < TOTAL_PAGES
      ensures m'.tables[t][r] == EMPTY || (m'.tables[t][r] == m.tables[t][r] && EntryOk(m', t, r))
    {
      assert EntryOk(m, t, r);
      if PageFrame(m, t, r) in fs && !(t == d && r < DataPage(NUM_PAG_DATA)) {
        var i :| 0 <= i < |fs| && fs[i] == PageFrame(m, t, r);
        assert PageFrame(m, d, DataPage(i)) == PageFrame(m, t, r);
      }
    }
    ClearKeepsSafe(m, m');
  }

  predicate DataUnmapped(pt: seq<Entry>)
    requires |pt| == TOTAL_PAGES
  {
    forall q :: DataPage(0) <= q < DataPage(NUM_PAG_DATA) ==> pt[q] == EMPTY
  }

  /** A table as init_table_pages leaves it: kernel pages only, page 0 unmapped, two guards absent. */
  predicate KernelTable(pt: seq<Entry>) {
    && |pt| == TOTAL_PAGES
    && (forall q :: 0 <= q < NUM_PAG_KERNEL ==> pt[q].frame == q)
    && (forall q :: NUM_PAG_KERNEL <= q < TOTAL_PAGES ==> pt[q] == EMPTY)
  }

  /** The kernel's entries bit by bit; lo and hi are the pages that guard the task array. */
  predicate KernelBits(pt: seq<Entry>, lo: nat, hi: nat) {
    && |pt| == TOTAL_PAGES && pt[0] == EMPTY
    && forall q :: 1 <= q < NUM_PAG_KERNEL ==> pt[q] == Entry(q, false, true, q != lo && q != hi)
  }

  /** The frames in use after n allocations from scratch. */
  predicate FirstTaken(used: seq<bool>, n: nat) {
    && |used| == TOTAL_PAGES
    && forall f :: 0 <= f < TOTAL_PAGES ==> (used[f] <==> f < NUM_PAG_KERNEL || (f % 2 == 0 && f < NUM_PAG_KERNEL + 2 * n))
  }

  /** Memory when `main` enters user mode: init owns the first 28 even frames. */
  ghost predicate BootMem(m: Mem, init: nat)
    requires Sized(m) && init < NR_TASKS
  {
    && FirstTaken(m.used, NUM_PAG_CODE + NUM_PAG_DATA)
    && (forall t :: 0 <= t < NR_TASKS && t != init ==> KernelTable(m.tables[t]))
    && (forall q :: 0 <= q < NUM_PAG_KERNEL ==> m.tables[init][q].frame == q)
    && (forall i :: 0 <= i < NUM_PAG_CODE ==>
          m.tables[init][CodePage(i)] == Entry(NUM_PAG_KERNEL + 2 * i, true, false, true))
    && (forall i :: 0 <= i < NUM_PAG_DATA ==>
          m.tables[init][DataPage(i)] == Mapped(NUM_PAG_KERNEL + 2 * NUM_PAG_CODE + 2 * i))
    && (forall q :: DataPage(NUM_PAG_DATA) <= q < TOTAL_PAGES ==> m.tables[init][q] == EMPTY)
    && m.dir[init] == init && m.heapStart[init] == INIT_HEAP && m.heapPtr[init] == INIT_HEAP
  }

  /** The data pages below i are unmapped again. */
  ghost predicate Unmapped(pt0: seq<Entry>, pt1: seq<Entry>, pt: seq<Entry>, i: nat) {
    && |pt0| == |pt1| == |pt| == TOTAL_PAGES && i <= NUM_PAG_DATA
    && forall p :: 0 <= p < TOTAL_PAGES ==> pt[p] == if DataPage(0) <= p < DataPage(i) then EMPTY else pt1[p]
  }

  /** The processor's address translation. */
  predicate Accessible(pt: seq<Entry>, va: int) {
    0 <= va / PAGE_SIZE < |pt| && pt[va / PAGE_SIZE].present && pt[va / PAGE_SIZE].frame < TOTAL_PAGES
  }

  function Translate(pt: seq<Entry>, va: int): int
    requires Accessible(pt, va)
  {
    pt[va / PAGE_SIZE].frame * PAGE_SIZE + va % PAGE_SIZE
  }

  class Memory {
    const physMem: array<bool>
    const tables: seq<array<Entry>>
    const ram: array<byte>
    const dir: array<nat>
    const heapStart: array<int>
    const heapPtr: array<int>

    ghost predicate Valid()
      reads this, dir
    {
      && physMem.Length == TOTAL_PAGES
      && |tables| == NR_TASKS
      && (forall t :: 0 <= t < NR_TASKS ==> tables[t].Length == TOTAL_PAGES)
      && (forall t, u :: 0 <= t < NR_TASKS && 0 <= u < NR_TASKS && tables[t] == tables[u] ==> t == u)
      && ram.Length == RAM_SIZE
      && dir.Length == NR_TASKS && heapStart.Length == NR_TASKS && heapPtr.Length == NR_TASKS
      && heapStart != heapPtr && dir as object != heapStart && dir as object != heapPtr
      && (forall t :: 0 <= t < NR_TASKS ==> dir[t] < NR_TASKS)
    }

    ghost function TablesUpTo(n: nat): (ts: seq<seq<Entry>>)
      requires n <= |tables|
      reads tables
      ensures |ts| == n
      ensures forall t :: 0 <= t < n ==> ts[t] == tables[t][..]
    {
      if n == 0 then [] else TablesUpTo(n - 1) + [tables[n - 1][..]]
    }

    ghost function Snap(): (m: Mem)
      requires Valid()
      reads this, physMem, tables, ram, dir, heapStart, heapPtr
      ensures Sized(m)
      ensures forall t :: 0 <= t < NR_TASKS ==> m.tables[t] == tables[t][..]
    {
      Mem(physMem[..], TablesUpTo(NR_TASKS), ram[..], dir[..], heapStart[..], heapPtr[..])
    }

    constructor ()
      ensures Valid()
      ensures fresh(tables) && fresh(physMem) && fresh(ram) && fresh(dir) && fresh(heapStart) && fresh(heapPtr)
    {
      var ts: seq<array<Entry>> := [];
      while |ts| < NR_TASKS
        invariant fresh(ts)
        invariant |ts| <= NR_TASKS && forall t :: 0 <= t < |ts| ==> ts[t].Length == TOTAL_PAGES
        invariant forall t, u :: 0 <= t < |ts| && 0 <= u < |ts| && ts[t] == ts[u] ==> t == u
      {
        var pt := new Entry[TOTAL_PAGES](_ => EMPTY);
        ts := ts + [pt];
      }
      tables := ts;
      physMem := new bool[TOTAL_PAGES];
      ram := new byte[RAM_SIZE];
      heapStart := new int[NR_TASKS];
      heapPtr := new int[NR_TASKS];
      dir := new nat[NR_TASKS](_ => 0);
    }

    // ---- entries through the C array

    method GetFrameAt(d: nat, page: nat) returns (frame: nat)
      requires Valid() && d < NR_TASKS && page <= TOTAL_PAGES
      ensures frame == EntryAt(Snap().tables, d, page).frame
    {
      if page < TOTAL_PAGES {
        frame := GetFrame(tables[d], page);
      } else if d + 1 < NR_TASKS {
        frame := GetFrame(tables[d + 1], 0);
      } else {
        frame := 0;
      }
    }

    method SetPageAt(d: nat, page: nat, frame: nat)
      requires Valid() && d < NR_TASKS && page <= TOTAL_PAGES
      modifies tables
      ensures Snap() == old(Snap()).(tables := WithEntry(old(Snap()).tables, d, page, Mapped(frame)))
    {
      ghost var m := Snap();
      if page < TOTAL_PAGES {
        SetSsPag(tables[d], page, frame);
      } else if d + 1 < NR_TASKS {
        SetSsPag(tables[d + 1], 0, frame);
      }
      assert Snap().tables == WithEntry(m.tables, d, page, Mapped(frame));
    }

    method DelPageAt(d: nat, page: nat)
      requires Valid() && d < NR_TASKS && page <= TOTAL_PAGES
      modifies tables
      ensures Snap() == old(Snap()).(tables := WithEntry(old(Snap()).tables, d, page, EMPTY))
    {
      ghost var m := Snap();
      if page < TOTAL_PAGES {
        DelSsPag(tables[d], page);
      } else if d + 1 < NR_TASKS {
        DelSsPag(tables[d + 1], 0);
      }
      assert Snap().tables == WithEntry(m.tables, d, page, EMPTY);
    }

    /** alloc_frame, then set_ss_pag(PT, page, frame) if there was one. */
    method TakePageAt(d: nat, page: nat) returns (f: int)
      requires Valid() && d < NR_TASKS && page <= TOTAL_PAGES
      modifies physMem, tables
      ensures f == FirstFree(old(physMem[..]), NUM_PAG_KERNEL)
      ensures f == -1 ==> Snap() == old(Snap())
      ensures f != -1 ==> var m := old(Snap());
                          Snap() == m.(used := m.used[f := true], tables := WithEntry(m.tables, d, page, Mapped(f)))
    {
      ghost var m := Snap();
      f := AllocFrame(physMem);
      assert Snap() == m.(used := physMem[..]);
      if f != -1 {
        SetPageAt(d, page, f);
      }
    }

    /** free_frame(get_frame(PT, page)), then del_ss_pag(PT, page). */
    method ReleasePageAt(d: nat, page: nat)
      requires Valid() && d < NR_TASKS && page <= TOTAL_PAGES
      modifies physMem, tables
      ensures var m := old(Snap());
              Snap() == m.(used := Freed(m.used, EntryAt(m.tables, d, page).frame), tables := WithEntry(m.tables, d, page, EMPTY))
    {
      ghost var m := Snap();
      var f := GetFrameAt(d, page);
      FreeFrame(physMem, f);
      assert Snap() == m.(used := Freed(m.used, f));
      DelPageAt(d, page);
    }

    // ---- start-up

    /** init_table_pages for one table; lo and hi are the pages that guard the task array. */
    method InitTable(pt: array<Entry>, lo: nat, hi: nat)
      requires pt.Length == TOTAL_PAGES && 0 < lo < NUM_PAG_KERNEL && 0 < hi < NUM_PAG_KERNEL
      modifies pt
      ensures KernelTable(pt[..]) && KernelBits(pt[..], lo, hi)
    {
      for i := 0 to TOTAL_PAGES
        invariant forall q :: 0 <= q < i ==> pt[q] == EMPTY
      {
        pt[i] := EMPTY;
      }
      for i := 1 to NUM_PAG_KERNEL
        invariant pt[0] == EMPTY && forall q :: 1 <= q < i ==> pt[q] == Entry(q, false, true, true)
        invariant forall q :: i <= q < TOTAL_PAGES ==> pt[q] == EMPTY
      {
        pt[i] := pt[i].(frame := i, rw := true, present := true);
      }
      pt[lo] := pt[lo].(present := false);
      pt[hi] := pt[hi].(present := false);
    }

    method InitTables(lo: nat, hi: nat)
      requires Valid() && 0 < lo < NUM_PAG_KERNEL && 0 < hi < NUM_PAG_KERNEL
      modifies tables
      ensures forall t :: 0 <= t < NR_TASKS ==> KernelTable(tables[t][..]) && KernelBits(tables[t][..], lo, hi)
    {
      for j := 0 to NR_TASKS
        invariant forall t :: 0 <= t < j ==> KernelTable(tables[t][..]) && KernelBits(tables[t][..], lo, hi)
      {
        InitTable(tables[j], lo, hi);
      }
    }

    /** From scratch the allocator hands out 256, 258, 260, ... */
    method AllocNext(n: nat) returns (f: nat)
      requires Valid() && FirstTaken(physMem[..], n) && NUM_PAG_KERNEL + 2 * n < TOTAL_PAGES
      modifies physMem
      ensures f == NUM_PAG_KERNEL + 2 * n && FirstTaken(physMem[..], n + 1)
    {
      assert Available(physMem[..], NUM_PAG_KERNEL + 2 * n);
      f := AllocFrame(physMem);
    }

    /** set_user_pages for the initial process. */
    method SetUserPages(pt: array<Entry>)
      requires Valid() && FirstTaken(physMem[..], 0) && pt in tables && KernelTable(pt[..])
      modifies physMem, pt
      ensures FirstTaken(physMem[..], NUM_PAG_CODE + NUM_PAG_DATA)
      ensures forall q :: 0 <= q < NUM_PAG_KERNEL || DataPage(NUM_PAG_DATA) <= q < TOTAL_PAGES ==> pt[q] == old(pt[q])
      ensures forall i :: 0 <= i < NUM_PAG_CODE ==> pt[CodePage(i)] == Entry(NUM_PAG_KERNEL + 2 * i, true, false, true)
      ensures forall i :: 0 <= i < NUM_PAG_DATA ==> pt[DataPage(i)] == Mapped(NUM_PAG_KERNEL + 2 * NUM_PAG_CODE + 2 * i)
    {
      for pag := 0 to NUM_PAG_CODE
        invariant FirstTaken(physMem[..], pag)
        invariant forall i :: 0 <= i < pag ==> pt[CodePage(i)] == Entry(NUM_PAG_KERNEL + 2 * i, true, false, true)
        invariant forall q :: 0 <= q < TOTAL_PAGES && !(CodePage(0) <= q < CodePage(pag)) ==> pt[q] == old(pt[q])
      {
        var f := AllocNext(pag);
        pt[CodePage(pag)] := Entry(f, true, false, true);
      }
      for pag := 0 to NUM_PAG_DATA
        invariant FirstTaken(physMem[..], NUM_PAG_CODE + pag)
        invariant forall i :: 0 <= i < NUM_PAG_CODE ==> pt[CodePage(i)] == Entry(NUM_PAG_KERNEL + 2 * i, true, false, true)
        invariant forall i :: 0 <= i < pag ==> pt[DataPage(i)] == Mapped(NUM_PAG_KERNEL + 2 * NUM_PAG_CODE + 2 * i)
        invariant forall q :: 0 <= q < TOTAL_PAGES && !(CodePage(0) <= q < DataPage(pag)) ==> pt[q] == old(pt[q])
      {
        var f := AllocNext(NUM_PAG_CODE + pag);
        pt[DataPage(pag)] := Entry(f, true, true, true);
      }
    }

    /** init_mm, and the memory half of init_idle and init_task1. */
    method InitMemory(idle: nat, init: nat, lo: nat, hi: nat)
      requires Valid() && idle < NR_TASKS && init < NR_TASKS && idle != init && 0 < lo < NUM_PAG_KERNEL && 0 < hi < NUM_PAG_KERNEL
      modifies physMem, tables, dir, heapStart, heapPtr
      ensures Valid() && BootMem(Snap(), init)
      ensures forall t :: 0 <= t < NR_TASKS ==> KernelBits(Snap().tables[t], lo, hi)
    {
      InitTables(lo, hi);
      InitFrames(physMem);
      InitFields(idle, init);
      ghost var m := Snap();
      SetUserPages(tables[init]);
      BitsKept(m, Snap(), init, lo, hi);
    }

    method InitFields(idle: nat, init: nat)
      requires Valid() && idle < NR_TASKS && init < NR_TASKS && idle != init
      modifies dir, heapStart, heapPtr
      ensures Valid() && dir[init] == init && heapStart[init] == INIT_HEAP && heapPtr[init] == INIT_HEAP
      ensures Snap() == old(Snap()).(dir := dir[..], heapStart := heapStart[..], heapPtr := heapPtr[..])
    {
      dir[idle] := idle;
      dir[init] := init;
      heapStart[init] := INIT_HEAP;
      heapPtr[init] := INIT_HEAP;
    }

    /** set_user_pages leaves every kernel entry alone. */
    static lemma BitsKept(m: Mem, m': Mem, init: nat, lo: nat, hi: nat)
      requires Sized(m) && Sized(m') && init < NR_TASKS
      requires forall t :: 0 <= t < NR_TASKS ==> KernelBits(m.tables[t], lo, hi)
      requires forall t :: 0 <= t < NR_TASKS && t != init ==> m'.tables[t] == m.tables[t]
      requires forall q :: 0 <= q < NUM_PAG_KERNEL ==> m'.tables[init][q] == m.tables[init][q]
      ensures forall t :: 0 <= t < NR_TASKS ==> KernelBits(m'.tables[t], lo, hi)
    {
    }

    /** The memory half of sys_exit; its heap loop is never entered since heapPtr >= heapStart. */
    method ExitSpace(p: nat)
      requires Valid() && p < NR_TASKS && heapStart[p] <= heapPtr[p]
      modifies physMem, tables[dir[p]]
      ensures Released(old(Snap()), Snap(), p)
    {
      var pt := tables[dir[p]];
      ghost var m := Snap();
      for i := 0 to NUM_PAG_DATA
        invariant ReleasedFrames(m.used, physMem[..], DataFrames(m.tables[m.dir[p]]), i)
        invariant Unmapped(m.tables[m.dir[p]], m.tables[m.dir[p]], pt[..], i)
      {
        var f := GetFrame(pt, DataPage(i));
        ReleaseNext(m.used, physMem[..], DataFrames(m.tables[m.dir[p]]), i);
        FreeFrame(physMem, f);
        DelSsPag(pt, DataPage(i));
      }
      assert DataFrames(m.tables[m.dir[p]])[..NUM_PAG_DATA] == DataFrames(m.tables[m.dir[p]]);
    }

    /** used when free_frame has been called on the first i frames. */
    static ghost predicate ReleasedFrames(u0: seq<bool>, u: seq<bool>, fs: seq<int>, i: nat) {
      && |u0| == |u| == TOTAL_PAGES && i <= |fs|
      && forall f :: 0 <= f < TOTAL_PAGES ==> (u[f] <==> u0[f] && !(f in fs[..i] && NUM_PAG_KERNEL < f))
    }

    static lemma ReleaseNext(u0: seq<bool>, u: seq<bool>, fs: seq<int>, i: nat)
      requires ReleasedFrames(u0, u, fs, i) && i < |fs| && fs[i] >= 0
      ensures ReleasedFrames(u0, Freed(u, fs[i]), fs, i + 1)
    {
      assert fs[..i + 1] == fs[..i] + [fs[i]];
    }
  }
}
