/** The frame allocator and the page-table primitives of mm.c. */
module Paging {

  const TOTAL_PAGES := 1024
  const NUM_PAG_KERNEL := 256
  const PAG_LOG_INIT_CODE := 256
  const NUM_PAG_CODE := 8
  const PAG_LOG_INIT_DATA := 264
  const NUM_PAG_DATA := 20
  const PAGE_SIZE := 4096
  const DATA_END := 0x11C000
  const INIT_HEAP := 0x130000
  const FIRST_HEAP_PAGE := 304
  const HEAP_LIMIT := TOTAL_PAGES * PAGE_SIZE

  /** Heap pointers are page-aligned and stay between the heap's start and the end of the table. */
  predicate HeapOk(ptr: int) {
    ptr % PAGE_SIZE == 0 && INIT_HEAP <= ptr <= HEAP_LIMIT
  }

  /** A page_table_entry; the bits that the kernel never sets are left out. */
  datatype Entry = Entry(frame: nat, user: bool, rw: bool, present: bool)

  const EMPTY := Entry(0, false, false, false)

  /** What set_ss_pag writes. */
  function Mapped(frame: nat): Entry {
    Entry(frame, true, true, true)
  }

  /** The frames that alloc_frame can return: it scans from 256 in steps of two. */
  predicate Available(used: seq<bool>, f: int) {
    |used| == TOTAL_PAGES && NUM_PAG_KERNEL <= f < TOTAL_PAGES && f % 2 == 0 && !used[f]
  }

  ghost function AvailableSet(used: seq<bool>): set<int> {
    set f | NUM_PAG_KERNEL <= f < TOTAL_PAGES && Available(used, f)
  }

  /** The first available frame from the even frame i on, or -1. */
  function FirstFree(used: seq<bool>, i: int): (f: int)
    requires |used| == TOTAL_PAGES && NUM_PAG_KERNEL <= i <= TOTAL_PAGES && i % 2 == 0
    ensures f == -1 ==> forall g :: i <= g ==> !Available(used, g)
    ensures f != -1 ==> i <= f && Available(used, f) && forall g :: i <= g < f ==> !Available(used, g)
    decreases TOTAL_PAGES - i
  {
    if i == TOTAL_PAGES then -1 else if !used[i] then i else FirstFree(used, i + 2)
  }

  /** init_frames: exactly the kernel's frames are in use. */
  method InitFrames(physMem: array<bool>)
    requires physMem.Length == TOTAL_PAGES
    modifies physMem
    ensures forall f :: 0 <= f < TOTAL_PAGES ==> (physMem[f] <==> f < NUM_PAG_KERNEL)
  {
    for i := 0 to TOTAL_PAGES
      invariant forall f :: 0 <= f < i ==> !physMem[f]
    {
      physMem[i] := false;
    }
    for i := 0 to NUM_PAG_KERNEL
      invariant forall f :: 0 <= f < TOTAL_PAGES ==> (physMem[f] <==> f < i)
    {
      physMem[i] := true;
    }
  }

  /** alloc_frame: takes the lowest available frame, or changes nothing and returns -1. */
  method AllocFrame(physMem: array<bool>) returns (r: int)
    requires physMem.Length == TOTAL_PAGES
    modifies physMem
    ensures r == -1 ==> physMem[..] == old(physMem[..]) && forall f :: !Available(physMem[..], f)
    ensures r != -1 ==> Available(old(physMem[..]), r) && physMem[..] == old(physMem[..])[r := true]
    ensures r == FirstFree(old(physMem[..]), NUM_PAG_KERNEL)
  {
    var i := NUM_PAG_KERNEL;
    while i < TOTAL_PAGES
      invariant NUM_PAG_KERNEL <= i <= TOTAL_PAGES && i % 2 == 0
      invariant physMem[..] == old(physMem[..])
      invariant FirstFree(physMem[..], NUM_PAG_KERNEL) == FirstFree(physMem[..], i)
    {
      if !physMem[i] {
        physMem[i] := true;
        return i;
      }
      i := i + 2;
    }
    r := -1;
  }

  /** free_frame: the strict comparison never releases frame 256. */
  method FreeFrame(physMem: array<bool>, frame: nat)
    requires physMem.Length == TOTAL_PAGES
    modifies physMem
    ensures physMem[..] == Freed(old(physMem[..]), frame)
  {
    if NUM_PAG_KERNEL < frame < TOTAL_PAGES {
      physMem[frame] := false;
    }
  }

  function Freed(used: seq<bool>, frame: nat): seq<bool>
    requires |used| == TOTAL_PAGES
  {
    if NUM_PAG_KERNEL < frame < TOTAL_PAGES then used[frame := false] else used
  }

  method SetSsPag(pt: array<Entry>, page: nat, frame: nat)
    requires page < pt.Length
    modifies pt
    ensures pt[..] == old(pt[..])[page := Mapped(frame)]
  {
    pt[page] := EMPTY;
    pt[page] := pt[page].(frame := frame);
    pt[page] := pt[page].(user := true);
    pt[page] := pt[page].(rw := true);
    pt[page] := pt[page].(present := true);
  }

  method DelSsPag(pt: array<Entry>, page: nat)
    requires page < pt.Length
    modifies pt
    ensures pt[..] == old(pt[..])[page := EMPTY]
  {
    pt[page] := EMPTY;
  }

  method GetFrame(pt: array<Entry>, page: nat) returns (frame: nat)
    requires page < pt.Length
    ensures frame == pt[page].frame
  {
    frame := pt[page].frame;
  }

  // ---- counting frames

  ghost function EvenFrames(n: nat): set<int> {
    set f | NUM_PAG_KERNEL <= f < NUM_PAG_KERNEL + n && f % 2 == 0
  }

  lemma {:induction false} EvenCount(n: nat)
    ensures |EvenFrames(n)| == (n + 1) / 2
  {
    if n > 0 {
      EvenCount(n - 1);
      var last := NUM_PAG_KERNEL + n - 1;
      if last % 2 == 0 {
        assert EvenFrames(n) == EvenFrames(n - 1) + {last};
      } else {
        assert EvenFrames(n) == EvenFrames(n - 1);
      }
    } else {
      assert EvenFrames(0) == {};
    }
  }

  ghost function Elements(fs: seq<int>): set<int> {
    set f | f in fs
  }

  predicate NoRepeat(fs: seq<int>) {
    forall i, j :: 0 <= i < j < |fs| ==> fs[i] != fs[j]
  }

  lemma {:induction false} ElementCount(fs: seq<int>)
    ensures |Elements(fs)| <= |fs|
    ensures NoRepeat(fs) ==> |Elements(fs)| == |fs|
  {
    if fs != [] {
      var n := |fs| - 1;
      ElementCount(fs[..n]);
      assert fs == fs[..n] + [fs[n]];
      assert Elements(fs) == Elements(fs[..n]) + {fs[n]};
      if NoRepeat(fs) {
        assert fs[n] !in Elements(fs[..n]);
      }
    } else {
      assert Elements(fs) == {};
    }
  }

  lemma SubsetCount(a: set<int>, b: set<int>)
    requires a <= b
    ensures |a| <= |b| && (|a| == |b| ==> a == b)
  {
    assert b == a + (b - a);
  }

  lemma Pick(s: set<int>) returns (x: int)
    requires s != {}
    ensures x in s
  {
    assert (forall y :: y !in s) ==> s == {};
    x :| x in s;
  }
}
