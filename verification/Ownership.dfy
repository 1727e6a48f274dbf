/**
  Who owns which frame in runs without threads and heaps: each used even frame above the kernel
  is one of init's code frames or the data frame of exactly one page of one live process.
 */
module Ownership {
  import opened Tasks
  import opened Paging
  import opened AddressSpace
  import opened Cloning

  /** set_user_pages takes the first eight even frames for init's code. */
  function CodeFrame(i: int): int {
    NUM_PAG_KERNEL + 2 * i
  }

  function DataFrame(m: Mem, p: int, i: int): int
    requires Sized(m) && 0 <= p < NR_TASKS && 0 <= i < NUM_PAG_DATA
  {
    m.tables[p][DataPage(i)].frame
  }

  /** Is f the frame of some data page of a live process? */
  ghost predicate HasOwner(m: Mem, live: set<int>, f: int)
    requires Sized(m) && LiveSlots(live)
  {
    exists p, i :: p in live && 0 <= i < NUM_PAG_DATA && DataFrame(m, p, i) == f
  }

  ghost predicate LiveSlots(live: set<int>) {
    forall p :: p in live ==> 0 <= p < NR_TASKS
  }

  /** Which frames are marked in use. */
  ghost predicate FramesOwned(m: Mem, live: set<int>)
    requires Sized(m) && LiveSlots(live)
  {
    && (forall f :: 0 <= f < FIRST_DATA_FRAME && (f < NUM_PAG_KERNEL || f % 2 == 0) ==> m.used[f])
    && (forall f :: FIRST_DATA_FRAME <= f < TOTAL_PAGES && f % 2 == 0 ==> (m.used[f] <==> HasOwner(m, live, f)))
    && (forall f :: NUM_PAG_KERNEL <= f < TOTAL_PAGES && f % 2 == 1 ==> !m.used[f])
  }

  /** No frame backs two data pages. */
  ghost predicate OwnersApart(m: Mem, live: set<int>)
    requires Sized(m) && LiveSlots(live)
  {
    forall p, i, q, j ::
      (p in live && q in live && 0 <= i < NUM_PAG_DATA && 0 <= j < NUM_PAG_DATA && DataFrame(m, p, i) == DataFrame(m, q, j))
      ==> p == q && i == j
  }

  /** Every live process maps init's code and its own data, and nobody maps anything above that. */
  ghost predicate TablesOwned(m: Mem, live: set<int>)
    requires Sized(m) && LiveSlots(live)
  {
    && (forall t, q :: 0 <= t < NR_TASKS && 0 <= q < NUM_PAG_KERNEL ==> m.tables[t][q].frame < NUM_PAG_KERNEL)
    && (forall t, i :: 0 <= t < NR_TASKS && 0 <= i < NUM_PAG_CODE ==>
          m.tables[t][CodePage(i)] == EMPTY || m.tables[t][CodePage(i)].frame == CodeFrame(i))
    && (forall p, i :: p in live && 0 <= i < NUM_PAG_CODE ==>
          m.tables[p][CodePage(i)].present && m.tables[p][CodePage(i)].frame == CodeFrame(i))
    && (forall p, i :: p in live && 0 <= i < NUM_PAG_DATA ==>
          && m.tables[p][DataPage(i)] == Mapped(DataFrame(m, p, i))
          && FIRST_DATA_FRAME <= DataFrame(m, p, i) < TOTAL_PAGES && DataFrame(m, p, i) % 2 == 0)
    && (forall t :: 0 <= t < NR_TASKS && t !in live ==> DataUnmapped(m.tables[t]))
    && (forall t, q :: 0 <= t < NR_TASKS && DataPage(NUM_PAG_DATA) <= q < TOTAL_PAGES ==> m.tables[t][q] == EMPTY)
  }

  /** Thread-free and heap-free. */
  ghost predicate PlainProcesses(m: Mem, live: set<int>)
    requires Sized(m) && LiveSlots(live)
  {
    forall p :: p in live ==> m.dir[p] == p && m.heapStart[p] == INIT_HEAP && m.heapPtr[p] == INIT_HEAP
  }

  ghost predicate Owned(m: Mem, live: set<int>) {
    && Sized(m) && LiveSlots(live)
    && FramesOwned(m, live) && OwnersApart(m, live) && TablesOwned(m, live) && PlainProcesses(m, live)
  }

  // ---- fork

  lemma LiveUsed(m: Mem, live: set<int>, p: int, i: int)
    requires Owned(m, live) && p in live && 0 <= i < NUM_PAG_DATA
    ensures 0 <= DataFrame(m, p, i) < TOTAL_PAGES && m.used[DataFrame(m, p, i)]
  {
    assert HasOwner(m, live, DataFrame(m, p, i));
  }

  /** A live process with a free slot and frames at hand forks without a fault. */
  lemma OwnedForks(m: Mem, live: set<int>, p: int, c: int)
    requires Owned(m, live) && p in live && 0 <= c < NR_TASKS && c !in live
    ensures !ForkFaults(m, p, c)
  {
  }

  /** A clone of the live process p in the free slot c. */
  ghost predicate BecomesClone(m: Mem, m': Mem, live: set<int>, p: int, c: int) {
    Owned(m, live) && p in live && 0 <= c < NR_TASKS && c !in live && Sized(m') && CloneOf(m, m', p, c)
  }

  /** Live frames stay where they were and are none of the fresh ones. */
  lemma OldFrames(m: Mem, m': Mem, live: set<int>, p: int, c: int)
    requires BecomesClone(m, m', live, p, c)
    ensures forall q, i :: q in live && 0 <= i < NUM_PAG_DATA ==>
              DataFrame(m', q, i) == DataFrame(m, q, i) && DataFrame(m, q, i) !in DataFrames(m'.tables[c])
  {
    forall q, i | q in live && 0 <= i < NUM_PAG_DATA
      ensures DataFrame(m', q, i) == DataFrame(m, q, i) && DataFrame(m, q, i) !in DataFrames(m'.tables[c])
    {
      assert HasOwner(m, live, DataFrame(m, q, i));
    }
  }

  lemma CloneApart(m: Mem, m': Mem, live: set<int>, p: int, c: int)
    requires BecomesClone(m, m', live, p, c)
    ensures OwnersApart(m', live + {c})
  {
    var fs := DataFrames(m'.tables[c]);
    OldFrames(m, m', live, p, c);
    forall q, i, r, j | q in live + {c} && r in live + {c} && 0 <= i < NUM_PAG_DATA && 0 <= j < NUM_PAG_DATA
      && DataFrame(m', q, i) == DataFrame(m', r, j)
      ensures q == r && i == j
    {
      assert q == c ==> DataFrame(m', q, i) == fs[i];
      assert r == c ==> DataFrame(m', r, j) == fs[j];
    }
  }

  lemma CloneUsed(m: Mem, m': Mem, live: set<int>, p: int, c: int, f: int)
    requires BecomesClone(m, m', live, p, c)
    requires FIRST_DATA_FRAME <= f < TOTAL_PAGES && f % 2 == 0 && m'.used[f]
    ensures HasOwner(m', live + {c}, f)
  {
    var fs := DataFrames(m'.tables[c]);
    if f in fs {
      var i :| 0 <= i < |fs| && fs[i] == f;
      assert DataFrame(m', c, i) == f;
    } else {
      var q, i :| q in live && 0 <= i < NUM_PAG_DATA && DataFrame(m, q, i) == f;
      assert DataFrame(m', q, i) == f && q in live + {c};
    }
  }

  lemma CloneOwner(m: Mem, m': Mem, live: set<int>, p: int, c: int, f: int)
    requires BecomesClone(m, m', live, p, c)
    requires FIRST_DATA_FRAME <= f < TOTAL_PAGES && f % 2 == 0 && HasOwner(m', live + {c}, f)
    ensures m'.used[f]
  {
    var q, i :| q in live + {c} && 0 <= i < NUM_PAG_DATA && DataFrame(m', q, i) == f;
    if q != c {
      LiveUsed(m, live, q, i);
    } else {
      assert DataFrames(m'.tables[c])[i] == f;
    }
  }

  lemma CloneFrames(m: Mem, m': Mem, live: set<int>, p: int, c: int)
    requires BecomesClone(m, m', live, p, c)
    ensures FramesOwned(m', live + {c})
  {
    forall f | FIRST_DATA_FRAME <= f < TOTAL_PAGES && f % 2 == 0
      ensures m'.used[f] <==> HasOwner(m', live + {c}, f)
    {
      if m'.used[f] {
        CloneUsed(m, m', live, p, c, f);
      } else if HasOwner(m', live + {c}, f) {
        CloneOwner(m, m', live, p, c, f);
      }
    }
  }

  /** The child's own table is in order. */
  lemma ChildTable(m: Mem, m': Mem, live: set<int>, p: int, c: int)
    requires BecomesClone(m, m', live, p, c)
    ensures forall q :: 0 <= q < NUM_PAG_KERNEL ==> m'.tables[c][q].frame < NUM_PAG_KERNEL
    ensures forall i :: 0 <= i < NUM_PAG_CODE ==> m'.tables[c][CodePage(i)] == Mapped(CodeFrame(i))
    ensures forall i :: 0 <= i < NUM_PAG_DATA ==>
              && m'.tables[c][DataPage(i)] == Mapped(DataFrame(m', c, i))
              && FIRST_DATA_FRAME <= DataFrame(m', c, i) < TOTAL_PAGES && DataFrame(m', c, i) % 2 == 0
    ensures forall q :: DataPage(NUM_PAG_DATA) <= q < TOTAL_PAGES ==> m'.tables[c][q] == EMPTY
  {
    var fs := DataFrames(m'.tables[c]);
    forall i | 0 <= i < NUM_PAG_DATA
      ensures FIRST_DATA_FRAME <= DataFrame(m', c, i) < TOTAL_PAGES && DataFrame(m', c, i) % 2 == 0
    {
      assert Available(m.used, fs[i]);
    }
  }

  /** Adding one orderly table for c. */
  lemma TablesExtend(m: Mem, m': Mem, live: set<int>, c: int)
    requires Sized(m) && Sized(m') && LiveSlots(live) && TablesOwned(m, live) && 0 <= c < NR_TASKS
    requires forall t :: 0 <= t < NR_TASKS && t != c ==> m'.tables[t] == m.tables[t]
    requires forall q :: 0 <= q < NUM_PAG_KERNEL ==> m'.tables[c][q].frame < NUM_PAG_KERNEL
    requires forall i :: 0 <= i < NUM_PAG_CODE ==> m'.tables[c][CodePage(i)] == Mapped(CodeFrame(i))
    requires forall i :: 0 <= i < NUM_PAG_DATA ==>
               && m'.tables[c][DataPage(i)] == Mapped(DataFrame(m', c, i))
               && FIRST_DATA_FRAME <= DataFrame(m', c, i) < TOTAL_PAGES && DataFrame(m', c, i) % 2 == 0
    requires forall q :: DataPage(NUM_PAG_DATA) <= q < TOTAL_PAGES ==> m'.tables[c][q] == EMPTY
    ensures TablesOwned(m', live + {c})
  {
  }

  lemma CloneTables(m: Mem, m': Mem, live: set<int>, p: int, c: int)
    requires BecomesClone(m, m', live, p, c)
    ensures TablesOwned(m', live + {c})
  {
    ChildTable(m, m', live, p, c);
    TablesExtend(m, m', live, c);
  }

  /** A clone keeps ownership, with the child among the living. */
  lemma CloneKeepsOwned(m: Mem, m': Mem, live: set<int>, p: int, c: int)
    requires BecomesClone(m, m', live, p, c)
    ensures Owned(m', live + {c})
  {
    CloneApart(m, m', live, p, c);
    CloneFrames(m, m', live, p, c);
    CloneTables(m, m', live, p, c);
  }

  /** A page that is not p's i-th data page is not mapped to that page's frame. */
  lemma Isolated(m: Mem, live: set<int>, p: int, i: int, t: int, q: int)
    requires Owned(m, live) && p in live && 0 <= i < NUM_PAG_DATA
    requires 0 <= t < NR_TASKS && 0 <= q < TOTAL_PAGES && !(t == p && q == DataPage(i))
    ensures m.tables[t][q].frame != DataFrame(m, p, i)
  {
    if PAG_LOG_INIT_CODE <= q < PAG_LOG_INIT_DATA {
      assert CodePage(q - PAG_LOG_INIT_CODE) == q;
    } else if PAG_LOG_INIT_DATA <= q < DataPage(NUM_PAG_DATA) && t in live {
      assert m.tables[t][q].frame == DataFrame(m, t, q - PAG_LOG_INIT_DATA);
    }
  }

  // ---- exit

  ghost predicate Releasing(m: Mem, m': Mem, live: set<int>, p: int) {
    Owned(m, live) && p in live && Sized(m') && Released(m, m', p)
  }

  lemma ReleaseUsed(m: Mem, m': Mem, live: set<int>, p: int, f: int)
    requires Releasing(m, m', live, p)
    requires FIRST_DATA_FRAME <= f < TOTAL_PAGES && f % 2 == 0 && m'.used[f]
    ensures HasOwner(m', live - {p}, f)
  {
    var q, i :| q in live && 0 <= i < NUM_PAG_DATA && DataFrame(m, q, i) == f;
    assert DataFrames(m.tables[q])[i] == f;
    assert DataFrame(m', q, i) == f && q in live - {p};
  }

  lemma ReleaseOwner(m: Mem, m': Mem, live: set<int>, p: int, f: int)
    requires Releasing(m, m', live, p)
    requires FIRST_DATA_FRAME <= f < TOTAL_PAGES && f % 2 == 0 && HasOwner(m', live - {p}, f)
    ensures m'.used[f]
  {
    var q, i :| q in live - {p} && 0 <= i < NUM_PAG_DATA && DataFrame(m', q, i) == f;
    assert DataFrame(m, q, i) == f && HasOwner(m, live, f);
    if f in DataFrames(m.tables[p]) {
      var j := FrameIndex(m, p, f);
    }
  }

  lemma FrameIndex(m: Mem, p: int, f: int) returns (j: int)
    requires Sized(m) && 0 <= p < NR_TASKS && f in DataFrames(m.tables[p])
    ensures 0 <= j < NUM_PAG_DATA && DataFrame(m, p, j) == f
  {
    var fs := DataFrames(m.tables[p]);
    j :| 0 <= j < |fs| && fs[j] == f;
  }

  /** A live process's data frames lie above the code frames, so exit never frees those. */
  lemma DataAboveCode(m: Mem, live: set<int>, p: int, f: int)
    requires Owned(m, live) && p in live && f in DataFrames(m.tables[p])
    ensures FIRST_DATA_FRAME <= f < TOTAL_PAGES && f % 2 == 0
  {
    var j := FrameIndex(m, p, f);
  }

  lemma ReleaseFrames(m: Mem, m': Mem, live: set<int>, p: int)
    requires Releasing(m, m', live, p)
    ensures FramesOwned(m', live - {p})
  {
    forall f | FIRST_DATA_FRAME <= f < TOTAL_PAGES && f % 2 == 0
      ensures m'.used[f] <==> HasOwner(m', live - {p}, f)
    {
      if m'.used[f] {
        ReleaseUsed(m, m', live, p, f);
      } else if HasOwner(m', live - {p}, f) {
        ReleaseOwner(m, m', live, p, f);
      }
    }
    forall f | 0 <= f < FIRST_DATA_FRAME && (f < NUM_PAG_KERNEL || f % 2 == 0)
      ensures m'.used[f]
    {
      if f in DataFrames(m.tables[p]) {
        DataAboveCode(m, live, p, f);
      }
    }
  }

  lemma ReleaseTables(m: Mem, m': Mem, live: set<int>, p: int)
    requires Releasing(m, m', live, p)
    ensures TablesOwned(m', live - {p})
  {
    forall t | 0 <= t < NR_TASKS && t !in live - {p}
      ensures DataUnmapped(m'.tables[t])
    {
      assert t != p ==> m'.tables[t] == m.tables[t];
    }
  }

  lemma ReleaseApart(m: Mem, m': Mem, live: set<int>, p: int)
    requires Releasing(m, m', live, p)
    ensures OwnersApart(m', live - {p})
  {
    forall q, i, r, j | q in live - {p} && r in live - {p} && 0 <= i < NUM_PAG_DATA && 0 <= j < NUM_PAG_DATA
      && DataFrame(m', q, i) == DataFrame(m', r, j)
      ensures q == r && i == j
    {
      assert DataFrame(m, q, i) == DataFrame(m, r, j);
    }
  }

  /** Exit keeps ownership, without the exiting process. */
  lemma ReleaseKeepsOwned(m: Mem, m': Mem, live: set<int>, p: int)
    requires Releasing(m, m', live, p)
    ensures Owned(m', live - {p})
  {
    ReleaseFrames(m, m', live, p);
    ReleaseTables(m, m', live, p);
    ReleaseApart(m, m', live, p);
  }

  // ---- capacity

  ghost function FramesOf(m: Mem, p: int): set<int>
    requires Sized(m) && 0 <= p < NR_TASKS
  {
    Elements(DataFrames(m.tables[p]))
  }

  ghost function AllDataFrames(m: Mem, live: set<int>): set<int>
    requires Sized(m) && LiveSlots(live)
  {
    set p, i | p in live && 0 <= i < NUM_PAG_DATA :: DataFrame(m, p, i)
  }

  /** One more process adds its own twenty frames. */
  lemma AddProcess(m: Mem, rest: set<int>, p: int)
    requires Sized(m) && LiveSlots(rest) && 0 <= p < NR_TASKS
    ensures AllDataFrames(m, rest + {p}) == AllDataFrames(m, rest) + FramesOf(m, p)
  {
    forall f | f in FramesOf(m, p)
      ensures f in AllDataFrames(m, rest + {p})
    {
      var i := FrameIndex(m, p, f);
      assert p in rest + {p};
    }
    forall f | f in AllDataFrames(m, rest + {p})
      ensures f in AllDataFrames(m, rest) + FramesOf(m, p)
    {
      var q, i :| q in rest + {p} && 0 <= i < NUM_PAG_DATA && DataFrame(m, q, i) == f;
      assert DataFrames(m.tables[q])[i] == f;
    }
  }

  lemma ProcessesApart(m: Mem, rest: set<int>, p: int)
    requires Sized(m) && LiveSlots(rest) && 0 <= p < NR_TASKS && p !in rest && OwnersApart(m, rest + {p})
    ensures AllDataFrames(m, rest) !! FramesOf(m, p)
    ensures |FramesOf(m, p)| == NUM_PAG_DATA
  {
    forall f | f in AllDataFrames(m, rest)
      ensures f !in FramesOf(m, p)
    {
      var q, i :| q in rest && 0 <= i < NUM_PAG_DATA && DataFrame(m, q, i) == f;
      assert q in rest + {p} && p in rest + {p};
      if f in FramesOf(m, p) {
        var j := FrameIndex(m, p, f);
      }
    }
    var fs := DataFrames(m.tables[p]);
    ElementCount(fs);
    assert NoRepeat(fs) by {
      assert p in rest + {p};
      assert forall i :: 0 <= i < NUM_PAG_DATA ==> fs[i] == DataFrame(m, p, i);
    }
  }

  lemma {:induction false} DataFrameCount(m: Mem, live: set<int>)
    requires Sized(m) && LiveSlots(live) && OwnersApart(m, live)
    ensures |AllDataFrames(m, live)| == NUM_PAG_DATA * |live|
    decreases |live|
  {
    if live == {} {
      assert AllDataFrames(m, live) == {};
    } else {
      var p := Pick(live);
      var rest := live - {p};
      assert live == rest + {p};
      DataFrameCount(m, rest);
      AddProcess(m, rest, p);
      ProcessesApart(m, rest, p);
    }
  }

  /** Free even frames number 384 - 8 - 20 * processes. */
  lemma Capacity(m: Mem, live: set<int>)
    requires Owned(m, live)
    ensures |AvailableSet(m.used)| == 384 - 8 - 20 * |live|
  {
    var even := EvenFrames(TOTAL_PAGES - NUM_PAG_KERNEL);
    var code := EvenFrames(FIRST_DATA_FRAME - NUM_PAG_KERNEL);
    var data := AllDataFrames(m, live);
    EvenCount(TOTAL_PAGES - NUM_PAG_KERNEL);
    EvenCount(FIRST_DATA_FRAME - NUM_PAG_KERNEL);
    DataFrameCount(m, live);
    forall f
      ensures f in even <==> f in AvailableSet(m.used) || f in code || f in data
      ensures f in data ==> f !in code && f !in AvailableSet(m.used)
    {
      FrameKinds(m, live, f);
    }
    assert even == AvailableSet(m.used) + code + data;
    assert |even| == |AvailableSet(m.used) + code| + |data|;
  }

  /** An even frame is available, a code frame, or somebody's data frame. */
  lemma FrameKinds(m: Mem, live: set<int>, f: int)
    requires Owned(m, live)
    ensures var code := EvenFrames(FIRST_DATA_FRAME - NUM_PAG_KERNEL);
            var data := AllDataFrames(m, live);
            && (f in EvenFrames(TOTAL_PAGES - NUM_PAG_KERNEL) <==> f in AvailableSet(m.used) || f in code || f in data)
            && (f in data ==> f !in code && f !in AvailableSet(m.used))
  {
    if f in AllDataFrames(m, live) {
      var p, i :| p in live && 0 <= i < NUM_PAG_DATA && DataFrame(m, p, i) == f;
      assert HasOwner(m, live, f);
    }
  }

  // ---- start-up

  /** In the first user state init owns every user frame in use. */
  lemma BootOwned(m: Mem, init: nat)
    requires Sized(m) && init < NR_TASKS && BootMem(m, init)
    ensures Owned(m, {init})
  {
    forall f | FIRST_DATA_FRAME <= f < TOTAL_PAGES && f % 2 == 0
      ensures m.used[f] <==> HasOwner(m, {init}, f)
    {
      if m.used[f] {
        assert DataFrame(m, init, (f - FIRST_DATA_FRAME) / 2) == f;
      }
    }
    forall t | 0 <= t < NR_TASKS && t != init
      ensures DataUnmapped(m.tables[t])
    {
      assert KernelTable(m.tables[t]);
    }
  }
}
