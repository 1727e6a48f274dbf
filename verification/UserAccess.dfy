/** Pointers from user mode: what access_ok accepts, and what the page table then lets the kernel touch. */
module UserAccess {
  import opened Word32
  import opened Copy
  import opened Paging
  import opened AddressSpace
  import Ownership

  const USER_FIRST_PAGE := PAG_LOG_INIT_CODE
  const LAST_USER_PAGE := 283

  /**
    access_ok with a null task, on 32-bit unsigned arithmetic. The case for writing has no break, so a
    range that fails it still gets the test for reading.
   */
  predicate AccessOk(write: bool, addr: int, size: int) {
    var first := addr / PAGE_SIZE;
    var last := Wrap32(addr + size) / PAGE_SIZE;
    && first <= last
    && (|| (write && PAG_LOG_INIT_DATA <= first && last <= USER_FIRST_PAGE + NUM_PAG_CODE + NUM_PAG_DATA)
        || (USER_FIRST_PAGE <= first && last <= USER_FIRST_PAGE + NUM_PAG_CODE + NUM_PAG_DATA))
  }

  /**
    For reading and for writing alike, an accepted range does not wrap, but it may lie in the code pages
    and may reach into page 284, one past the user's last page.
   */
  lemma AccessOkRange(write: bool, addr: int, size: int)
    requires 0 <= addr < TWO32 && 0 <= size < TWO32 / 2
    ensures AccessOk(write, addr, size) <==>
            0x100000 <= addr && addr + size < 285 * 4096
  {
    if addr + size >= TWO32 {
      WrapOnce(addr + size);
    }
  }

  lemma WrapOnce(x: int)
    requires TWO32 <= x < 2 * TWO32
    ensures Wrap32(x) == x - TWO32
  {
  }

  // ---- user memory through the page table

  /** All n bytes from va on are mapped. */
  ghost predicate Readable(pt: seq<Entry>, va: int, n: int) {
    forall a :: va <= a < va + n ==> Accessible(pt, a)
  }

  function ByteAt(pt: seq<Entry>, ram: seq<byte>, va: int): byte
    requires |ram| == RAM_SIZE && Accessible(pt, va)
  {
    ram[Translate(pt, va)]
  }

  /** The n bytes that a user program sees from va on. */
  ghost function Bytes(pt: seq<Entry>, ram: seq<byte>, va: int, n: nat): (bs: seq<byte>)
    requires |ram| == RAM_SIZE && Readable(pt, va, n)
    ensures |bs| == n && forall i :: 0 <= i < n ==> bs[i] == ByteAt(pt, ram, va + i)
  {
    seq(n, i requires 0 <= i < n => ByteAt(pt, ram, va + i))
  }

  lemma BytesMore(pt: seq<Entry>, ram: seq<byte>, va: int, n: nat, k: nat)
    requires |ram| == RAM_SIZE && Readable(pt, va, n) && Readable(pt, va + n, k)
    ensures Readable(pt, va, n + k) && Bytes(pt, ram, va, n + k) == Bytes(pt, ram, va, n) + Bytes(pt, ram, va + n, k)
  {
  }

  /** A process's table: code and data mapped, the copy window not. */
  predicate UserTable(pt: seq<Entry>) {
    && |pt| == TOTAL_PAGES
    && (forall q :: USER_FIRST_PAGE <= q <= LAST_USER_PAGE ==> pt[q].present && pt[q].frame < TOTAL_PAGES)
    && pt[LAST_USER_PAGE + 1] == EMPTY
  }

  /** Every process of a plain run has such a table. */
  lemma OwnedUserTable(m: Mem, live: set<int>, p: int)
    requires Ownership.Owned(m, live) && p in live
    ensures UserTable(m.tables[m.dir[p]])
  {
    forall q | USER_FIRST_PAGE <= q <= LAST_USER_PAGE
      ensures m.tables[p][q].present && m.tables[p][q].frame < TOTAL_PAGES
    {
      if q < PAG_LOG_INIT_DATA {
        assert m.tables[p][CodePage(q - PAG_LOG_INIT_CODE)].present;
      } else {
        assert m.tables[p][DataPage(q - PAG_LOG_INIT_DATA)] == Mapped(Ownership.DataFrame(m, p, q - PAG_LOG_INIT_DATA));
      }
    }
  }

  /** Does an accepted range touch page 284? */
  predicate ReachesWindow(buffer: int, nbytes: int) {
    nbytes > 0 && buffer + nbytes > 284 * 4096
  }

  /** What access_ok accepts is mapped iff it does not reach into page 284. */
  lemma ReadableIff(pt: seq<Entry>, write: bool, buffer: int, nbytes: int)
    requires UserTable(pt) && 0 <= buffer < TWO32 && 0 <= nbytes < TWO32 / 2 && AccessOk(write, buffer, nbytes)
    ensures Readable(pt, buffer, nbytes) <==> !ReachesWindow(buffer, nbytes)
  {
    AccessOkRange(write, buffer, nbytes);
    if ReachesWindow(buffer, nbytes) {
      var last := buffer + nbytes - 1;
      assert last / PAGE_SIZE == LAST_USER_PAGE + 1;
      assert !Accessible(pt, last);
    } else {
      forall a | buffer <= a < buffer + nbytes
        ensures Accessible(pt, a)
      {
        assert USER_FIRST_PAGE <= a / PAGE_SIZE <= LAST_USER_PAGE;
      }
    }
  }

  /** For example, 5000 bytes from the start of the last data page pass access_ok and cannot be read. */
  lemma AcceptedButUnreadable(pt: seq<Entry>)
    requires UserTable(pt)
    ensures AccessOk(false, 283 * 4096, 5000) && !Readable(pt, 283 * 4096, 5000)
  {
    ReadableIff(pt, false, 283 * 4096, 5000);
  }
}
