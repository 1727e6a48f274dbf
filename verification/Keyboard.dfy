/** The keyboard ring: keyboard_routine writes it from the interrupt, sys_getKey reads it. */
module Keyboard {
  import opened Errno
  import opened Word32
  import opened Tasks
  import opened Copy
  import Paging
  import opened AddressSpace
  import opened UserAccess

  const CBUFFER_SIZE := 256

  /** The newest of `writes` stored keys that shares a ring cell with key number r. */
  function Latest(r: nat, writes: nat): (k: nat)
    requires r < writes
    ensures r <= k < writes && k % CBUFFER_SIZE == r % CBUFFER_SIZE && writes <= k + CBUFFER_SIZE
    decreases writes - r
  {
    assert (r + CBUFFER_SIZE) % CBUFFER_SIZE == r % CBUFFER_SIZE;
    if r + CBUFFER_SIZE < writes then Latest(r + CBUFFER_SIZE, writes) else r
  }

  /** The exact condition under which the ring is a queue: at most 256 keys are pending. */
  lemma LatestIsNext(r: nat, writes: nat)
    requires r < writes
    ensures Latest(r, writes) == r <==> writes - r <= CBUFFER_SIZE
  {
  }

  class Ring {
    const buffer: array<byte>
    var rpointer: nat
    var wpointer: nat
    var bwritten: nat

    /** All keys stored so far, all keys delivered so far, and the most that were ever pending. */
    ghost var stored: seq<byte>
    ghost var delivered: seq<byte>
    ghost var peak: nat

    ghost predicate Valid()
      reads this, buffer
    {
      && buffer.Length == CBUFFER_SIZE
      && |delivered| <= |stored|
      && wpointer == |stored| % CBUFFER_SIZE
      && rpointer == |delivered| % CBUFFER_SIZE
      && bwritten == |stored| - |delivered| <= peak
      && (forall k :: 0 <= k < |stored| && |stored| <= k + CBUFFER_SIZE ==> buffer[k % CBUFFER_SIZE] == stored[k])
      && (peak <= CBUFFER_SIZE ==> delivered == stored[..|delivered|])
    }

    constructor ()
      ensures Valid() && stored == [] && delivered == [] && peak == 0
      ensures fresh(buffer)
    {
      buffer := new byte[CBUFFER_SIZE](_ => 0);
      rpointer, wpointer, bwritten := 0, 0, 0;
      stored, delivered, peak := [], [], 0;
    }

    /** keyboard_routine: codes with the top bit set store the character of the lower seven. */
    method KeyboardRoutine(code: nat, charMap: seq<byte>)
      requires Valid() && code < 256 && code % 128 < |charMap|
      modifies this, buffer
      ensures Valid() && delivered == old(delivered)
      ensures stored == if code >= 128 then old(stored) + [charMap[code % 128]] else old(stored)
      ensures peak == if code >= 128 && bwritten > old(peak) then bwritten else old(peak)
    {
      if code >= 128 {
        if wpointer < CBUFFER_SIZE {
          buffer[wpointer] := charMap[code % 128];
          CellsDiffer(|stored|);
          wpointer := (wpointer + 1) % CBUFFER_SIZE;
          bwritten := bwritten + 1;
          stored := stored + [charMap[code % 128]];
          peak := if bwritten > peak then bwritten else peak;
        }
      }
    }

    /** The cell being written is none of those of the 255 keys before it. */
    static lemma CellsDiffer(n: nat)
      ensures forall k :: 0 <= k < n && n < k + CBUFFER_SIZE ==> k % CBUFFER_SIZE != n % CBUFFER_SIZE
      ensures (n % CBUFFER_SIZE + 1) % CBUFFER_SIZE == (n + 1) % CBUFFER_SIZE
    {
      forall k | 0 <= k < n && n < k + CBUFFER_SIZE
        ensures k % CBUFFER_SIZE != n % CBUFFER_SIZE
      {
        assert k == k / CBUFFER_SIZE * CBUFFER_SIZE + k % CBUFFER_SIZE;
        assert n == n / CBUFFER_SIZE * CBUFFER_SIZE + n % CBUFFER_SIZE;
      }
    }

    /** The pointer passes the checks of sys_getKey, and there is a key to deliver. */
    ghost predicate Wanted(b: int)
      reads this
    {
      |delivered| < |stored| && 0x100000 <= b && b + 1 < 285 * 4096
    }

    /**
      sys_getKey by slot p: always the newest key in the cell, which is the next one while peak <= 256.
      It faults, with the ring as it was, iff the accepted pointer is not mapped.
     */
    method GetKey(mem: Memory, p: nat, b: nat) returns (r: int, ch: byte, fault: bool)
      requires Valid() && mem.Valid() && p < NR_TASKS && b < TWO32 && buffer != mem.ram
      modifies this, mem.ram
      ensures Valid() && stored == old(stored) && peak == old(peak)
      ensures var pt := mem.tables[mem.dir[p]][..];
              && (fault <==> old(Wanted(b)) && !Accessible(pt, b))
              && (UserTable(pt) ==> (fault <==> old(Wanted(b)) && ReachesWindow(b, 1)))
              && (r == 1 && !fault ==> Accessible(pt, b) && mem.ram[..] == old(mem.ram[..])[Translate(pt, b) := ch])
      ensures !fault ==> r == if |old(delivered)| == |stored| then 0
                              else if b == 0 then -22 else if 0x100000 <= b && b + 1 < 285 * 4096 then 1 else -14
      ensures !fault && r == 1 ==> ch == stored[Latest(|old(delivered)|, |stored|)] && delivered == old(delivered) + [ch]
      ensures !fault && r == 1 && peak <= 256 ==> ch == stored[|old(delivered)|]
      ensures fault || r != 1 ==> delivered == old(delivered) && mem.ram[..] == old(mem.ram[..])
    {
      r, ch, fault := 0, 0, false;
      AccessOkRange(true, b, 1);
      if bwritten == 0 {
        return;
      } else if b == 0 {
        r := -EINVAL;
      } else if !AccessOk(true, b, 1) {
        r := -EFAULT;
      } else {
        var pt := mem.tables[mem.dir[p]];
        OneByte(pt[..], b);
        if !Accessible(pt[..], b) {
          fault := true;
          return;
        }
        ch := TakeKey();
        mem.ram[Translate(pt[..], b)] := ch;
        r := 1;
      }
    }

    /** The key at rpointer leaves the ring. */
    method TakeKey() returns (ch: byte)
      requires Valid() && |delivered| < |stored|
      modifies this
      ensures Valid() && stored == old(stored) && peak == old(peak) && delivered == old(delivered) + [ch]
      ensures ch == stored[Latest(|old(delivered)|, |stored|)]
      ensures peak <= CBUFFER_SIZE ==> ch == stored[|old(delivered)|]
    {
      ghost var n := |delivered|;
      ghost var k := Latest(n, |stored|);
      LatestIsNext(n, |stored|);
      CellsDiffer(n);
      ch := buffer[rpointer];
      assert ch == stored[k];
      rpointer := (rpointer + 1) % CBUFFER_SIZE;
      bwritten := bwritten - 1;
      delivered := delivered + [ch];
    }
  }

  lemma OneByte(pt: seq<Paging.Entry>, b: nat)
    requires b < TWO32 && AccessOk(true, b, 1)
    ensures UserTable(pt) ==> (Accessible(pt, b) <==> !ReachesWindow(b, 1))
  {
    if UserTable(pt) {
      ReadableIff(pt, true, b, 1);
    }
  }

  /** The characters that a sequence of break codes stores. */
  function Typed(codes: seq<nat>, charMap: seq<byte>): (cs: seq<byte>)
    requires forall i :: 0 <= i < |codes| ==> codes[i] % 128 < |charMap|
    ensures |cs| == |codes| && forall i :: 0 <= i < |cs| ==> cs[i] == charMap[codes[i] % 128]
  {
    seq(|codes|, i requires 0 <= i < |codes| => charMap[codes[i] % 128])
  }

  /**
    From an empty ring, keys typed and not read: the first getKey delivers the newest key in the first
    cell. With 257 keys that is key 256 and not key 0; with at most 256 it is key 0.
   */
  method TypeThenRead(codes: seq<nat>, charMap: seq<byte>, mem: Memory, p: nat, b: nat) returns (ch: byte)
    requires codes != [] && forall i :: 0 <= i < |codes| ==> 128 <= codes[i] < 256 && codes[i] % 128 < |charMap|
    requires mem.Valid() && p < NR_TASKS && 0 < b < TWO32 && AccessOk(true, b, 1) && Accessible(mem.tables[mem.dir[p]][..], b)
    modifies mem.ram
    ensures ch == Typed(codes, charMap)[Latest(0, |codes|)]
    ensures |codes| <= 256 ==> ch == Typed(codes, charMap)[0]
    ensures |codes| == 257 ==> ch == Typed(codes, charMap)[256]
  {
    var ring := new Ring();
    for i := 0 to |codes|
      invariant ring.Valid() && fresh(ring) && fresh(ring.buffer)
      invariant ring.stored == Typed(codes, charMap)[..i] && ring.delivered == []
    {
      ring.KeyboardRoutine(codes[i], charMap);
    }
    var r, fault;
    r, ch, fault := ring.GetKey(mem, p, b);
  }
}
