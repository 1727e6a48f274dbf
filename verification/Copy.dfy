/** copy_data (and its twins copy_from_user and copy_to_user) of utils.c: words first, then bytes. */
module Copy {

  newtype byte = x: int | 0 <= x < 256

  /** The first n bytes have been copied and nothing else has changed. */
  ghost predicate Copied(m0: seq<byte>, m: seq<byte>, start: nat, dest: nat, n: nat) {
    && |m| == |m0| && start + n <= |m0| && dest + n <= |m0|
    && (forall a :: 0 <= a < |m| && !(dest <= a < dest + n) ==> m[a] == m0[a])
    && (forall a :: dest <= a < dest + n ==> m[a] == m0[start + (a - dest)])
  }

  /** Reading ahead of the writes, each byte still has its old value when it is copied. */
  lemma CopiedNext(m0: seq<byte>, m: seq<byte>, start: nat, dest: nat, n: nat)
    requires Copied(m0, m, start, dest, n)
    requires start + n < |m0| && dest + n < |m0|
    requires dest <= start || start + n < dest
    ensures Copied(m0, m[dest + n := m[start + n]], start, dest, n + 1)
  {
    assert m[start + n] == m0[start + n];
  }

  /** One 32-bit move: all four bytes are read before any is written. */
  method MoveWord(mem: array<byte>, p: nat, q: nat)
    requires p + 4 <= mem.Length && q + 4 <= mem.Length
    modifies mem
    ensures mem[..] == old(mem[..])[q := old(mem[p])][q + 1 := old(mem[p + 1])][q + 2 := old(mem[p + 2])][q + 3 := old(mem[p + 3])]
  {
    mem[q], mem[q + 1], mem[q + 2], mem[q + 3] := mem[p], mem[p + 1], mem[p + 2], mem[p + 3];
  }

  lemma CopiedWord(m0: seq<byte>, m: seq<byte>, start: nat, dest: nat, n: nat)
    requires Copied(m0, m, start, dest, n)
    requires start + n + 4 <= |m0| && dest + n + 4 <= |m0|
    requires dest <= start || start + n + 4 <= dest
    ensures var p, q := start + n, dest + n;
            Copied(m0, m[q := m[p]][q + 1 := m[p + 1]][q + 2 := m[p + 2]][q + 3 := m[p + 3]], start, dest, n + 4)
  {
    var p, q := start + n, dest + n;
    CopiedNext(m0, m, start, dest, n);
    var m1 := m[q := m[p]];
    CopiedNext(m0, m1, start, dest, n + 1);
    var m2 := m1[q + 1 := m1[p + 1]];
    CopiedNext(m0, m2, start, dest, n + 2);
    var m3 := m2[q + 2 := m2[p + 2]];
    CopiedNext(m0, m3, start, dest, n + 3);
    assert m1[p + 1] == m[p + 1] && m2[p + 2] == m[p + 2] && m3[p + 3] == m[p + 3];
  }

  /** Where the copy of `size` bytes stands when `left` are to go. */
  ghost predicate Underway(m0: seq<byte>, m: seq<byte>, start: nat, dest: nat, size: int, left: int) {
    left <= size && if size < 0 then left == size && m == m0 else 0 <= left && Copied(m0, m, start, dest, size - left)
  }

  /** while (size > 4): four bytes at a time. */
  method CopyWords(mem: array<byte>, start: nat, dest: nat, size: int) returns (left: int)
    requires size >= 0 ==> start + size <= mem.Length && dest + size <= mem.Length
    requires dest <= start || start + size <= dest
    modifies mem
    ensures left <= 4 && Underway(old(mem[..]), mem[..], start, dest, size, left)
  {
    ghost var m0 := mem[..];
    var p, q := start, dest;
    left := size;
    while left > 4
      invariant Underway(m0, mem[..], start, dest, size, left)
      invariant p == start + (size - left) && q == dest + (size - left)
    {
      CopiedWord(m0, mem[..], start, dest, size - left);
      MoveWord(mem, p, q);
      p, q, left := p + 4, q + 4, left - 4;
    }
  }

  /** while (size > 0): the last bytes one by one. */
  method CopyBytes(mem: array<byte>, start: nat, dest: nat, ghost m0: seq<byte>, size: int, rest: int)
    requires size >= 0 ==> start + size <= mem.Length && dest + size <= mem.Length
    requires dest <= start || start + size <= dest
    requires Underway(m0, mem[..], start, dest, size, rest)
    modifies mem
    ensures Underway(m0, mem[..], start, dest, size, if size < 0 then size else 0)
  {
    var p, q, left := start + (size - rest), dest + (size - rest), rest;
    while left > 0
      invariant Underway(m0, mem[..], start, dest, size, left)
      invariant p == start + (size - left) && q == dest + (size - left)
    {
      CopiedNext(m0, mem[..], start, dest, size - left);
      mem[q] := mem[p];
      p, q, left := p + 1, q + 1, left - 1;
    }
  }

  /**
    The two loops copy the source range exactly, provided the ranges are disjoint or the copy moves
    down; the bytes outside the destination are not touched.
   */
  method CopyData(mem: array<byte>, start: nat, dest: nat, size: int)
    requires size >= 0 ==> start + size <= mem.Length && dest + size <= mem.Length
    requires dest <= start || start + size <= dest
    modifies mem
    ensures size <= 0 ==> mem[..] == old(mem[..])
    ensures size > 0 ==> Copied(old(mem[..]), mem[..], start, dest, size)
  {
    var left := CopyWords(mem, start, dest, size);
    CopyBytes(mem, start, dest, old(mem[..]), size, left);
  }
}
