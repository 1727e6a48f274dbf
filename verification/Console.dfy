/**
  sys_write: the buffer is read through the caller's page table and goes to the screen in 512-byte
  chunks by way of a buffer on the kernel stack.
 */
module Console {
  import opened Errno
  import opened Tasks
  import opened Copy
  import opened Paging
  import opened AddressSpace
  import opened UserAccess
  import opened Word32

  const TAM_BUFFER := 512

  // ---- copy_from_user

  /** One load of n bytes by the processor faults if a byte is not mapped. */
  method Load(pt: array<Entry>, ram: array<byte>, va: nat, local: array<byte>, at: nat, n: nat) returns (fault: bool)
    requires ram.Length == RAM_SIZE && at + n <= local.Length && local != ram
    modifies local
    ensures fault <==> !Readable(pt[..], va, n)
    ensures !fault ==> local[..at + n] == old(local[..at]) + Bytes(pt[..], ram[..], va, n)
  {
    var i := 0;
    while i < n
      invariant 0 <= i <= n && Readable(pt[..], va, i)
    {
      if !Accessible(pt[..], va + i) {
        return true;
      }
      i := i + 1;
    }
    for j := 0 to n
      invariant local[..at + j] == old(local[..at]) + Bytes(pt[..], ram[..], va, j)
    {
      local[at + j] := ram[Translate(pt[..], va + j)];
      BytesMore(pt[..], ram[..], va, j, 1);
    }
    fault := false;
  }

  /** copy_from_user: words while more than four bytes are left, then bytes. */
  method CopyFromUser(pt: array<Entry>, ram: array<byte>, va: nat, local: array<byte>, size: nat) returns (fault: bool)
    requires ram.Length == RAM_SIZE && size <= local.Length && local != ram
    modifies local
    ensures fault <==> !Readable(pt[..], va, size)
    ensures !fault ==> local[..size] == Bytes(pt[..], ram[..], va, size)
  {
    var left := size;
    while left > 4
      invariant 0 <= left <= size && Readable(pt[..], va, size - left)
      invariant local[..size - left] == Bytes(pt[..], ram[..], va, size - left)
    {
      fault := Load(pt, ram, va + (size - left), local, size - left, 4);
      if fault {
        return;
      }
      BytesMore(pt[..], ram[..], va, size - left, 4);
      left := left - 4;
    }
    while left > 0
      invariant 0 <= left <= size && Readable(pt[..], va, size - left)
      invariant local[..size - left] == Bytes(pt[..], ram[..], va, size - left)
    {
      fault := Load(pt, ram, va + (size - left), local, size - left, 1);
      if fault {
        return;
      }
      BytesMore(pt[..], ram[..], va, size - left, 1);
      left := left - 1;
    }
    fault := false;
  }

  // ---- sys_write

  /** The range that access_ok accepts. */
  predicate Accepts(buffer: int, nbytes: int) {
    0x100000 <= buffer && buffer + nbytes < 285 * 4096
  }

  /** Whole chunks before the first one that cannot be read have been printed, and nothing else. */
  ghost predicate StoppedAt(pt: seq<Entry>, ram: seq<byte>, buffer: nat, nbytes: nat,
                            before: seq<byte>, screen: seq<byte>, chunks: nat)
    requires |ram| == RAM_SIZE
  {
    var done := 512 * chunks;
    && done < nbytes && Printed(pt, ram, buffer, done, before, screen)
    && !Readable(pt, buffer + done, if nbytes - done > 512 then 512 else nbytes - done)
  }

  /** The first n bytes of the buffer are on the screen. */
  ghost predicate Printed(pt: seq<Entry>, ram: seq<byte>, buffer: int, n: nat, before: seq<byte>, screen: seq<byte>)
    requires |ram| == RAM_SIZE
  {
    Readable(pt, buffer, n) && screen == before + Bytes(pt, ram, buffer, n)
  }

  class Terminal {
    const mem: Memory
    var screen: seq<byte>

    constructor (mem: Memory)
      ensures this.mem == mem && screen == []
    {
      this.mem := mem;
      screen := [];
    }

    /** sys_write_console: printc for each byte. */
    method WriteConsole(buffer: array<byte>, size: nat) returns (r: int)
      requires size <= buffer.Length
      modifies `screen
      ensures r == size && screen == old(screen) + buffer[..size]
    {
      for i := 0 to size
        invariant screen == old(screen) + buffer[..i]
      {
        screen := screen + [buffer[i]];
      }
      r := size;
    }

    /** One chunk: copy_from_user into the local buffer, then the console. */
    method WriteChunk(pt: array<Entry>, va: nat, local: array<byte>, size: nat) returns (r: int, fault: bool)
      requires mem.Valid() && size <= local.Length && local != mem.ram
      modifies local, `screen
      ensures fault <==> !Readable(pt[..], va, size)
      ensures if fault then screen == old(screen) else r == size && screen == old(screen) + Bytes(pt[..], mem.ram[..], va, size)
    {
      r := 0;
      fault := CopyFromUser(pt, mem.ram, va, local, size);
      if !fault {
        r := WriteConsole(local, size);
      }
    }

    /** The chunk loop of sys_write. */
    method WriteAll(pt: array<Entry>, buffer: nat, nbytes: nat) returns (r: int, fault: bool, ghost chunks: nat)
      requires mem.Valid()
      modifies `screen
      ensures fault <==> !Readable(pt[..], buffer, nbytes)
      ensures !fault ==> r == nbytes && screen == old(screen) + Bytes(pt[..], mem.ram[..], buffer, nbytes)
      ensures fault ==> StoppedAt(pt[..], mem.ram[..], buffer, nbytes, old(screen), screen, chunks)
    {
      var local := new byte[TAM_BUFFER];
      var left := nbytes;
      r, chunks := 0, 0;
      while left > TAM_BUFFER
        invariant 0 <= left <= nbytes && nbytes - left == TAM_BUFFER * chunks
        invariant Printed(pt[..], mem.ram[..], buffer, nbytes - left, old(screen), screen)
      {
        r, fault := WriteNext(pt, buffer, nbytes - left, local, TAM_BUFFER, old(screen));
        if fault {
          return;
        }
        left, chunks := left - r, chunks + 1;
      }
      r, fault := 0, false;
      if left > 0 {
        r, fault := WriteNext(pt, buffer, nbytes - left, local, left, old(screen));
        if fault {
          return;
        }
        left := left - r;
      }
      r := nbytes - left;
    }

    /** One chunk after `done` bytes have been printed. */
    method WriteNext(pt: array<Entry>, buffer: nat, done: nat, local: array<byte>, size: nat, ghost before: seq<byte>)
      returns (r: int, fault: bool)
      requires mem.Valid() && size <= local.Length && local != mem.ram
      requires Printed(pt[..], mem.ram[..], buffer, done, before, screen)
      modifies local, `screen
      ensures fault <==> !Readable(pt[..], buffer + done, size)
      ensures fault ==> Printed(pt[..], mem.ram[..], buffer, done, before, screen)
      ensures !fault ==> r == size && Printed(pt[..], mem.ram[..], buffer, done + size, before, screen)
    {
      r, fault := WriteChunk(pt, buffer + done, local, size);
      if !fault {
        BytesMore(pt[..], mem.ram[..], buffer, done, size);
      }
    }

    /**
      check_fd, then sys_write by slot p. An accepted write prints the whole buffer and returns nbytes iff
      every byte of it is mapped; otherwise it faults after the chunks before.
     */
    method SysWrite(p: nat, fd: int, buffer: nat, nbytes: int) returns (r: int, fault: bool, ghost chunks: nat)
      requires mem.Valid() && p < NR_TASKS && buffer < TWO32 && nbytes < TWO32 / 2
      modifies `screen
      ensures fd != 1 ==> !fault && r == -9 && screen == old(screen)
      ensures fd == 1 && nbytes < 0 ==> !fault && r == -22 && screen == old(screen)
      ensures fd == 1 && nbytes >= 0 && !Accepts(buffer, nbytes) ==> !fault && r == -14 && screen == old(screen)
      ensures fd == 1 && nbytes >= 0 && Accepts(buffer, nbytes) ==>
                var pt := mem.tables[mem.dir[p]][..];
                && (fault <==> !Readable(pt, buffer, nbytes))
                && (UserTable(pt) ==> (fault <==> ReachesWindow(buffer, nbytes)))
                && (!fault ==> r == nbytes && |screen| == |old(screen)| + r)
                && (!fault ==> screen == old(screen) + Bytes(pt, mem.ram[..], buffer, nbytes))
                && (fault ==> StoppedAt(pt, mem.ram[..], buffer, nbytes, old(screen), screen, chunks))
    {
      r, fault, chunks := 0, false, 0;
      if nbytes >= 0 {
        AccessOkRange(false, buffer, nbytes);
      }
      if fd != 1 {
        r := -EBADF;
      } else if nbytes < 0 {
        r := -EINVAL;
      } else if !AccessOk(false, buffer, nbytes) {
        r := -EFAULT;
      } else {
        var pt := mem.tables[mem.dir[p]];
        if UserTable(pt[..]) {
          ReadableIff(pt[..], false, buffer, nbytes);
        }
        r, fault, chunks := WriteAll(pt, buffer, nbytes);
      }
    }
  }
}
