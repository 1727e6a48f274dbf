/**
  The boot loader's read loop (read_it and read_track in bootsect.S).

  Registers and memory words are 16-bit values; every addition, subtraction and shift wraps.
  A call of the BIOS is recorded as a `Read`: cylinder, head, first sector, count, and the buffer es:bx.
 */
module Boot {

  const WORD := 0x1_0000
  const SYSSEG := 0x1000
  const SECTORS := 18
  const SECTOR_SIZE := 512

  type word = x: int | 0 <= x < 0x1_0000

  function Add16(a: word, b: word): word {
    (a + b) % WORD
  }

  predicate Carry16(a: word, b: word) {
    a + b >= WORD
  }

  function Sub16(a: word, b: word): word {
    (a - b) % WORD
  }

  function Shl9(a: word): word {
    (a * 512) % WORD
  }

  function Shr9(a: word): word {
    a / 512
  }

  /** add ah, #0x10: the carry out of the high byte is lost. */
  function AddHigh(ax: word): word {
    (ax / 256 + 0x10) % 256 * 256 + ax % 256
  }

  datatype Read = Read(cylinder: int, head: int, sector: int, count: int, es: word, bx: word)

  /** What the loop works on. */
  datatype Regs = Regs(sread: word, head: word, track: word, es: word, bx: word)

  /** The number of sectors to read next: to the end of the track, or only to the end of the segment. */
  function NextCount(r: Regs): word {
    var ax := Sub16(SECTORS, r.sread);
    var cx := Shl9(ax);
    if Carry16(cx, r.bx) && Add16(cx, r.bx) != 0 then Shr9(Sub16(0, r.bx)) else ax
  }

  /** read_track: sector sread + 1, cylinder in ch, head in dh. */
  function BiosCall(r: Regs, count: word): Read {
    Read(r.track % 256, r.head % 2, (r.sread + 1) % 256, count % 256, r.es, r.bx)
  }

  /** The registers after a read of `count` sectors. */
  function Advance(r: Regs, count: word): Regs {
    var ax := Add16(count, r.sread);
    var r1 :=
      if ax == SECTORS then
        var other := Sub16(1, r.head);
        r.(sread := 0, head := other, track := if other == 0 then Add16(r.track, 1) else r.track)
      else r.(sread := ax);
    var cx := Shl9(count);
    if Carry16(r.bx, cx) then r1.(es := AddHigh(r.es), bx := 0) else r1.(bx := Add16(r.bx, cx))
  }

  /** jbe ok1_read: is there still something to load? */
  predicate Continues(r: Regs, syssize: word) {
    Sub16(r.es, SYSSEG) <= syssize
  }

  // ---- what the registers mean

  /** The linear number of the next sector on the disk; the boot sector itself is number 0. */
  function Linear(r: Regs): int {
    r.track * 36 + r.head * 18 + r.sread
  }

  /** The physical address of es:bx. */
  function Address(es: word, bx: word): int {
    es * 16 + bx
  }

  /** What every turn keeps, even after es has wrapped. */
  predicate Sane(r: Regs) {
    r.sread < SECTORS && r.head < 2 && r.bx % SECTOR_SIZE == 0 && r.es % 0x1000 == 0
  }

  /** In step: sector s goes to 0x10000 + 512 * (s - 1), within the segments 0x1000 to 0xF000. */
  predicate InStep(r: Regs) {
    && Sane(r) && r.es >= SYSSEG
    && Address(r.es, r.bx) == 0x10000 + SECTOR_SIZE * (Linear(r) - 1)
  }

  /**
    A BIOS call that a floppy controller can serve: one track, one 64 KB segment, at least one sector.
    It goes on to the end of the track or of the segment, whichever comes first.
   */
  predicate Servable(d: Read) {
    && 1 <= d.sector && 1 <= d.count && d.sector + d.count - 1 <= 18 && d.bx + d.count * 512 <= 0x10000
    && (d.sector + d.count - 1 == 18 || d.bx + d.count * 512 == 0x10000)
  }

  /** The first linear sector a read transfers. */
  function FirstSector(d: Read): int {
    d.cylinder * 36 + d.head * 18 + d.sector - 1
  }

  /** The reads load sectors first, first + 1, ... one after the other, each where it belongs. */
  ghost predicate InOrder(ds: seq<Read>, first: int) {
    ds == [] ||
    (&& Servable(ds[0]) && FirstSector(ds[0]) == first
     && ds[0].es * 16 + ds[0].bx == 0x10000 + 512 * (first - 1)
     && InOrder(ds[1..], first + ds[0].count))
  }

  function Total(ds: seq<Read>): int {
    if ds == [] then 0 else ds[0].count + Total(ds[1..])
  }

  lemma {:induction false} InOrderSnoc(ds: seq<Read>, first: int, d: Read)
    requires InOrder(ds, first) && Servable(d) && FirstSector(d) == first + Total(ds)
    requires Address(d.es, d.bx) == 0x10000 + SECTOR_SIZE * (FirstSector(d) - 1)
    ensures InOrder(ds + [d], first) && Total(ds + [d]) == Total(ds) + d.count
  {
    if ds == [] {
      assert ds + [d] == [d];
    } else {
      InOrderSnoc(ds[1..], first + ds[0].count, d);
      assert (ds + [d])[1..] == ds[1..] + [d];
    }
  }

  // ---- when the wrap-around does not show

  lemma SubExact(a: word, b: word)
    ensures b <= a ==> Sub16(a, b) == a - b
    ensures a == 0 < b ==> Sub16(a, b) == WORD - b
  {
  }

  lemma AddExact(a: word, b: word)
    ensures Add16(a, b) == if Carry16(a, b) then a + b - WORD else a + b
  {
  }

  lemma ShlExact(a: word)
    requires a < 128
    ensures Shl9(a) == a * 512
  {
  }

  /** The count is the smaller of what is left of the track and of the segment. */
  lemma CountExact(r: Regs)
    requires r.sread < SECTORS && r.bx % SECTOR_SIZE == 0
    ensures var n := NextCount(r);
            && 1 <= n <= SECTORS - r.sread
            && r.bx + n * SECTOR_SIZE <= WORD
            && (n == SECTORS - r.sread || r.bx + n * SECTOR_SIZE == WORD)
  {
    var ax := SECTORS - r.sread;
    var k := r.bx / 512;
    assert r.bx == 512 * k;
    SubExact(SECTORS, r.sread);
    ShlExact(ax);
    AddExact(ax * 512, r.bx);
    if Carry16(ax * 512, r.bx) && Add16(ax * 512, r.bx) != 0 {
      SubExact(0, r.bx);
      Quotient(128 - k);
    }
  }

  lemma Quotient(j: int)
    ensures (512 * j) / 512 == j
  {
  }

  /** The disk position is small: 15 segments hold 1920 sectors. */
  lemma TrackSmall(r: Regs)
    requires InStep(r)
    ensures 1 <= Linear(r) <= 1920 && r.track < 54
  {
  }

  lemma ReadServable(r: Regs)
    requires InStep(r)
    ensures var n := NextCount(r);
            var d := BiosCall(r, n);
            Servable(d) && FirstSector(d) == Linear(r) && d.count == n && d.es == r.es && d.bx == r.bx
  {
    CountExact(r);
    TrackSmall(r);
  }

  /** The disk side of a turn. */
  lemma AdvanceDisk(r: Regs)
    requires InStep(r)
    ensures var r' := Advance(r, NextCount(r));
            r'.sread < SECTORS && r'.head < 2 && Linear(r') == Linear(r) + NextCount(r)
  {
    CountExact(r);
    TrackSmall(r);
    var n := NextCount(r);
    AddExact(n, r.sread);
    SubExact(1, r.head);
    AddExact(r.track, 1);
    DiskStep(r, n);
  }

  /** To the next sector, the other side, or the next track. */
  lemma DiskStep(r: Regs, n: word)
    requires r.sread < SECTORS && r.head < 2 && r.track < 54 && n <= SECTORS - r.sread
    requires Add16(n, r.sread) == n + r.sread && Sub16(1, r.head) == 1 - r.head && Add16(r.track, 1) == r.track + 1
    ensures var r' := Advance(r, n);
            r'.sread < SECTORS && r'.head < 2 && Linear(r') == Linear(r) + n
  {
  }

  /** The memory side: bx grows within the segment, or the segment is full and es moves on. */
  lemma AdvanceMemory(r: Regs)
    requires Sane(r)
    ensures var n := NextCount(r);
            var r' := Advance(r, n);
            && (r.bx + n * SECTOR_SIZE < WORD ==> r'.es == r.es && r'.bx == r.bx + n * SECTOR_SIZE)
            && (r.bx + n * SECTOR_SIZE == WORD ==> r'.es == (r.es + 0x1000) % WORD && r'.bx == 0)
  {
    CountExact(r);
    var n := NextCount(r);
    ShlExact(n);
    AddExact(r.bx, n * 512);
    HighByte(r.es);
  }

  lemma HighByte(es: word)
    requires es % 0x1000 == 0
    ensures AddHigh(es) == (es + 0x1000) % WORD
    ensures (es + 0x1000) % WORD == if es == 0xF000 then 0 else es + 0x1000
  {
    var k := es / 0x1000;
    assert es == 0x1000 * k && 0 <= k < 16;
    assert es / 256 == 16 * k && es % 256 == 0;
    assert (16 * k + 16) % 256 == if k == 15 then 0 else 16 * k + 16;
  }

  /** One turn keeps the registers in step until the last segment is full. */
  lemma TurnInStep(r: Regs)
    requires InStep(r)
    ensures var n := NextCount(r);
            var r' := Advance(r, n);
            && Linear(r') == Linear(r) + n
            && if r.es == 0xF000 && r.bx + n * SECTOR_SIZE == WORD then r'.es == 0 && r'.bx == 0
               else InStep(r')
  {
    AdvanceDisk(r);
    AdvanceMemory(r);
    CountExact(r);
    HighByte(r.es);
    StepAddress(r, Advance(r, NextCount(r)), NextCount(r));
  }

  /** The address moves by exactly the bytes read, across a segment boundary too. */
  lemma StepAddress(r: Regs, r': Regs, n: int)
    requires InStep(r) && 0 <= n && r.bx + n * SECTOR_SIZE <= WORD
    requires r'.sread < SECTORS && r'.head < 2 && Linear(r') == Linear(r) + n
    requires r.bx + n * SECTOR_SIZE < WORD ==> r'.es == r.es && r'.bx == r.bx + n * SECTOR_SIZE
    requires r.bx + n * SECTOR_SIZE == WORD ==> r'.es == (if r.es == 0xF000 then 0 else r.es + 0x1000) && r'.bx == 0
    ensures !(r.es == 0xF000 && r.bx + n * SECTOR_SIZE == WORD) ==> InStep(r')
  {
    Multiples(r.bx, r.es, n);
  }

  lemma Multiples(bx: int, es: int, n: int)
    requires bx % 512 == 0 && es % 0x1000 == 0
    ensures (bx + n * 512) % 512 == 0 && (es + 0x1000) % 0x1000 == 0
  {
  }

  /** The sectors loaded when the loop stops: whole segments, up to the one that holds the end. */
  function Wanted(syssize: word): int {
    128 * (syssize / 0x1000 + 1)
  }

  /** The state in which the loop stops: the last wanted segment has just been filled. */
  predicate Finished(r: Regs, syssize: word, total: int) {
    r.bx == 0 && r.es == (0x1000 * (syssize / 0x1000 + 2)) % WORD && total == Wanted(syssize)
  }

  lemma FinishedStops(r: Regs, syssize: word, total: int)
    requires Finished(r, syssize, total) && syssize < 0xF000
    ensures !Continues(r, syssize)
  {
    var q := syssize / 0x1000;
    assert q < 15;
    if q == 14 {
      assert r.es == 0;
    }
  }

  /** A turn from a state that continues leads to one that continues, or finishes. */
  lemma TurnOrFinish(r: Regs, syssize: word, total: int)
    requires InStep(r) && Continues(r, syssize) && Linear(r) == 1 + total && syssize < 0xF000
    ensures var n := NextCount(r);
            var r' := Advance(r, n);
            || (InStep(r') && Continues(r', syssize) && Linear(r') == 1 + total + n)
            || Finished(r', syssize, total + n)
  {
    TurnInStep(r);
    AdvanceMemory(r);
    CountExact(r);
    var n := NextCount(r);
    SubExact(r.es, SYSSEG);
    SegmentEnd(r.es, syssize);
    if r.bx + n * SECTOR_SIZE == WORD && r.es < 0xF000 {
      SubExact(Advance(r, n).es, SYSSEG);
    }
  }

  /** A segment that must be loaded is the last one iff the next would start past syssize. */
  lemma SegmentEnd(es: word, syssize: word)
    requires es % 0x1000 == 0 && SYSSEG <= es && es - SYSSEG <= syssize < 0xF000
    ensures es - SYSSEG + 0x1000 <= syssize || es == 0x1000 * (syssize / 0x1000 + 1)
    ensures es == 0x1000 * (syssize / 0x1000 + 1) ==> (es - SYSSEG) * 16 + WORD == SECTOR_SIZE * Wanted(syssize)
  {
    assert es == 0x1000 * (es / 0x1000);
  }

  /** The loop's invariant: in step and not done, or done. */
  ghost predicate Loading(r: Regs, syssize: word, log: seq<Read>) {
    && InOrder(log, 1)
    && (|| (InStep(r) && Continues(r, syssize) && Linear(r) == 1 + Total(log))
        || (Finished(r, syssize, Total(log)) && !Continues(r, syssize)))
  }

  lemma LoadingTurn(r: Regs, syssize: word, log: seq<Read>)
    requires Loading(r, syssize, log) && Continues(r, syssize) && syssize < 0xF000
    ensures var n := NextCount(r);
            var log' := log + [BiosCall(r, n)];
            && Loading(Advance(r, n), syssize, log')
            && Total(log') > Total(log) && Total(log) <= 1920
  {
    var n := NextCount(r);
    CountExact(r);
    TrackSmall(r);
    ReadServable(r);
    InOrderSnoc(log, 1, BiosCall(r, n));
    TurnOrFinish(r, syssize, Total(log));
    if Finished(Advance(r, n), syssize, Total(log) + n) {
      FinishedStops(Advance(r, n), syssize, Total(log) + n);
    }
  }

  /**
    read_it: every BIOS read is servable, the sectors 1, 2, 3, ... are loaded once and in order to
    0x10000, 0x10200, ..., and the loop stops after the 64 KB segment in which the image ends.
   */
  method ReadIt(syssize: word) returns (log: seq<Read>)
    requires syssize < 0xF000
    ensures InOrder(log, 1) && Total(log) == Wanted(syssize)
  {
    log := [];
    var sread: word, head: word, track: word := 1, 0, 0;
    var es: word, bx: word := SYSSEG, 0;
    var ax: word := Sub16(es, SYSSEG);
    while ax <= syssize
      invariant ax == Sub16(es, SYSSEG)
      invariant Loading(Regs(sread, head, track, es, bx), syssize, log)
      decreases 1921 - Total(log)
    {
      ghost var r := Regs(sread, head, track, es, bx);
      LoadingTurn(r, syssize, log);
      var count := CountSectors(sread, bx);
      log := log + [BiosCall(Regs(sread, head, track, es, bx), count)];
      sread, head, track := NextSector(sread, head, track, count);
      es, bx := NextBuffer(es, bx, count);
      assert Regs(sread, head, track, es, bx) == Advance(r, count);
      ax := Sub16(es, SYSSEG);
    }
  }

  /** ok1_read to ok2_read. */
  method CountSectors(sread: word, bx: word) returns (ax: word)
    ensures forall head, track, es :: ax == NextCount(Regs(sread, head, track, es, bx))
  {
    ax := Sub16(SECTORS, sread);
    var cx := Shl9(ax);
    var carry := Carry16(cx, bx);
    cx := Add16(cx, bx);
    if carry && cx != 0 {
      ax := Sub16(0, bx);
      ax := Shr9(ax);
    }
  }

  /** From the call of read_track to ok3_read. */
  method NextSector(sread: word, head: word, track: word, count: word) returns (sread': word, head': word, track': word)
    ensures forall es, bx :: var r' := Advance(Regs(sread, head, track, es, bx), count);
              sread' == r'.sread && head' == r'.head && track' == r'.track
  {
    var ax := Add16(count, sread);
    head', track' := head, track;
    if ax == SECTORS {
      ax := Sub16(1, head);
      if ax == 0 {
        track' := Add16(track, 1);
      }
      head' := ax;
      ax := 0;
    }
    sread' := ax;
  }

  /** From ok3_read to the jump back. */
  method NextBuffer(es: word, bx: word, count: word) returns (es': word, bx': word)
    ensures forall sread, head, track :: var r' := Advance(Regs(sread, head, track, es, bx), count);
              es' == r'.es && bx' == r'.bx
  {
    var cx := Shl9(count);
    es' := es;
    if Carry16(bx, cx) {
      es', bx' := AddHigh(es), 0;
    } else {
      bx' := Add16(bx, cx);
    }
  }

  // ---- each sector once

  predicate Covers(d: Read, s: int) {
    FirstSector(d) <= s < FirstSector(d) + d.count
  }

  /** Where a read puts sector s. */
  function Target(d: Read, s: int): int {
    Address(d.es, d.bx) + SECTOR_SIZE * (s - FirstSector(d))
  }

  lemma {:induction false} CoversRange(ds: seq<Read>, first: int, i: nat)
    requires InOrder(ds, first) && i < |ds|
    ensures first <= FirstSector(ds[i]) && FirstSector(ds[i]) + ds[i].count <= first + Total(ds)
    ensures Servable(ds[i]) && Address(ds[i].es, ds[i].bx) == 0x10000 + SECTOR_SIZE * (FirstSector(ds[i]) - 1)
  {
    TotalNonNegative(ds, first);
    TotalNonNegative(ds[1..], first + ds[0].count);
    if i > 0 {
      CoversRange(ds[1..], first + ds[0].count, i - 1);
    }
  }

  lemma {:induction false} TotalNonNegative(ds: seq<Read>, first: int)
    requires InOrder(ds, first)
    ensures Total(ds) >= 0
  {
    if ds != [] {
      TotalNonNegative(ds[1..], first + ds[0].count);
    }
  }

  /** Exactly one read transfers sector s, and it puts it at 0x10000 + 512 * (s - 1). */
  lemma {:induction false} LoadedOnce(ds: seq<Read>, first: int, s: int) returns (i: nat)
    requires InOrder(ds, first) && first <= s < first + Total(ds)
    ensures i < |ds| && Covers(ds[i], s) && Target(ds[i], s) == 0x10000 + SECTOR_SIZE * (s - 1)
    ensures forall j :: 0 <= j < |ds| && Covers(ds[j], s) ==> j == i
  {
    if s < first + ds[0].count {
      i := 0;
      forall j | 0 < j < |ds|
        ensures !Covers(ds[j], s)
      {
        CoversRange(ds[1..], first + ds[0].count, j - 1);
        assert ds[1..][j - 1] == ds[j];
      }
    } else {
      var j := LoadedOnce(ds[1..], first + ds[0].count, s);
      i := j + 1;
      forall m | 0 <= m < |ds| && Covers(ds[m], s)
        ensures m == i
      {
        assert m > 0 ==> ds[1..][m - 1] == ds[m];
      }
    }
  }

  // ---- coverage, the bound, and termination

  /** The size in paragraphs that build writes into the boot sector. */
  function ImageParagraphs(bytes: nat): int {
    (bytes + 15) / 16
  }

  lemma ImageFits(bytes: nat, syssize: word)
    requires syssize == ImageParagraphs(bytes)
    ensures bytes <= SECTOR_SIZE * Wanted(syssize)
  {
    var q := syssize / 0x1000;
    assert syssize < 0x1000 * (q + 1);
    assert bytes <= 16 * syssize;
  }

  /**
    When the loop stops, every byte b of the image is loaded: exactly one read transfers its sector,
    and it puts the byte at 0x10000 + b.
   */
  lemma ImageCovered(log: seq<Read>, bytes: nat, syssize: word, b: nat) returns (i: nat)
    requires InOrder(log, 1) && Total(log) == Wanted(syssize) && syssize == ImageParagraphs(bytes) && b < bytes
    ensures i < |log| && Covers(log[i], 1 + b / SECTOR_SIZE)
    ensures Target(log[i], 1 + b / SECTOR_SIZE) + b % SECTOR_SIZE == 0x10000 + b
    ensures forall j :: 0 <= j < |log| && Covers(log[j], 1 + b / SECTOR_SIZE) ==> j == i
  {
    ImageFits(bytes, syssize);
    i := LoadedOnce(log, 1, 1 + b / SECTOR_SIZE);
  }

  /** Nothing at or above 0x90000, where the boot sector runs, is overwritten iff syssize < 0x8000. */
  lemma StaysBelowBootSector(log: seq<Read>, syssize: word)
    requires InOrder(log, 1) && Total(log) == Wanted(syssize)
    ensures (forall i, s :: 0 <= i < |log| && Covers(log[i], s) ==> Target(log[i], s) + SECTOR_SIZE <= 0x90000)
            <==> syssize < 0x8000
  {
    if syssize < 0x8000 {
      forall i, s | 0 <= i < |log| && Covers(log[i], s)
        ensures Target(log[i], s) + SECTOR_SIZE <= 0x90000
      {
        CoversRange(log, 1, i);
        assert syssize / 0x1000 < 8;
      }
    } else {
      var i := LoadedOnce(log, 1, Total(log));
      assert syssize / 0x1000 >= 8;
      assert Target(log[i], Total(log)) + SECTOR_SIZE > 0x90000;
    }
  }

  /** The registers after n turns. */
  function After(r: Regs, n: nat): Regs
    decreases n
  {
    if n == 0 then r else After(Advance(r, NextCount(r)), n - 1)
  }

  lemma SaneTurn(r: Regs)
    requires Sane(r)
    ensures Sane(Advance(r, NextCount(r)))
  {
    CountExact(r);
    AdvanceMemory(r);
    var n := NextCount(r);
    AddExact(n, r.sread);
    SubExact(1, r.head);
    HighByte(r.es);
    Multiples(r.bx, r.es, n);
  }

  /** From syssize 0xF000 on es wraps before it can pass syssize, and read_it never stops. */
  lemma {:induction false} NeverStops(r: Regs, syssize: word, n: nat)
    requires Sane(r) && syssize >= 0xF000
    ensures Continues(After(r, n), syssize)
    decreases n
  {
    if n == 0 {
      var k := r.es / 0x1000;
      assert r.es == 0x1000 * k && 0 <= k < 16;
      if k > 0 {
        SubExact(r.es, SYSSEG);
      } else {
        assert Sub16(0, SYSSEG) == 0xF000;
      }
    } else {
      SaneTurn(r);
      NeverStops(Advance(r, NextCount(r)), syssize, n - 1);
    }
  }

  /** read_it terminates iff syssize < 0xF000. */
  lemma TerminatesIff(syssize: word)
    ensures (exists n: nat :: !Continues(After(Regs(1, 0, 0, SYSSEG, 0), n), syssize)) <==> syssize < 0xF000
  {
    var start := Regs(1, 0, 0, SYSSEG, 0);
    if syssize < 0xF000 {
      var n := Stops(start, syssize, []);
      assert !Continues(After(start, n), syssize);
    } else {
      forall n: nat
        ensures Continues(After(start, n), syssize)
      {
        NeverStops(start, syssize, n);
      }
    }
  }

  lemma {:induction false} Stops(r: Regs, syssize: word, log: seq<Read>) returns (n: nat)
    requires Loading(r, syssize, log) && syssize < 0xF000
    ensures !Continues(After(r, n), syssize)
    decreases if Continues(r, syssize) then 1921 - Total(log) else 0
  {
    if !Continues(r, syssize) {
      n := 0;
    } else {
      LoadingTurn(r, syssize, log);
      n := Stops(Advance(r, NextCount(r)), syssize, log + [BiosCall(r, NextCount(r))]);
      n := n + 1;
    }
  }
}
