/**
 What one transfer, and then a block sent in eight pieces, leaves in the flash.
*/
module FlashTransfer {
  import opened Bytes
  import opened Flash
  import opened FlashRuns

  // ---------------------------------------------------------------------
  //  One transfer
  // ---------------------------------------------------------------------

  /** The flash holds the bytes asked for. */
  ghost predicate Holds(f: Image, dst: nat, ram: Ram, src: nat, size: nat)
    requires dst + size <= SPIFLASH_SIZE
  {
    forall i :: dst <= i < dst + size ==> f[i] == ram(src + (i - dst))
  }

  /** Source and destination lie alike within their pages. For the pages after
      a partial first one the code aligns the source by its own address. */
  predicate Congruent(dst: int, src: nat, size: nat) {
    || dst % PROGRAM_PAGE_SIZE == 0
    || src % PROGRAM_PAGE_SIZE == dst % PROGRAM_PAGE_SIZE
    || dst % PROGRAM_PAGE_SIZE + size <= PROGRAM_PAGE_SIZE
  }

  /** Memory as the writer reads it: for the pages after a partial first one it
      is off by the difference of the two page offsets. */
  function Skewed(ram: Ram, dst: int, src: nat): Ram {
    (a: nat) => SkewedByte(ram, dst, src, a)
  }

  function SkewedByte(ram: Ram, dst: int, src: nat, a: nat): byte {
    var off, lag := dst % PROGRAM_PAGE_SIZE, src % PROGRAM_PAGE_SIZE;
    if off == 0 || a < src + (PROGRAM_PAGE_SIZE - off) || a + off < lag then ram(a) else ram(a + off - lag)
  }

  function ByteOf(ram: Ram, src: nat, i: nat): byte { ram(src + i) }

  lemma {:induction false} ProgrammedSame(f: Image, at: nat, ram: Ram, src: nat, ram1: Ram, src1: nat, n: nat)
    requires forall i: nat :: i < n ==> ByteOf(ram, src, i) == ByteOf(ram1, src1, i)
    ensures Programmed(f, at, ram, src, n) == Programmed(f, at, ram1, src1, n)
  {
    var g, h := Programmed(f, at, ram, src, n), Programmed(f, at, ram1, src1, n);
    forall i | 0 <= i < SPIFLASH_SIZE ensures g[i] == h[i] {
      if at <= i < at + n {
        assert ByteOf(ram, src, i - at) == ByteOf(ram1, src1, i - at);
      }
    }
  }

  /** Where the difference does not show. */
  lemma {:induction false} CongruentIsNotSkewed(f: Image, ram: Ram, dst: nat, src: nat, size: nat)
    requires Congruent(dst, src, size)
    ensures Programmed(f, dst, Skewed(ram, dst, src), src, size) == Programmed(f, dst, ram, src, size)
  {
    hide Programmed;
    var skewed := Skewed(ram, dst, src);
    assert forall i: nat :: i < size ==> ByteOf(skewed, src, i) == ByteOf(ram, src, i);
    ProgrammedSame(f, dst, skewed, src, ram, src, size);
  }

  lemma ProgrammedTwice(f: Image, at: nat, ram: Ram, src: nat, n: nat, m: nat)
    ensures Programmed(Programmed(f, at, ram, src, n), at + n, ram, src + n, m) == Programmed(f, at, ram, src, n + m)
  {
  }

  lemma ProgrammedNone(f: Image, at: nat, ram: Ram, src: nat)
    ensures Programmed(f, at, ram, src, 0) == f
  {
  }

  /** The bytes of one command, out of the skewed memory. */
  lemma {:induction false} CommandBytes(f: State, p: nat)
    requires f.dst >= 0 && Done(f.dst, p) <= f.size && f.remaining == f.size - Done(f.dst, p)
    requires PageCommand(f, p).at >= 0 && PageCommand(f, p).n <= f.remaining
    ensures f.src + Done(f.dst, p) >= 0
    ensures var c := PageCommand(f, p);
      Programmed(f.flash, c.at, f.ram, c.src, c.n)
      == Programmed(f.flash, c.at, Skewed(f.ram, f.dst, f.src), f.src + Done(f.dst, p), c.n)
  {
    hide Programmed;
    SamePageOffset(f.src, p);
    SamePageOffset(f.dst, p);
    var c, skewed := PageCommand(f, p), Skewed(f.ram, f.dst, f.src);
    var from := f.src + Done(f.dst, p);
    assert forall i: nat :: i < c.n ==> ByteOf(f.ram, c.src, i) == ByteOf(skewed, from, i);
    ProgrammedSame(f.flash, c.at, f.ram, c.src, skewed, from, c.n);
  }

  lemma SamePageOffset(a: nat, p: nat)
    ensures (a + p * PROGRAM_PAGE_SIZE) % PROGRAM_PAGE_SIZE == a % PROGRAM_PAGE_SIZE
  {
  }

  lemma FinishVerify(f: State)
    requires Sound(f) && f.mode == VerifyTrack
    ensures Finish(f).flash == f.flash
  {
    TaskKeeps(f, false);
    assert Finish(f) == Finish(Task(f, false));
  }

  lemma FinishStep(f: State)
    requires Sound(f) && f.mode == WriteSector && AnyPage(f.pages) && FIRST_SAFE_ADDRESS <= f.dst
    ensures var p := NextPage(f.pages, f.nextPage);
      && PageCommand(f, p).at >= 0 && PageCommand(f, p).n <= f.remaining
      && Sound(ProgramPage(f, p)) && Finish(f) == Finish(ProgramPage(f, p))
      && Measure(ProgramPage(f, p)) < Measure(f)
  {
    NextCommand(f);
    TaskProgress(f);
    ProgramKeeps(f);
  }

  /** The pages left to program, taken together, are one long program of the
      bytes left. */
  lemma {:induction false} FinishWrite(f: State)
    requires Sound(f) && f.mode == WriteSector && AnyPage(f.pages)
    requires FIRST_SAFE_ADDRESS <= f.dst
    ensures var d := Done(f.dst, NextPage(f.pages, 0));
      Finish(f).flash == Programmed(f.flash, f.dst + d, Skewed(f.ram, f.dst, f.src), f.src + d, f.remaining)
    decreases Measure(f)
  {
    hide Programmed, PageCommand, Measure, Limit, Placed, Sound, InOneSafePage, Skewed, AnyPage, NextPage, Done;
    NextCommand(f);
    var p := NextPage(f.pages, f.nextPage);
    var c := PageCommand(f, p);
    FinishStep(f);
    CommandBytes(f, p);
    hide Finish;
    hide Task;
    var g := ProgramPage(f, p);
    if c.n == f.remaining {
      FinishVerify(g);
    } else {
      EnoughPages(f, p);
      FinishWrite(g);
      ProgrammedTwice(f.flash, c.at, Skewed(f.ram, f.dst, f.src), f.src + Done(f.dst, p), c.n, f.remaining - c.n);
    }
  }

  /** A page short of the whole transfer is never the last. */
  lemma EnoughPages(f: State, p: nat)
    requires Sound(f) && f.mode == WriteSector && AnyPage(f.pages) && p == NextPage(f.pages, f.nextPage)
    requires FIRST_SAFE_ADDRESS <= f.dst
    requires PageCommand(f, p).at >= 0 && PageCommand(f, p).n < f.remaining
    ensures var g := ProgramPage(f, p); g.mode == WriteSector && AnyPage(g.pages) && NextPage(g.pages, 0) == p + 1
  {
    hide PageCommand, Programmed;
    NextCommand(f);
    MorePages(f.dst, f.size, p);
    ClearFirst(f.pages, p, Limit(f.dst, f.size));
  }

  lemma {:induction false} MorePages(dst: int, size: nat, p: nat)
    requires Placed(dst, size) && p < Limit(dst, size) && Done(dst, p + 1) < size
    ensures p + 1 < Limit(dst, size)
  {
  }

  /** The flash as programming will find it. */
  function Base(f: State, dst: int, src: nat, size: nat): Image
    requires Fits(dst, size)
  {
    if NeedsErase(f.flash, f.ram, dst, src, size) then Erased(f.flash, SectorOf(dst)) else f.flash
  }

  /** What an accepted transfer leaves in the flash, wherever its buffer is. */
  lemma {:induction false} AcceptedFlash(f: State, dst: int, src: nat, size: nat)
    requires Sound(f) && f.mode == UserMode && Fits(dst, size)
    ensures var g := Accept(f, dst, src, size).state;
      var base := Base(f, dst, src, size);
      && Sound(g)
      && Finish(g).flash == if AnyPage(g.pages) then Programmed(base, dst, Skewed(f.ram, dst, src), src, size) else base
  {
    hide Programmed;
    hide Erased;
    AcceptKeeps(f, dst, src, size);
    var g := Accept(f, dst, src, size).state;
    var h := g;
    if g.mode == EraseTrack {
      TaskKeeps(g, false);
      TaskProgress(g);
      h := Task(g, false);
      assert Finish(g) == Finish(h);
    }
    if AnyPage(g.pages) {
      FinishWrite(h);
    } else if h.mode == WriteSector {
      TaskKeeps(h, false);
      TaskProgress(h);
      assert Finish(h) == Finish(Task(h, false));
      FinishVerify(Task(h, false));
    }
  }

  lemma AndOnes(a: byte)
    ensures 0xFF & a == a
  {
  }

  lemma AndSwap(a: byte, b: byte)
    ensures a & b == b & a
  {
  }

  /** After the erase, if there is one, programming gives the bytes asked for. */
  lemma BaseTakes(f: State, dst: int, src: nat, size: nat)
    requires Fits(dst, size)
    ensures Holds(Programmed(Base(f, dst, src, size), dst, f.ram, src, size), dst, f.ram, src, size)
  {
    var base := Base(f, dst, src, size);
    forall i | dst <= i < dst + size ensures base[i] & f.ram(src + (i - dst)) == f.ram(src + (i - dst)) {
      AndOnes(f.ram(src + (i - dst)));
      AndSwap(f.flash[i], f.ram(src + (i - dst)));
      if !NeedsErase(f.flash, f.ram, dst, src, size) {
        assert !Clash(f.flash, f.ram, dst, src, i - dst);
      }
    }
  }

  /** An accepted transfer, once it is over: the flash holds the bytes asked
      for unless the transfer is page aligned, its first byte was there
      already (or is 0xFF and the sector had to be erased), and some later
      byte was not. Nothing outside the transfer changes but by the erase. */
  lemma TransferWrites(f: State, dst: int, src: nat, size: nat)
    requires Sound(f) && f.mode == UserMode && Fits(dst, size) && Congruent(dst, src, size)
    ensures Sound(Accept(f, dst, src, size).state)
    ensures var g := Finish(Accept(f, dst, src, size).state);
      var base := Base(f, dst, src, size);
      && (Holds(g.flash, dst, f.ram, src, size) <==>
            || !PageAligned(dst, size)
            || f.ram(src) != base[if dst < SPIFLASH_SIZE then dst else 0]
            || Holds(base, dst, f.ram, src, size))
      && forall i :: 0 <= i < SPIFLASH_SIZE && !(dst <= i < dst + size) ==> g.flash[i] == base[i]
  {
    AcceptedFlash(f, dst, src, size);
    CongruentIsNotSkewed(Base(f, dst, src, size), f.ram, dst, src, size);
    BaseTakes(f, dst, src, size);
    var m := Accept(f, dst, src, size).state.pages;
    var erase := NeedsErase(f.flash, f.ram, dst, src, size);
    assert m[0] <==> PageBit(f.flash, f.ram, dst, src, size, erase, 0);
    assert AnyPage(m) <==> m[0];
  }

  /** The byte asked for at n. */
  function Wanted(ram: Ram, dst: nat, src: nat, n: nat): byte
    requires dst <= n
  {
    ram(src + (n - dst))
  }

  /** The byte that is programmed at n instead, behind the first page. */
  function Taken(ram: Ram, dst: nat, src: nat, n: nat): byte
    requires n >= FirstPageEnd(dst)
  {
    var shift := dst % PROGRAM_PAGE_SIZE - src % PROGRAM_PAGE_SIZE;
    ram(src + (n - dst) + shift)
  }

  /** Where the page of dst ends. */
  function FirstPageEnd(dst: nat): (n: nat)
    ensures n > dst
  {
    dst + (PROGRAM_PAGE_SIZE - dst % PROGRAM_PAGE_SIZE)
  }

  /** Transfers that begin inside a page, with the buffer at another offset in
      its own page: the bytes of the first page arrive; all of them do if and
      only if each later one is what the byte at the shifted place leaves. */
  lemma {:induction false} UnalignedTransfer(f: State, dst: int, src: nat, size: nat)
    requires Sound(f) && f.mode == UserMode && Fits(dst, size) && dst % PROGRAM_PAGE_SIZE != 0
    ensures Sound(Accept(f, dst, src, size).state)
    ensures var g := Finish(Accept(f, dst, src, size).state);
      var base := Base(f, dst, src, size);
      && (Holds(g.flash, dst, f.ram, src, size) <==>
            forall n :: FirstPageEnd(dst) <= n < dst + size ==>
              base[n] & Taken(f.ram, dst, src, n) == Wanted(f.ram, dst, src, n))
      && (forall n :: dst <= n < FirstPageEnd(dst) && n < dst + size ==> g.flash[n] == Wanted(f.ram, dst, src, n))
      && (forall n :: 0 <= n < SPIFLASH_SIZE && !(dst <= n < dst + size) ==> g.flash[n] == base[n])
  {
    hide Finish, Base, NeedsErase, Skewed, Holds, Programmed, Wanted, Taken, FirstPageEnd;
    AcceptedFlash(f, dst, src, size);
    BaseTakes(f, dst, src, size);
    assert Accept(f, dst, src, size).state.pages[0];
    hide Accept;
    SkewedProgram(Base(f, dst, src, size), dst, f.ram, src, size);
  }

  /** The same, of one long program command that finds the bits it needs. */
  lemma {:induction false} SkewedProgram(base: Image, dst: nat, ram: Ram, src: nat, size: nat)
    requires dst + size <= SPIFLASH_SIZE && dst % PROGRAM_PAGE_SIZE != 0
    requires Holds(Programmed(base, dst, ram, src, size), dst, ram, src, size)
    ensures var g := Programmed(base, dst, Skewed(ram, dst, src), src, size);
      && (Holds(g, dst, ram, src, size) <==>
            forall n :: FirstPageEnd(dst) <= n < dst + size ==> base[n] & Taken(ram, dst, src, n) == Wanted(ram, dst, src, n))
      && (forall n :: dst <= n < FirstPageEnd(dst) && n < dst + size ==> g[n] == Wanted(ram, dst, src, n))
      && (forall n :: 0 <= n < SPIFLASH_SIZE && !(dst <= n < dst + size) ==> g[n] == base[n])
  {
    var g := Programmed(base, dst, Skewed(ram, dst, src), src, size);
    assert forall n :: 0 <= n < SPIFLASH_SIZE && !(dst <= n < dst + size) ==> g[n] == base[n];
    HoldsByByte(g, dst, ram, src, size);
    hide Holds, Programmed, Skewed, Wanted, Taken, FirstPageEnd;
    forall n | dst <= n < dst + size
      ensures g[n] == if n < FirstPageEnd(dst) then Wanted(ram, dst, src, n) else base[n] & Taken(ram, dst, src, n)
    {
      SkewedAt(base, dst, ram, src, size, n);
    }
  }

  lemma {:induction false} HoldsByByte(f: Image, dst: nat, ram: Ram, src: nat, size: nat)
    requires dst + size <= SPIFLASH_SIZE
    ensures Holds(f, dst, ram, src, size) <==> forall n :: dst <= n < dst + size ==> f[n] == Wanted(ram, dst, src, n)
  {
  }

  lemma {:induction false} SkewedAt(base: Image, dst: nat, ram: Ram, src: nat, size: nat, n: nat)
    requires dst <= n < dst + size <= SPIFLASH_SIZE && dst % PROGRAM_PAGE_SIZE != 0
    requires Holds(Programmed(base, dst, ram, src, size), dst, ram, src, size)
    ensures Programmed(base, dst, Skewed(ram, dst, src), src, size)[n]
      == if n < FirstPageEnd(dst) then Wanted(ram, dst, src, n) else base[n] & Taken(ram, dst, src, n)
  {
    var skewed := Skewed(ram, dst, src);
    assert Programmed(base, dst, skewed, src, size)[n] == base[n] & skewed(src + (n - dst));
    assert Programmed(base, dst, ram, src, size)[n] == base[n] & ram(src + (n - dst));
    hide Programmed;
    assert skewed(src + (n - dst)) == if n < FirstPageEnd(dst) then Wanted(ram, dst, src, n) else Taken(ram, dst, src, n);
  }

  /** What goes wrong, on the smallest input: a blank sector is asked to hold
      0xFF 0x00 ...; the request is reported complete and nothing is written. */
  lemma {:induction false} FirstByteHidesTheRest(f: State, dst: int, src: nat)
    requires Sound(f) && f.mode == UserMode && Fits(dst, FATFS_SECTOR_SIZE) && OpensSector(dst, FATFS_SECTOR_SIZE)
    requires Blank(f.flash, dst, dst + ERASE_SECTOR_SIZE)
    requires !(f.src == src && f.dst == dst && f.size == FATFS_SECTOR_SIZE)
    requires f.ram(src) == 0xFF && f.ram(src + 1) == 0
    ensures var r := WriteFlash(f, dst, src, FATFS_SECTOR_SIZE);
      && r.rc == FATFS_SECTOR_SIZE && r.state.flash == f.flash && r.state.mode == UserMode
      && !Holds(r.state.flash, dst, f.ram, src, FATFS_SECTOR_SIZE)
  {
    assert f.flash[dst + 1] != f.ram(src + (dst + 1 - dst)) && f.flash[dst] == 0xFF;
    BlankNeverRaises(f.flash, f.ram, dst, src, FATFS_SECTOR_SIZE);
    hide Raises, Holds;
    ImmediateAnswer(f, dst, src, FATFS_SECTOR_SIZE);
  }

  /** A request that is answered with its size at once has changed nothing. It
      was outside the range, or needed an erase in the middle of a sector (and
      then the bytes are not there), or is page aligned, needs no erase and has
      its first byte in place; the bytes are there only if the others are too. */
  lemma {:induction false} ImmediateAnswer(f: State, dst: int, src: nat, size: nat)
    requires Sound(f) && f.mode == UserMode && size > 0
    requires !(f.src == src && f.dst == dst && f.size == size)
    ensures var r := WriteFlash(f, dst, src, size);
      && (r.rc == size ==> r.state.flash == f.flash && r.state.mode == UserMode)
      && (!Fits(dst, size) ==> r.rc == size)
      && (Fits(dst, size) ==>
          var late := size != ERASE_SECTOR_SIZE && dst % ERASE_SECTOR_SIZE != 0 && Raises(f.flash, f.ram, dst, src, size);
          && (late ==> r.rc == size && !Holds(f.flash, dst, f.ram, src, size))
          && (!late ==>
              (r.rc == size <==>
                 !NeedsErase(f.flash, f.ram, dst, src, size) && PageAligned(dst, size) && f.ram(src) == f.flash[dst])))
  {
    if Fits(dst, size) {
      if Raises(f.flash, f.ram, dst, src, size) {
        RaisedIsNotThere(f.flash, f.ram, dst, src, size);
      }
      ScanIsFirstByte(f, dst, src, size);
    }
  }

  lemma {:induction false} RaisedIsNotThere(f: Image, ram: Ram, dst: int, src: nat, size: nat)
    requires Fits(dst, size) && Raises(f, ram, dst, src, size)
    ensures !Holds(f, dst, ram, src, size)
  {
    var i :| 0 <= i < size && Clash(f, ram, dst, src, i);
    SameAnd(ram(src + i));
    assert f[dst + i] != ram(src + (dst + i - dst));
  }

  lemma SameAnd(a: byte)
    ensures a & a == a
  {
  }

  lemma {:induction false} ScanIsFirstByte(f: State, dst: int, src: nat, size: nat)
    requires Fits(dst, size) && size > 0
    ensures var erase := NeedsErase(f.flash, f.ram, dst, src, size);
      AnyPage(PageMask(f.flash, f.ram, dst, src, size, erase))
      <==> !PageAligned(dst, size) || f.ram(src) != FirstByte(f.flash, dst, erase)
  {
    var erase := NeedsErase(f.flash, f.ram, dst, src, size);
    var m := PageMask(f.flash, f.ram, dst, src, size, erase);
    assert m[0] <==> PageBit(f.flash, f.ram, dst, src, size, erase, 0);
    forall i | 0 <= i < 16 && m[i] ensures m[0] {
      assert PageBit(f.flash, f.ram, dst, src, size, erase, i);
    }
  }

  // ---------------------------------------------------------------------
  //  A block in eight pieces
  // ---------------------------------------------------------------------

  /** A request, followed by as many task calls as it takes. */
  function Settle(f: State, dst: int, src: nat, size: nat): (g: State)
    requires Sound(f)
    ensures Sound(g) && g.mode == UserMode
  {
    WriteKeeps(f, dst, src, size);
    Finish(WriteFlash(f, dst, src, size).state)
  }

  /** The request parameters outlive the transfer, so repeating the request
      reports its size and changes nothing. */
  lemma {:induction false} FinishKeepsRequest(f: State)
    requires Sound(f)
    ensures var g := Finish(f); g.src == f.src && g.dst == f.dst && g.size == f.size && g.ram == f.ram
    decreases Measure(f)
  {
    if f.mode != UserMode {
      TaskKeeps(f, false);
      TaskProgress(f);
      FinishKeepsRequest(Task(f, false));
    }
  }

  lemma RetryReportsSize(f: State, dst: int, src: nat, size: nat)
    requires Sound(f) && f.mode == UserMode && Fits(dst, size)
    requires Sound(Accept(f, dst, src, size).state)
    ensures var g := Finish(Accept(f, dst, src, size).state);
      WriteFlash(g, dst, src, size) == Reply(g, size)
  {
    FinishKeepsRequest(Accept(f, dst, src, size).state);
  }

  const CHUNKS := 8

  type Block = b: seq<byte> | |b| == ERASE_SECTOR_SIZE witness seq(ERASE_SECTOR_SIZE, _ => 0)

  /** The buffer at src holds chunk j. */
  ghost predicate Buffered(ram: Ram, src: nat, b: Block, j: nat)
    requires j < CHUNKS
  {
    forall i :: 512 * j <= i < 512 * j + 512 ==> b[i] == ram(src + (i - 512 * j))
  }

  /** Chunk j of the block is in its place. */
  ghost predicate ChunkHolds(f: Image, sector: nat, b: Block, j: nat)
    requires sector + ERASE_SECTOR_SIZE <= SPIFLASH_SIZE && j < CHUNKS
  {
    forall i :: 512 * j <= i < 512 * j + 512 ==> f[sector + i] == b[i]
  }

  /** The page scan notices chunk j, or there is nothing in it to notice. The
      first chunk meets `base`, the others a blank sector. */
  ghost predicate Takes(base: Image, sector: nat, b: Block, j: nat)
    requires sector + ERASE_SECTOR_SIZE <= SPIFLASH_SIZE && j < CHUNKS
  {
    if j == 0 then b[0] != base[sector] || forall i :: 0 <= i < 512 ==> base[sector + i] == b[i]
    else b[512 * j] != 0xFF || forall i :: 512 * j <= i < 512 * j + 512 ==> b[i] == 0xFF
  }

  lemma ChunkIsHolds(f: Image, sector: nat, ram: Ram, src: nat, b: Block, j: nat)
    requires sector + ERASE_SECTOR_SIZE <= SPIFLASH_SIZE && j < CHUNKS
    requires Buffered(ram, src, b, j)
    ensures ChunkHolds(f, sector, b, j) <==> Holds(f, sector + 512 * j, ram, src, 512)
  {
    if ChunkHolds(f, sector, b, j) {
      forall i | sector + 512 * j <= i < sector + 512 * j + 512 ensures f[i] == ram(src + (i - (sector + 512 * j))) {
        var k := i - sector;
        assert f[sector + k] == b[k];
        assert b[k] == ram(src + (k - 512 * j));
      }
    }
    if Holds(f, sector + 512 * j, ram, src, 512) {
      forall i | 512 * j <= i < 512 * j + 512 ensures f[sector + i] == b[i] {
        assert b[i] == ram(src + (i - 512 * j));
        assert f[sector + i] == ram(src + (sector + i - (sector + 512 * j)));
      }
    }
  }

  lemma {:induction false} ChunkPlaced(sector: nat, j: nat)
    requires IsSector(sector) && j < CHUNKS
    ensures var dst := sector + 512 * j;
      Fits(dst, 512) && PageAligned(dst, 512) && Congruent(dst, 0, 512) && dst % ERASE_SECTOR_SIZE == 512 * j
  {
    var q := sector / ERASE_SECTOR_SIZE;
    assert sector == ERASE_SECTOR_SIZE * q;
    InSector(q, 512 * j);
    assert sector + 512 * j == PROGRAM_PAGE_SIZE * (16 * q + 2 * j);
    assert PROGRAM_PAGE_SIZE * (16 * q + 2 * j) % PROGRAM_PAGE_SIZE == 0;
  }

  lemma {:induction false} InSector(q: nat, r: nat)
    requires r < ERASE_SECTOR_SIZE
    ensures (ERASE_SECTOR_SIZE * q + r) % ERASE_SECTOR_SIZE == r
  {
  }

  lemma SettleAccepted(f: State, dst: int, src: nat, size: nat)
    requires Sound(f) && f.mode == UserMode && Fits(dst, size)
    requires !(f.src == src && f.dst == dst && f.size == size)
    requires dst % ERASE_SECTOR_SIZE != 0 ==> !Raises(f.flash, f.ram, dst, src, size)
    ensures Sound(Accept(f, dst, src, size).state)
    ensures Settle(f, dst, src, size) == Finish(Accept(f, dst, src, size).state)
    ensures Accept(f, dst, src, size).state.dst == dst
  {
    hide Finish;
    AcceptKeeps(f, dst, src, size);
  }

  /** A chunk that is not refused, told chunk-wise. */
  lemma SettleChunk(f: State, sector: nat, src: nat, b: Block, j: nat)
    requires Sound(f) && f.mode == UserMode && j < CHUNKS && IsSector(sector)
    requires !(f.src == src && f.dst == sector + 512 * j && f.size == 512)
    requires j > 0 ==> !Raises(f.flash, f.ram, sector + 512 * j, src, 512)
    requires Buffered(f.ram, src, b, j)
    ensures Fits(sector + 512 * j, 512)
    ensures var dst := sector + 512 * j;
      var g, base := Settle(f, dst, src, 512), Base(f, dst, src, 512);
      && g.dst == dst
      && (forall i :: 0 <= i < SPIFLASH_SIZE && !(dst <= i < dst + 512) ==> g.flash[i] == base[i])
      && (ChunkHolds(g.flash, sector, b, j) <==> b[512 * j] != base[dst] || ChunkHolds(base, sector, b, j))
  {
    hide ChunkHolds;
    hide Finish;
    hide Holds;
    hide Base;
    hide Accept;
    hide Settle;
    hide Raises;
    var dst := sector + 512 * j;
    ChunkPlaced(sector, j);
    hide Fits;
    SettleAccepted(f, dst, src, 512);
    TransferWrites(f, dst, src, 512);
    FinishKeepsRequest(Accept(f, dst, src, 512).state);
    ChunkIsHolds(Settle(f, dst, src, 512).flash, sector, f.ram, src, b, j);
    ChunkIsHolds(Base(f, dst, src, 512), sector, f.ram, src, b, j);
  }

  predicate IsSector(sector: nat) {
    FIRST_SAFE_ADDRESS <= sector && sector + ERASE_SECTOR_SIZE <= SPIFLASH_SIZE && sector % ERASE_SECTOR_SIZE == 0
  }

  lemma BlankNeverRaises(f: Image, ram: Ram, dst: nat, src: nat, n: nat)
    requires dst + n <= SPIFLASH_SIZE && Blank(f, dst, dst + n)
    ensures !Raises(f, ram, dst, src, n)
  {
    forall i | 0 <= i < n ensures !Clash(f, ram, dst, src, i) {
      AndOnes(ram(src + i));
      AndSwap(ram(src + i), 0xFF);
    }
  }

  /** A chunk sent after the first finds a blank place and disturbs nothing. */
  lemma LaterChunk(f: State, sector: nat, src: nat, b: Block, j: nat)
    requires Sound(f) && f.mode == UserMode && 0 < j < CHUNKS && IsSector(sector)
    requires f.dst != sector + 512 * j
    requires Blank(f.flash, sector + 512 * j, sector + ERASE_SECTOR_SIZE)
    requires Buffered(f.ram, src, b, j)
    ensures var dst := sector + 512 * j;
      var g := Settle(f, dst, src, 512);
      && g.dst == dst
      && (forall i :: 0 <= i < SPIFLASH_SIZE && !(dst <= i < dst + 512) ==> g.flash[i] == f.flash[i])
      && (ChunkHolds(g.flash, sector, b, j) <==> Takes(f.flash, sector, b, j))
  {
    hide Settle;
    var dst := sector + 512 * j;
    BlankNeverRaises(f.flash, f.ram, dst, src, 512);
    assert dst % ERASE_SECTOR_SIZE == 512 * j;
    SettleChunk(f, sector, src, b, j);
    assert Base(f, dst, src, 512) == f.flash;
    if ChunkHolds(f.flash, sector, b, j) {
      forall i | 512 * j <= i < 512 * j + 512 ensures b[i] == 0xFF {
        assert f.flash[sector + i] == b[i];
      }
    }
  }

  /** The first chunk leaves the rest of the sector blank. */
  lemma FirstChunk(f: State, sector: nat, src: nat, b: Block)
    requires Sound(f) && f.mode == UserMode && IsSector(sector)
    requires !(f.src == src && f.dst == sector && f.size == 512)
    requires Buffered(f.ram, src, b, 0)
    ensures var g := Settle(f, sector, src, 512);
      && Written(f, g, Base(f, sector, src, 512), sector, b, 1)
  {
    hide Settle;
    SettleChunk(f, sector, src, b, 0);
    var base := Base(f, sector, src, 512);
    assert Blank(base, sector + 512, sector + ERASE_SECTOR_SIZE);
  }

  /** The first k chunks, each settled before the next; the source buffer may
      be refilled in between. */
  function AfterChunks(f: State, sector: nat, fill: nat -> Ram, src: nat -> nat, k: nat): (g: State)
    requires Sound(f) && f.mode == UserMode
    ensures Sound(g) && g.mode == UserMode
  {
    if k == 0 then f
    else Settle(AfterChunks(f, sector, fill, src, k - 1).(ram := fill(k - 1)), sector + 512 * (k - 1), src(k - 1), 512)
  }

  /** The buffers offered hold the block. */
  ghost predicate Offers(fill: nat -> Ram, src: nat -> nat, b: Block) {
    forall j :: 0 <= j < CHUNKS ==> Buffered(fill(j), src(j), b, j)
  }

  ghost predicate Written(f: State, g: State, base: Image, sector: nat, b: Block, k: nat)
    requires sector + ERASE_SECTOR_SIZE <= SPIFLASH_SIZE && k <= CHUNKS
  {
    && (forall i :: 0 <= i < SPIFLASH_SIZE && !(sector <= i < sector + ERASE_SECTOR_SIZE) ==> g.flash[i] == f.flash[i])
    && Blank(g.flash, sector + 512 * k, sector + ERASE_SECTOR_SIZE)
    && g.dst == sector + 512 * (k - 1)
    && forall j :: 0 <= j < k ==> (ChunkHolds(g.flash, sector, b, j) <==> Takes(base, sector, b, j))
  }

  lemma {:induction false} ChunksWritten(f: State, sector: nat, fill: nat -> Ram, src: nat -> nat, b: Block, k: nat)
    requires Sound(f) && f.mode == UserMode && 0 < k <= CHUNKS
    requires IsSector(sector)
    requires !(f.src == src(0) && f.dst == sector && f.size == 512)
    requires Offers(fill, src, b)
    ensures Written(f, AfterChunks(f, sector, fill, src, k), Base(f.(ram := fill(0)), sector, src(0), 512), sector, b, k)
  {
    hide Settle;
    var f0 := f.(ram := fill(0));
    var base := Base(f0, sector, src(0), 512);
    if k == 1 {
      assert AfterChunks(f, sector, fill, src, 0) == f;
      FirstChunk(f0, sector, src(0), b);
    } else {
      ChunksWritten(f, sector, fill, src, b, k - 1);
      var h := AfterChunks(f, sector, fill, src, k - 1).(ram := fill(k - 1));
      OneMore(f, h, base, sector, src(k - 1), b, k - 1);
    }
  }

  lemma OneMore(f: State, h: State, base: Image, sector: nat, src: nat, b: Block, j: nat)
    requires Sound(h) && h.mode == UserMode && 0 < j < CHUNKS && IsSector(sector)
    requires Written(f, h, base, sector, b, j) && Buffered(h.ram, src, b, j)
    ensures Written(f, Settle(h, sector + 512 * j, src, 512), base, sector, b, j + 1)
  {
    hide Settle;
    LaterChunk(h, sector, src, b, j);
    var g := Settle(h, sector + 512 * j, src, 512);
    assert Takes(h.flash, sector, b, j) <==> Takes(base, sector, b, j);
    forall i | 0 <= i < j ensures ChunkHolds(g.flash, sector, b, i) <==> Takes(base, sector, b, i) {
      assert ChunkHolds(h.flash, sector, b, i) <==> Takes(base, sector, b, i);
      SameChunk(g.flash, h.flash, sector, b, i);
    }
  }

  lemma SameChunk(g: Image, h: Image, sector: nat, b: Block, i: nat)
    requires sector + ERASE_SECTOR_SIZE <= SPIFLASH_SIZE && i < CHUNKS
    requires forall k :: sector + 512 * i <= k < sector + 512 * i + 512 ==> g[k] == h[k]
    ensures ChunkHolds(g, sector, b, i) <==> ChunkHolds(h, sector, b, i)
  {
    forall k: nat | 512 * i <= k < 512 * i + 512 ensures g[sector + k] == b[k] <==> h[sector + k] == b[k] {
      var n := sector + k;
      assert g[n] == h[n];
    }
  }

  /** Writing a block as a file system does: eight requests of 512 bytes, each
      repeated until it is done. Every other sector keeps its contents; the
      sector holds the block exactly when the page scan took every chunk. */
  lemma BlockWrite(f: State, sector: nat, fill: nat -> Ram, src: nat -> nat, b: Block)
    requires Sound(f) && f.mode == UserMode
    requires IsSector(sector)
    requires !(f.src == src(0) && f.dst == sector && f.size == 512)
    requires Offers(fill, src, b)
    ensures var g := AfterChunks(f, sector, fill, src, CHUNKS);
      var base := Base(f.(ram := fill(0)), sector, src(0), 512);
      && (g.flash[sector..sector + ERASE_SECTOR_SIZE] == b <==> forall j :: 0 <= j < CHUNKS ==> Takes(base, sector, b, j))
      && g.flash[..sector] == f.flash[..sector]
      && g.flash[sector + ERASE_SECTOR_SIZE..] == f.flash[sector + ERASE_SECTOR_SIZE..]
  {
    ChunksWritten(f, sector, fill, src, b, CHUNKS);
    SectorIsChunks(AfterChunks(f, sector, fill, src, CHUNKS).flash, sector, b);
  }

  lemma SectorIsChunks(f: Image, sector: nat, b: Block)
    requires sector + ERASE_SECTOR_SIZE <= SPIFLASH_SIZE
    ensures f[sector..sector + ERASE_SECTOR_SIZE] == b <==> forall j :: 0 <= j < CHUNKS ==> ChunkHolds(f, sector, b, j)
  {
    var s := f[sector..sector + ERASE_SECTOR_SIZE];
    if s == b {
      assert forall i :: 0 <= i < ERASE_SECTOR_SIZE ==> s[i] == f[sector + i];
    }
    if forall j :: 0 <= j < CHUNKS ==> ChunkHolds(f, sector, b, j) {
      forall i | 0 <= i < ERASE_SECTOR_SIZE ensures s[i] == b[i] {
        var j := i / 512;
        assert ChunkHolds(f, sector, b, j);
        assert f[sector + i] == b[i];
      }
    }
  }
}
