/** The routines of sw/src/flash.c over the memory-mapped chip. */
module FlashWriter {
  import opened Bytes
  import opened Flash
  import opened FlashRuns

  lemma ProgrammedNone(f: Image, at: nat, ram: Ram, src: nat)
    ensures Programmed(f, at, ram, src, 0) == f
  {
  }

  lemma ProgrammedStep(f: Image, at: nat, ram: Ram, src: nat, i: nat)
    requires at + i < SPIFLASH_SIZE
    ensures var g := Programmed(f, at, ram, src, i);
      Programmed(f, at, ram, src, i + 1) == g[at + i := g[at + i] & ram(src + i)]
  {
  }

  /** Where the search for a page started does not matter to its programming. */
  lemma ProgramFrom(f: State, k: nat, page: nat)
    requires page < 16 && PageCommand(f, page).n <= f.remaining && 0 <= PageCommand(f, page).at
    ensures PageCommand(f.(nextPage := k), page) == PageCommand(f, page)
    ensures ProgramPage(f.(nextPage := k), page) == ProgramPage(f, page)
  {
  }

  class FlashController {
    const flash: array<byte>
    var ram: Ram
    var mode: Mode
    var bitBang: bool
    var src: nat
    var dst: int
    var size: nat
    var remaining: nat
    var pages: Bits
    var nextPage: nat

    ghost function Abs(): State
      reads this, flash
      requires flash.Length == SPIFLASH_SIZE
    {
      State(flash[..], ram, mode, bitBang, src, dst, size, remaining, pages, nextPage)
    }

    ghost predicate Valid()
      reads this, flash
    {
      flash.Length == SPIFLASH_SIZE && Sound(Abs())
    }

    /** Power on, or `flash_init` after a crash: whatever the chip holds, the
        flash is memory mapped and no transfer is under way. */
    constructor (flash: array<byte>, ram: Ram)
      requires flash.Length == SPIFLASH_SIZE
      ensures Valid() && this.flash == flash && this.ram == ram && mode == UserMode
    {
      this.flash, this.ram := flash, ram;
      mode, bitBang := UserMode, false;
      src, dst, size, remaining, pages, nextPage := 0, 0, 0, 0, NO_BITS, 0;
    }

    /** `read_flash`. */
    method ReadFlash(at: nat, n: nat) returns (rc: nat, copy: seq<byte>)
      requires Valid() && at + n <= SPIFLASH_SIZE
      ensures if mode == UserMode then rc == n && copy == flash[at..at + n] else rc == 0 && copy == []
    {
      if mode != UserMode {
        return 0, [];
      }
      return n, flash[at..at + n];
    }

    /** The erase command, as the chip carries it out. */
    method BeginErase(at: nat)
      requires flash.Length == SPIFLASH_SIZE && at % ERASE_SECTOR_SIZE == 0
      requires FIRST_SAFE_ADDRESS <= at && at + ERASE_SECTOR_SIZE <= SPIFLASH_SIZE
      modifies flash
      ensures flash[..] == Erased(old(flash[..]), at)
    {
      for i := 0 to ERASE_SECTOR_SIZE
        invariant forall j :: 0 <= j < SPIFLASH_SIZE ==> flash[j] == if at <= j < at + i then 0xFF else old(flash[j])
      {
        flash[at + i] := 0xFF;
      }
    }

    /** The program command, as the chip carries it out; it must stay within
        one page. */
    method BeginWrite(at: nat, from: nat, n: nat)
      requires flash.Length == SPIFLASH_SIZE && InOneSafePage(at, n)
      modifies flash
      ensures flash[..] == Programmed(old(flash[..]), at, ram, from, n)
    {
      hide Programmed;
      ProgrammedNone(flash[..], at, ram, from);
      for i := 0 to n
        invariant flash[..] == Programmed(old(flash[..]), at, ram, from, i)
      {
        ProgrammedStep(old(flash[..]), at, ram, from, i);
        flash[at + i] := flash[at + i] & ram(from + i);
      }
    }

    /** The scan that decides whether bits must be raised. */
    method ScanRaises(to: nat, from: nat, n: nat) returns (raises: bool, at: nat)
      requires flash.Length == SPIFLASH_SIZE && to + n <= SPIFLASH_SIZE
      ensures raises == Raises(flash[..], ram, to, from, n)
      ensures to <= at <= to + n && (!raises ==> at == to + n)
    {
      raises, at := false, to;
      for i := 0 to n
        invariant at == to + i && !raises
        invariant forall k :: 0 <= k < i ==> !Clash(flash[..], ram, to, from, k)
      {
        if ram(from + i) & flash[at] != ram(from + i) {
          assert Clash(flash[..], ram, to, from, i);
          return true, at;
        }
        at := at + 1;
      }
    }

    /** The scan of the rest of the sector; `at` goes on from where the first
        scan stopped. */
    method ScanBlank(at: nat, n: nat) returns (blank: bool)
      requires flash.Length == SPIFLASH_SIZE && at + n <= SPIFLASH_SIZE
      ensures blank == Blank(flash[..], at, at + n)
    {
      for i := 0 to n
        invariant Blank(flash[..], at, at + i)
      {
        if flash[at + i] != 0xFF {
          return false;
        }
      }
      return true;
    }

    /** Which pages to program. Neither pointer of the inner loop moves. */
    method ScanPages(to: nat, from: nat, n: nat, erase: bool) returns (mask: Bits)
      requires flash.Length == SPIFLASH_SIZE && Fits(to, n)
      ensures mask == PageMask(flash[..], ram, to, from, n, erase)
    {
      mask := NO_BITS;
      if to % PROGRAM_PAGE_SIZE != 0 || n % PROGRAM_PAGE_SIZE != 0 {
        for page := 0 to 16
          invariant forall i :: 0 <= i < page ==> mask[i]
        {
          mask := mask[page := true];
        }
      } else {
        for page := 0 to n / PROGRAM_PAGE_SIZE
          invariant forall i :: 0 <= i < 16 ==>
            (mask[i] <==> i < page && ram(from) != FirstByte(flash[..], to, erase))
        {
          var byte := 0;
          while byte < PROGRAM_PAGE_SIZE
            invariant 0 <= byte <= PROGRAM_PAGE_SIZE
            invariant byte > 0 ==> ram(from) == FirstByte(flash[..], to, erase)
            invariant forall i :: 0 <= i < 16 ==>
              (mask[i] <==> i < page && ram(from) != FirstByte(flash[..], to, erase))
          {
            if ram(from) != (if erase then 0xFF else flash[to]) {
              mask := mask[page := true];
              break;
            }
            byte := byte + 1;
          }
        }
      }
    }

    /** `write_flash`. */
    method WriteFlash(to: int, from: nat, n: nat) returns (rc: int)
      requires Valid()
      modifies this
      ensures Valid() && Reply(Abs(), rc) == Flash.WriteFlash(old(Abs()), to, from, n)
    {
      WriteKeeps(Abs(), to, from, n);
      if src == from && dst == to && size == n {
        if mode != UserMode {
          return 0;
        } else {
          return n;
        }
      }
      if mode != UserMode {
        return 0;
      }
      if to < FIRST_SAFE_ADDRESS {
        return n;
      }
      if n > ERASE_SECTOR_SIZE || to + n > SPIFLASH_SIZE {
        return n;
      }
      if to % ERASE_SECTOR_SIZE + n > ERASE_SECTOR_SIZE {
        return n;
      }
      var refused, needsErase := Decide(to, from, n);
      if refused {
        return n;
      }
      rc := Start(to, from, n, needsErase);
    }

    /** Whether the sector must be erased first, and whether that rules the
        request out. */
    method Decide(to: int, from: nat, n: nat) returns (refused: bool, needsErase: bool)
      requires flash.Length == SPIFLASH_SIZE && Fits(to, n)
      ensures refused == (n != ERASE_SECTOR_SIZE && to % ERASE_SECTOR_SIZE != 0 && Raises(flash[..], ram, to, from, n))
      ensures !refused ==> needsErase == NeedsErase(flash[..], ram, to, from, n)
    {
      var raises, at := ScanRaises(to, from, n);
      refused, needsErase := false, raises;
      if n != ERASE_SECTOR_SIZE {
        if to % ERASE_SECTOR_SIZE == 0 && n == FATFS_SECTOR_SIZE {
          var blank := ScanBlank(at, ERASE_SECTOR_SIZE - n);
          needsErase := needsErase || !blank;
        } else if needsErase {
          if to % ERASE_SECTOR_SIZE != 0 {
            refused := true;
          }
        }
      }
    }

    /** All checks passed: store the parameters and begin. */
    method Start(to: int, from: nat, n: nat, needsErase: bool) returns (rc: int)
      requires flash.Length == SPIFLASH_SIZE && Fits(to, n)
      requires needsErase == NeedsErase(flash[..], ram, to, from, n)
      modifies this
      ensures Reply(Abs(), rc) == Accept(old(Abs()), to, from, n)
    {
      var mask := ScanPages(to, from, n, needsErase);
      pages, src, dst, size, remaining, nextPage := mask, from, to, n, n, 0;
      var any := exists i :: 0 <= i < 16 && mask[i];
      if needsErase {
        mode, bitBang := EraseTrack, true;
      } else if any {
        mode, bitBang := WriteSector, true;
      } else {
        return n;
      }
      return 0;
    }

    /** `flash_task`. */
    method FlashTask(busy: bool)
      requires Valid()
      modifies this, flash
      ensures Valid() && Abs() == Task(old(Abs()), busy)
    {
      TaskKeeps(Abs(), busy);
      match mode
      case UserMode =>
      case EraseTrack =>
        if !busy {
          if dst < FIRST_SAFE_ADDRESS {
            mode := VerifyTrack;
          } else {
            BeginErase(dst - dst % ERASE_SECTOR_SIZE);
            mode := WriteSector;
          }
        }
      case WriteSector =>
        if !busy {
          if dst < FIRST_SAFE_ADDRESS {
            mode := VerifyTrack;
          } else {
            ProgramNext();
          }
        }
      case VerifyTrack =>
        if !busy {
          bitBang := false;
          mode := UserMode;
        }
    }

    /** The programming of one page, or the discovery that none is left. */
    method ProgramNext()
      requires Valid() && mode == WriteSector && FIRST_SAFE_ADDRESS <= dst
      modifies this, flash
      ensures flash.Length == SPIFLASH_SIZE && Abs() == Task(old(Abs()), false)
    {
      hide Programmed;
      var any := exists i :: 0 <= i < 16 && pages[i];
      if !any {
        mode := VerifyTrack;
        return;
      }
      ghost var was := Abs();
      NextCommand(was);
      ProgramFrom(was, NextPage(pages, nextPage), NextPage(pages, nextPage));
      hide ProgramPage;
      hide PageCommand;
      FindPage();
      ProgramCurrent();
    }

    /** Move on to the next page that is marked. */
    method FindPage()
      requires nextPage <= 16 && NextPage(pages, nextPage) < 16
      modifies this`nextPage
      ensures nextPage == NextPage(old(pages), old(nextPage))
    {
      while !pages[nextPage]
        invariant nextPage <= 16 && NextPage(pages, nextPage) < 16
        invariant NextPage(pages, nextPage) == NextPage(old(pages), old(nextPage))
        decreases 16 - nextPage
      {
        nextPage := nextPage + 1;
      }
    }

    /** Program the page `nextPage` and count its bytes. */
    method ProgramCurrent()
      requires flash.Length == SPIFLASH_SIZE && nextPage < 16 && mode == WriteSector && dst >= 0
      requires var c := PageCommand(Abs(), nextPage); InOneSafePage(c.at, c.n) && c.n <= remaining
      modifies this, flash
      ensures flash.Length == SPIFLASH_SIZE && Abs() == ProgramPage(old(Abs()), old(nextPage))
    {
      hide Programmed;
      ghost var was := Abs();
      pages := pages[nextPage := false];
      var at := dst + nextPage * PROGRAM_PAGE_SIZE;
      var from := src + nextPage * PROGRAM_PAGE_SIZE;
      var n := PROGRAM_PAGE_SIZE;
      if at % PROGRAM_PAGE_SIZE != 0 {
        if nextPage == 0 {
          n := PROGRAM_PAGE_SIZE - at % PROGRAM_PAGE_SIZE;
        } else {
          at := at - at % PROGRAM_PAGE_SIZE;
          from := from - from % PROGRAM_PAGE_SIZE;
        }
      }
      if n > remaining {
        n := remaining;
      }
      assert Command(at, from, n) == PageCommand(was, nextPage);
      BeginWrite(at, from, n);
      remaining := remaining - n;
      if remaining == 0 {
        mode := VerifyTrack;
      }
    }
  }
}
