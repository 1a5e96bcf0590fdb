/**
 The flash writer of sw/src/flash.c: `write_flash`, `read_flash`, `flash_task`
 and the transfer globals they share. The chip is seen through three
 operations: erase a 4 KiB sector (every bit one), program within a page
 (ones can become zeros) and a busy flag that may answer anything.
*/
module Flash {
  import opened Bytes

  const FIRST_SAFE_ADDRESS := 0x80000
  const SPIFLASH_SIZE := 0x200000
  const ERASE_SECTOR_SIZE := 4096
  const PROGRAM_PAGE_SIZE := 256
  const FATFS_SECTOR_SIZE := 512

  /** Main memory, where source buffers live. */
  type Ram = nat -> byte

  type Image = f: seq<byte> | |f| == SPIFLASH_SIZE witness seq(SPIFLASH_SIZE, _ => 0)

  datatype Mode = UserMode | EraseTrack | WriteSector | VerifyTrack

  /** The globals of flash.c, the chip's contents and the buffers in memory. */
  datatype State = State(
    flash: Image, ram: Ram, mode: Mode, bitBang: bool,
    src: nat, dst: int, size: nat, remaining: nat, pages: Bits, nextPage: nat)

  datatype Reply = Reply(state: State, rc: int)

  // ---------------------------------------------------------------------
  //  The chip
  // ---------------------------------------------------------------------

  predicate InOneSafePage(at: int, n: nat) {
    FIRST_SAFE_ADDRESS <= at && at + n <= SPIFLASH_SIZE && at % PROGRAM_PAGE_SIZE + n <= PROGRAM_PAGE_SIZE
  }

  /** Byte i after erasing the sector at `at`. */
  function ErasedByte(f: Image, at: nat, i: nat): byte
    requires i < SPIFLASH_SIZE
  {
    if at <= i < at + ERASE_SECTOR_SIZE then 0xFF else f[i]
  }

  function Erased(f: Image, at: nat): Image {
    seq(SPIFLASH_SIZE, i requires 0 <= i < SPIFLASH_SIZE => ErasedByte(f, at, i))
  }

  /** Byte i after programming n bytes of memory at `at`. */
  function ProgrammedByte(f: Image, at: nat, ram: Ram, src: nat, n: nat, i: nat): byte
    requires i < SPIFLASH_SIZE
  {
    if at <= i < at + n then f[i] & ram(src + (i - at)) else f[i]
  }

  function Programmed(f: Image, at: nat, ram: Ram, src: nat, n: nat): Image {
    seq(SPIFLASH_SIZE, i requires 0 <= i < SPIFLASH_SIZE => ProgrammedByte(f, at, ram, src, n, i))
  }

  // ---------------------------------------------------------------------
  //  write_flash
  // ---------------------------------------------------------------------

  function SectorOf(dst: int): int {
    dst - dst % ERASE_SECTOR_SIZE
  }

  predicate Clash(f: Image, ram: Ram, dst: int, src: nat, i: nat)
    requires 0 <= dst && dst + i < SPIFLASH_SIZE
  {
    ram(src + i) & f[dst + i] != ram(src + i)
  }

  /** Some byte has a zero in the flash where the new one has a one. */
  predicate Raises(f: Image, ram: Ram, dst: int, src: nat, size: nat)
    requires 0 <= dst && dst + size <= SPIFLASH_SIZE
  {
    exists i :: 0 <= i < size && Clash(f, ram, dst, src, i)
  }

  predicate Blank(f: Image, from: nat, to: nat)
    requires to <= SPIFLASH_SIZE
  {
    forall i :: from <= i < to ==> f[i] == 0xFF
  }

  predicate Fits(dst: int, size: nat) {
    FIRST_SAFE_ADDRESS <= dst && Placed(dst, size)
  }

  /** Inside one sector of the flash. */
  predicate Placed(dst: int, size: nat) {
    && 0 <= dst
    && size <= ERASE_SECTOR_SIZE && dst + size <= SPIFLASH_SIZE
    && dst % ERASE_SECTOR_SIZE + size <= ERASE_SECTOR_SIZE
  }

  /** The first 512 bytes of a sector announce that the rest will follow. */
  predicate OpensSector(dst: int, size: nat) {
    dst % ERASE_SECTOR_SIZE == 0 && size == FATFS_SECTOR_SIZE
  }

  predicate NeedsErase(f: Image, ram: Ram, dst: int, src: nat, size: nat)
    requires Fits(dst, size)
  {
    || Raises(f, ram, dst, src, size)
    || (OpensSector(dst, size) && !Blank(f, dst + size, dst + ERASE_SECTOR_SIZE))
  }

  predicate PageAligned(dst: int, size: nat) {
    dst % PROGRAM_PAGE_SIZE == 0 && size % PROGRAM_PAGE_SIZE == 0
  }

  /** What the flash will hold before it is programmed, at the first byte. */
  function FirstByte(f: Image, dst: int, erase: bool): byte
    requires 0 <= dst < SPIFLASH_SIZE
  {
    if erase then 0xFF else f[dst]
  }

  /** The page scan as the code has it: neither pointer moves, so the first
      byte decides for every page. */
  function PageMask(f: Image, ram: Ram, dst: int, src: nat, size: nat, erase: bool): (m: Bits)
    requires Fits(dst, size)
  {
    seq(16, i requires 0 <= i < 16 => PageBit(f, ram, dst, src, size, erase, i))
  }

  predicate PageBit(f: Image, ram: Ram, dst: int, src: nat, size: nat, erase: bool, page: nat)
    requires Fits(dst, size)
  {
    !PageAligned(dst, size)
    || (page < size / PROGRAM_PAGE_SIZE && ram(src) != FirstByte(f, dst, erase))
  }

  predicate AnyPage(pages: Bits) {
    exists i :: 0 <= i < 16 && pages[i]
  }

  /** `write_flash`. A refused request also returns its size: the debug build
      defines NOT_WRITTEN_RC so. */
  function WriteFlash(f: State, dst: int, src: nat, size: nat): Reply {
    if f.src == src && f.dst == dst && f.size == size then
      Reply(f, if f.mode != UserMode then 0 else size)
    else if f.mode != UserMode then Reply(f, 0)
    else if !Fits(dst, size) then Reply(f, size)
    else if size != ERASE_SECTOR_SIZE && dst % ERASE_SECTOR_SIZE != 0 && Raises(f.flash, f.ram, dst, src, size) then
      Reply(f, size)
    else Accept(f, dst, src, size)
  }

  function Accept(f: State, dst: int, src: nat, size: nat): Reply
    requires Fits(dst, size)
  {
    var erase := NeedsErase(f.flash, f.ram, dst, src, size);
    var pages := PageMask(f.flash, f.ram, dst, src, size, erase);
    var g := f.(src := src, dst := dst, size := size, remaining := size, nextPage := 0, pages := pages);
    if erase then Reply(g.(mode := EraseTrack, bitBang := true), 0)
    else if AnyPage(pages) then Reply(g.(mode := WriteSector, bitBang := true), 0)
    else Reply(g, size)
  }

  // ---------------------------------------------------------------------
  //  flash_task
  // ---------------------------------------------------------------------

  /** First page at or after k that is still to be programmed. */
  function NextPage(pages: Bits, k: nat): (n: nat)
    requires k <= 16
    ensures k <= n <= 16
    ensures n < 16 ==> pages[n]
    ensures forall i :: k <= i < n ==> !pages[i]
    decreases 16 - k
  {
    if k == 16 || pages[k] then k else NextPage(pages, k + 1)
  }

  /** One programming command: where, from where, how much. */
  datatype Command = Command(at: int, src: nat, n: nat)

  function PageCommand(f: State, page: nat): Command {
    var dst := f.dst + page * PROGRAM_PAGE_SIZE;
    var src := f.src + page * PROGRAM_PAGE_SIZE;
    var off := dst % PROGRAM_PAGE_SIZE;
    var cut := if off != 0 && page == 0 then PROGRAM_PAGE_SIZE - off else PROGRAM_PAGE_SIZE;
    var n := if cut > f.remaining then f.remaining else cut;
    if off != 0 && page != 0 then Command(dst - off, src - src % PROGRAM_PAGE_SIZE, n)
    else Command(dst, src, n)
  }

  /** `flash_task`; `busy` is what the chip answers if it is asked. The guard
      against unsafe addresses stays although `write_flash` makes it idle. */
  function Task(f: State, busy: bool): State
    requires Sound(f)
  {
    match f.mode
    case UserMode => f
    case EraseTrack =>
      if busy then f
      else if f.dst < FIRST_SAFE_ADDRESS then f.(mode := VerifyTrack)
      else f.(flash := Erased(f.flash, SectorOf(f.dst)), mode := WriteSector)
    case WriteSector =>
      if busy then f
      else if f.dst < FIRST_SAFE_ADDRESS then f.(mode := VerifyTrack)
      else if !AnyPage(f.pages) then f.(mode := VerifyTrack)
      else ProgramPage(f, NextPage(f.pages, f.nextPage))
    case VerifyTrack =>
      if busy then f else f.(mode := UserMode, bitBang := false)
  }

  function ProgramPage(f: State, page: nat): State
    requires page < 16 && PageCommand(f, page).n <= f.remaining && 0 <= PageCommand(f, page).at
  {
    var c := PageCommand(f, page);
    f.(flash := Programmed(f.flash, c.at, f.ram, c.src, c.n),
       pages := f.pages[page := false],
       nextPage := page,
       remaining := f.remaining - c.n,
       mode := if f.remaining == c.n then VerifyTrack else WriteSector)
  }

  // ---------------------------------------------------------------------
  //  The invariant
  // ---------------------------------------------------------------------

  /** Bytes that belong to the first k pages of a transfer to dst. */
  function Done(dst: int, k: nat): int {
    if k == 0 then 0 else PROGRAM_PAGE_SIZE * k - dst % PROGRAM_PAGE_SIZE
  }

  function Limit(dst: int, size: nat): nat {
    if PageAligned(dst, size) then size / PROGRAM_PAGE_SIZE else 16
  }

  /** The pages still to be programmed are k, k+1, ... up to the limit, and
      what remains is what lies beyond the first k. */
  ghost predicate Pending(f: State) {
    AnyPage(f.pages) ==>
      var k := NextPage(f.pages, 0);
      && f.nextPage <= k
      && (forall i :: 0 <= i < 16 ==> (f.pages[i] <==> k <= i < Limit(f.dst, f.size)))
      && f.remaining == f.size - Done(f.dst, k)
  }

  /** What every interleaving of requests and task calls keeps. */
  ghost predicate Sound(f: State) {
    && (f.bitBang <==> f.mode != UserMode)
    && (f.mode == EraseTrack || f.mode == WriteSector ==> Placed(f.dst, f.size) && f.remaining <= f.size && Pending(f))
    && (f.mode == EraseTrack ==> f.dst < SPIFLASH_SIZE && f.remaining == f.size && (AnyPage(f.pages) ==> f.pages[0]))
  }
}
