/**
 What the flash writer keeps on every run: its commands are always safe,
 nothing below the safe address changes, and it comes back to user mode after
 a number of ready calls that is known beforehand.
*/
module FlashRuns {
  import opened Bytes
  import opened Flash

  // ---------------------------------------------------------------------
  //  Steps keep the invariant and are safe
  // ---------------------------------------------------------------------

  lemma {:induction false} NextPageIs(pages: Bits, from: nat, k: nat)
    requires from <= k <= 16 && (forall i :: from <= i < k ==> !pages[i]) && (k < 16 ==> pages[k])
    ensures NextPage(pages, from) == k
    decreases k - from
  {
    if from < k {
      NextPageIs(pages, from + 1, k);
    }
  }

  /** The page that comes next, and what is known about its command. */
  lemma {:induction false} NextCommand(f: State)
    requires Sound(f) && f.mode == WriteSector && AnyPage(f.pages) && FIRST_SAFE_ADDRESS <= f.dst
    ensures var p := NextPage(f.pages, f.nextPage);
      var c := PageCommand(f, p);
      && p == NextPage(f.pages, 0) && p < Limit(f.dst, f.size) && p < 16
      && c.at == f.dst + Done(f.dst, p) && InOneSafePage(c.at, c.n)
      && c.n <= f.remaining && f.remaining == f.size - Done(f.dst, p)
      && (c.n < f.remaining ==> f.remaining - c.n == f.size - Done(f.dst, p + 1))
  {
    hide PageCommand, InOneSafePage, Limit, Done;
    var p := NextPage(f.pages, 0);
    NextPageIs(f.pages, f.nextPage, p);
    LimitIs(f.dst, f.size);
    CommandInPage(f, p);
  }

  lemma LimitIs(dst: int, size: nat)
    requires Placed(dst, size)
    ensures Limit(dst, size) <= 16
  {
  }

  /** The command for page p, given what the pages before it have taken. */
  lemma {:induction false} CommandInPage(f: State, p: nat)
    requires FIRST_SAFE_ADDRESS <= f.dst && Placed(f.dst, f.size) && p < Limit(f.dst, f.size) <= 16
    requires f.remaining <= f.size && f.remaining == f.size - Done(f.dst, p)
    ensures var c := PageCommand(f, p);
      && c.at == f.dst + Done(f.dst, p) && InOneSafePage(c.at, c.n)
      && c.n <= f.remaining
      && (c.n < f.remaining ==> f.remaining - c.n == f.size - Done(f.dst, p + 1))
  {
    hide Limit;
    var q, off := f.dst / PROGRAM_PAGE_SIZE, f.dst % PROGRAM_PAGE_SIZE;
    SamePage(q, off, p);
    var c := PageCommand(f, p);
    if p == 0 {
      assert c.at == f.dst;
    } else {
      SamePage(q, 0, p);
      assert c.at == PROGRAM_PAGE_SIZE * q + p * PROGRAM_PAGE_SIZE;
    }
  }

  lemma {:induction false} SamePage(q: int, off: int, p: int)
    requires 0 <= off < PROGRAM_PAGE_SIZE
    ensures (PROGRAM_PAGE_SIZE * q + off + p * PROGRAM_PAGE_SIZE) % PROGRAM_PAGE_SIZE == off
    ensures (PROGRAM_PAGE_SIZE * q + p * PROGRAM_PAGE_SIZE) % PROGRAM_PAGE_SIZE == 0
  {
  }

  /** Clearing the first of a range of pages leaves the rest of the range. */
  lemma ClearFirst(pages: Bits, k: nat, limit: nat)
    requires k < limit <= 16 && forall i :: 0 <= i < 16 ==> (pages[i] <==> k <= i < limit)
    ensures var q: Bits := pages[k := false];
      && (AnyPage(q) <==> k + 1 < limit)
      && (AnyPage(q) ==> NextPage(q, 0) == k + 1)
      && forall i :: 0 <= i < 16 ==> (q[i] <==> k + 1 <= i < limit)
  {
    var q: Bits := pages[k := false];
    if k + 1 < limit {
      assert q[k + 1];
      NextPageIs(q, 0, k + 1);
    }
  }

  lemma ProgramKeeps(f: State)
    requires Sound(f) && f.mode == WriteSector && AnyPage(f.pages) && FIRST_SAFE_ADDRESS <= f.dst
    ensures PageCommand(f, NextPage(f.pages, f.nextPage)).at >= 0
    ensures Sound(ProgramPage(f, NextPage(f.pages, f.nextPage)))
  {
    hide Programmed;
    hide PageCommand;
    NextCommand(f);
    var p := NextPage(f.pages, f.nextPage);
    ClearFirst(f.pages, p, Limit(f.dst, f.size));
  }

  lemma TaskKeeps(f: State, busy: bool)
    requires Sound(f)
    ensures Sound(Task(f, busy))
  {
    if f.mode == EraseTrack && AnyPage(f.pages) {
      NextPageIs(f.pages, 0, 0);
    }
    if f.mode == WriteSector && AnyPage(f.pages) && FIRST_SAFE_ADDRESS <= f.dst {
      ProgramKeeps(f);
    }
  }

  lemma AcceptKeeps(f: State, dst: int, src: nat, size: nat)
    requires Sound(f) && f.mode == UserMode && Fits(dst, size)
    ensures Sound(Accept(f, dst, src, size).state)
    ensures var m := Accept(f, dst, src, size).state.pages;
      AnyPage(m) ==> m[0] && NextPage(m, 0) == 0 && forall i :: 0 <= i < 16 ==> (m[i] <==> i < Limit(dst, size))
  {
    var g := Accept(f, dst, src, size).state;
    if AnyPage(g.pages) {
      var i :| 0 <= i < 16 && g.pages[i];
      assert g.pages[0];
      NextPageIs(g.pages, 0, 0);
    }
  }

  lemma WriteKeeps(f: State, dst: int, src: nat, size: nat)
    requires Sound(f)
    ensures Sound(WriteFlash(f, dst, src, size).state)
  {
    if f.mode == UserMode && Fits(dst, size) {
      AcceptKeeps(f, dst, src, size);
    }
  }

  /** Task calls still needed before the device is readable again, if the chip
      is never busy. */
  function Measure(f: State): nat {
    match f.mode
    case UserMode => 0
    case VerifyTrack => 1
    case WriteSector => Left(f) + 2
    case EraseTrack => Left(f) + 3
  }

  /** The 256-byte pages of the chip that a transfer touches. */
  function Pages(dst: int, size: nat): nat {
    (dst % PROGRAM_PAGE_SIZE + size + PROGRAM_PAGE_SIZE - 1) / PROGRAM_PAGE_SIZE
  }

  function Left(f: State): nat {
    if AnyPage(f.pages) && NextPage(f.pages, 0) < Pages(f.dst, f.size) then Pages(f.dst, f.size) - NextPage(f.pages, 0) else 0
  }

  /** Page k of the chip is touched exactly if one of the transfer's bytes
      lies in it. */
  lemma {:induction false} PagesAreTouched(dst: nat, size: nat, k: nat)
    requires size > 0
    ensures var first := dst / PROGRAM_PAGE_SIZE;
      first <= k < first + Pages(dst, size) <==> exists i :: dst <= i < dst + size && i / PROGRAM_PAGE_SIZE == k
  {
    var first, off := dst / PROGRAM_PAGE_SIZE, dst % PROGRAM_PAGE_SIZE;
    var n := Pages(dst, size);
    assert PROGRAM_PAGE_SIZE * n < off + size + PROGRAM_PAGE_SIZE <= PROGRAM_PAGE_SIZE * n + PROGRAM_PAGE_SIZE;
    if first <= k < first + n {
      var i := if k == first then dst else PROGRAM_PAGE_SIZE * k;
      assert dst <= i < dst + size && i / PROGRAM_PAGE_SIZE == k;
    }
  }

  /** A busy chip costs nothing but the call; otherwise each call makes
      progress. */
  lemma TaskProgress(f: State)
    requires Sound(f) && f.mode != UserMode
    ensures Task(f, true) == f
    ensures Measure(Task(f, false)) < Measure(f)
  {
    hide Programmed;
    hide PageCommand;
    if f.mode == WriteSector && AnyPage(f.pages) && FIRST_SAFE_ADDRESS <= f.dst {
      NextCommand(f);
      ClearFirst(f.pages, NextPage(f.pages, f.nextPage), Limit(f.dst, f.size));
    }
  }

  // ---------------------------------------------------------------------
  //  Every interleaving
  // ---------------------------------------------------------------------

  datatype Event =
    | Write(dst: int, src: nat, size: nat)
    | Read(at: nat, size: nat)
    | Poll(busy: bool)
    | Refill(ram: Ram)

  /** The source buffers change only between transfers. */
  function React(f: State, e: Event): (g: State)
    requires Sound(f)
    ensures Sound(g)
  {
    match e
    case Write(dst, src, size) => WriteKeeps(f, dst, src, size); WriteFlash(f, dst, src, size).state
    case Read(_, _) => f
    case Poll(busy) => TaskKeeps(f, busy); Task(f, busy)
    case Refill(ram) => if f.mode == UserMode then f.(ram := ram) else f
  }

  function After(f: State, es: seq<Event>): (g: State)
    requires Sound(f)
    ensures Sound(g)
    decreases |es|
  {
    if es == [] then f else After(React(f, es[0]), es[1..])
  }

  lemma StepSafe(f: State, e: Event)
    requires Sound(f)
    ensures React(f, e).flash[..FIRST_SAFE_ADDRESS] == f.flash[..FIRST_SAFE_ADDRESS]
  {
    if e.Poll? && f.mode == WriteSector && AnyPage(f.pages) && FIRST_SAFE_ADDRESS <= f.dst {
      NextCommand(f);
    }
  }

  /** Whatever is requested and however the chip answers, nothing below the
      safe address ever changes. */
  lemma {:induction false} LowFlashUntouched(f: State, es: seq<Event>)
    requires Sound(f)
    ensures After(f, es).flash[..0x80000] == f.flash[..0x80000]
    decreases |es|
  {
    if es != [] {
      StepSafe(f, es[0]);
      LowFlashUntouched(React(f, es[0]), es[1..]);
    }
  }

  /** `flash_task` guards against unsafe addresses, but on no run from user
      mode does it ever find one. */
  ghost predicate Safe(f: State) {
    f.mode != UserMode ==> FIRST_SAFE_ADDRESS <= f.dst
  }

  lemma {:induction false} GuardNeverFires(f: State, es: seq<Event>)
    requires Sound(f) && Safe(f)
    ensures Safe(After(f, es))
    decreases |es|
  {
    if es != [] {
      GuardNeverFires(React(f, es[0]), es[1..]);
    }
  }

  /** On every run from user mode, whenever the next task call erases or
      programs, it does so above the safe address, a whole sector or within one
      page; and the chip is bit-banged exactly while a transfer is under way. */
  lemma {:induction false} CommandsAreSafe(f: State, es: seq<Event>)
    requires Sound(f) && f.mode == UserMode
    ensures var g := After(f, es);
      && (g.bitBang <==> g.mode != UserMode)
      && (g.mode == EraseTrack ==>
            var at := SectorOf(g.dst); 0x80000 <= at <= g.dst < at + 4096 <= 0x200000 && at % 4096 == 0)
      && (g.mode == WriteSector && AnyPage(g.pages) ==>
            var c := PageCommand(g, NextPage(g.pages, g.nextPage));
            0x80000 <= c.at && c.at + c.n <= 0x200000 && c.at % 256 + c.n <= 256)
  {
    GuardNeverFires(f, es);
    var g := After(f, es);
    if g.mode == WriteSector && AnyPage(g.pages) {
      NextCommand(g);
    }
  }

  /** Task calls in es that find the chip ready. */
  function Ready(es: seq<Event>): nat {
    if es == [] then 0 else (if es[0] == Poll(false) then 1 else 0) + Ready(es[1..])
  }

  /** Once a transfer is under way, requests and reads cannot disturb it: as
      many ready task calls as the measure bring back user mode. */
  lemma {:induction false} ReturnsToUserMode(f: State, es: seq<Event>) returns (n: nat)
    requires Sound(f) && Ready(es) >= Measure(f)
    ensures n <= |es| && After(f, es[..n]).mode == UserMode
    decreases |es|
  {
    if f.mode == UserMode {
      n := 0;
    } else {
      TaskProgress(f);
      var g := React(f, es[0]);
      assert es[0] != Poll(false) ==> g == f || g.mode == UserMode;
      var m := ReturnsToUserMode(g, es[1..]);
      n := m + 1;
      assert es[..n][1..] == es[1..][..m];
    }
  }

  /** At most one call for each page the transfer touches and three more. */
  lemma AcceptedMeasure(f: State, dst: int, src: nat, size: nat)
    requires Sound(f) && f.mode == UserMode && Fits(dst, size)
    ensures Measure(Accept(f, dst, src, size).state) <= Pages(dst, size) + 3
  {
  }

  /** So an accepted transfer is over after that many ready task calls,
      whatever else happens in between. */
  lemma {:induction false} AcceptedReturns(f: State, dst: int, src: nat, size: nat, es: seq<Event>) returns (n: nat)
    requires Sound(f) && f.mode == UserMode && Fits(dst, size) && Sound(Accept(f, dst, src, size).state)
    requires Ready(es) >= Pages(dst, size) + 3
    ensures n <= |es| && After(Accept(f, dst, src, size).state, es[..n]).mode == UserMode
  {
    AcceptedMeasure(f, dst, src, size);
    hide Accept, Measure, Pages;
    n := ReturnsToUserMode(Accept(f, dst, src, size).state, es);
  }

  // ---------------------------------------------------------------------
  //  What a transfer leaves in the flash
  // ---------------------------------------------------------------------

  /** The state once the transfer under way is over. */
  function Finish(f: State): (g: State)
    requires Sound(f)
    ensures Sound(g) && g.mode == UserMode
    decreases Measure(f)
  {
    if f.mode == UserMode then f
    else
      TaskKeeps(f, false);
      TaskProgress(f);
      Finish(Task(f, false))
  }

  /** Any run up to the moment user mode returns ends in that same state. */
  lemma {:induction false} RunFinishes(f: State, es: seq<Event>)
    requires Sound(f) && After(f, es).mode == UserMode
    requires forall i :: 0 <= i < |es| ==> After(f, es[..i]).mode != UserMode
    ensures After(f, es) == Finish(f)
    decreases |es|
  {
    if es == [] {
    } else {
      assert f.mode != UserMode by { assert After(f, es[..0]).mode != UserMode; assert es[..0] == []; }
      TaskProgress(f);
      var g := React(f, es[0]);
      assert Finish(g) == Finish(f);
      forall i | 0 <= i < |es| - 1 ensures After(g, es[1..][..i]).mode != UserMode {
        assert es[..i + 1][1..] == es[1..][..i];
        assert After(f, es[..i + 1]).mode != UserMode;
      }
      RunFinishes(g, es[1..]);
    }
  }
}
