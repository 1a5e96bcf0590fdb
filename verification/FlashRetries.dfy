/**
 The flash writer as a host uses it: a request is repeated until it is
 answered with its size, while the chip may be busy, reads come in between and
 other requests arrive.
*/
module FlashRetries {
  import opened Bytes
  import opened Flash
  import opened FlashRuns
  import opened FlashTransfer

  datatype Request = Request(dst: int, src: nat, size: nat)

  predicate IsCurrent(f: State, r: Request) {
    f.src == r.src && f.dst == r.dst && f.size == r.size
  }

  /** Task calls, reads, repetitions of r; any other request only while the
      transfer is under way. */
  ghost predicate Repeats(f: State, es: seq<Event>, r: Request)
    requires Sound(f)
    decreases |es|
  {
    es == [] || (
      && !es[0].Refill?
      && (es[0].Write? && f.mode == UserMode ==> es[0] == Write(r.dst, r.src, r.size))
      && Repeats(React(f, es[0]), es[1..], r))
  }

  /** However it is interleaved, a transfer heads for the same end, and the
      request stays the current one. */
  lemma {:induction false} RepeatsFinish(f: State, es: seq<Event>, r: Request)
    requires Sound(f) && IsCurrent(f, r) && Repeats(f, es, r)
    ensures Finish(After(f, es)) == Finish(f) && IsCurrent(After(f, es), r)
    decreases |es|
  {
    if es != [] {
      var g := React(f, es[0]);
      if f.mode != UserMode {
        TaskProgress(f);
      }
      assert Finish(g) == Finish(f);
      RepeatsFinish(g, es[1..], r);
    }
  }

  /** The request is accepted: in range, and no erase is needed in the middle
      of a sector. */
  predicate Acceptable(f: State, r: Request) {
    && Fits(r.dst, r.size)
    && (r.size != ERASE_SECTOR_SIZE && r.dst % ERASE_SECTOR_SIZE != 0 ==> !Raises(f.flash, f.ram, r.dst, r.src, r.size))
  }

  lemma {:induction false} FinishedIsFinal(f: State)
    requires Sound(f) && f.mode == UserMode
    ensures Finish(f) == f
  {
  }

  /** A request and whatever comes before the repetition that is answered with
      the size: the flash is as if the transfer had run on its own; and that
      answer comes exactly when the transfer is over. */
  lemma {:induction false} AnsweredWhenDone(f: State, es: seq<Event>, r: Request)
    requires Sound(f) && f.mode == UserMode && !IsCurrent(f, r) && Acceptable(f, r) && r.size > 0
    requires Repeats(f, [Write(r.dst, r.src, r.size)] + es, r)
    ensures var g := After(f, [Write(r.dst, r.src, r.size)] + es);
      && (WriteFlash(g, r.dst, r.src, r.size).rc == r.size <==> g.mode == UserMode)
      && (g.mode == UserMode ==> g == Settle(f, r.dst, r.src, r.size))
  {
    var all := [Write(r.dst, r.src, r.size)] + es;
    assert all[1..] == es;
    var g := React(f, all[0]);
    RepeatsFinish(g, es, r);
    var h := After(f, all);
    if h.mode == UserMode {
      FinishedIsFinal(h);
    }
  }

  // ---------------------------------------------------------------------
  //  A block in eight requests
  // ---------------------------------------------------------------------

  function ChunkRequest(sector: nat, src: nat, j: nat): Request {
    Request(sector + 512 * j, src, 512)
  }

  /** For each chunk: its buffer is filled, it is requested, and the events
      that follow until the request is answered with its size. */
  function BlockEvents(sector: nat, fill: nat -> Ram, src: nat -> nat, between: nat -> seq<Event>, k: nat): seq<Event> {
    if k == 0 then []
    else
      BlockEvents(sector, fill, src, between, k - 1)
      + [Refill(fill(k - 1)), Write(sector + 512 * (k - 1), src(k - 1), 512)] + between(k - 1)
  }

  /** Every chunk so far was repeated until it was answered with its size. */
  ghost predicate Answered(f: State, sector: nat, fill: nat -> Ram, src: nat -> nat, between: nat -> seq<Event>, k: nat)
    requires Sound(f)
  {
    k == 0 || (
      && Answered(f, sector, fill, src, between, k - 1)
      && var g := After(f, BlockEvents(sector, fill, src, between, k - 1)).(ram := fill(k - 1));
         var r := ChunkRequest(sector, src(k - 1), k - 1);
      && Sound(g)
      && Repeats(g, [Write(r.dst, r.src, r.size)] + between(k - 1), r)
      && WriteFlash(After(f, BlockEvents(sector, fill, src, between, k)), r.dst, r.src, r.size).rc == r.size)
  }

  lemma {:induction false} AfterJoins(f: State, a: seq<Event>, b: seq<Event>)
    requires Sound(f)
    ensures After(f, a + b) == After(After(f, a), b)
    decreases |a|
  {
    hide React;
    if a == [] {
      assert a + b == b;
    } else {
      assert (a + b)[1..] == a[1..] + b;
      AfterJoins(React(f, a[0]), a[1..], b);
    }
  }

  lemma {:induction false} RefillIs(f: State, ram: Ram)
    requires Sound(f) && f.mode == UserMode
    ensures React(f, Refill(ram)) == f.(ram := ram)
  {
  }

  lemma {:induction false} RefilledThen(f: State, ram: Ram, es: seq<Event>)
    requires Sound(f) && f.mode == UserMode
    ensures Sound(f.(ram := ram)) && After(f, [Refill(ram)] + es) == After(f.(ram := ram), es)
  {
    RefillIs(f, ram);
    assert ([Refill(ram)] + es)[1..] == es;
  }

  /** One more chunk of the run is one more chunk settled. */
  lemma {:induction false} ChunkRuns(h: State, sector: nat, ram: Ram, src: nat, b: Block, between: seq<Event>, j: nat)
    requires Sound(h) && h.mode == UserMode && j < CHUNKS && IsSector(sector)
    requires !(h.src == src && h.dst == sector + 512 * j && h.size == 512)
    requires Buffered(ram, src, b, j) && (j > 0 ==> Blank(h.flash, sector + 512 * j, sector + ERASE_SECTOR_SIZE))
    requires var r := ChunkRequest(sector, src, j);
      && Sound(h.(ram := ram))
      && Repeats(h.(ram := ram), [Write(r.dst, r.src, r.size)] + between, r)
      && WriteFlash(After(h.(ram := ram), [Write(r.dst, r.src, r.size)] + between), r.dst, r.src, r.size).rc == r.size
    ensures After(h.(ram := ram), [Write(sector + 512 * j, src, 512)] + between)
      == Settle(h.(ram := ram), sector + 512 * j, src, 512)
  {
    hide WriteFlash, Settle, After, Repeats, Sound;
    var g, r := h.(ram := ram), ChunkRequest(sector, src, j);
    ChunkPlaced(sector, j);
    if j > 0 {
      BlankNeverRaises(g.flash, g.ram, r.dst, src, 512);
    }
    AnsweredWhenDone(g, between, r);
  }

  /** Where the next chunk goes is blank, and it is a new request. */
  lemma {:induction false} NextChunkFits(f: State, sector: nat, fill: nat -> Ram, src: nat -> nat, b: Block, k: nat)
    requires Sound(f) && f.mode == UserMode && k < CHUNKS && IsSector(sector)
    requires !(f.src == src(0) && f.dst == sector && f.size == 512) && Offers(fill, src, b)
    ensures var h := AfterChunks(f, sector, fill, src, k);
      && !(h.src == src(k) && h.dst == sector + 512 * k && h.size == 512)
      && (k > 0 ==> Blank(h.flash, sector + 512 * k, sector + ERASE_SECTOR_SIZE))
      && Buffered(fill(k), src(k), b, k)
  {
    hide Settle, Sound, Base;
    if k > 0 {
      ChunksWritten(f, sector, fill, src, b, k);
    }
  }

  lemma {:induction false} BlockEventsRun(f: State, sector: nat, fill: nat -> Ram, src: nat -> nat,
                                         between: nat -> seq<Event>, k: nat)
    requires Sound(f) && After(f, BlockEvents(sector, fill, src, between, k)).mode == UserMode
    ensures var h := After(f, BlockEvents(sector, fill, src, between, k)).(ram := fill(k));
      && Sound(h)
      && After(f, BlockEvents(sector, fill, src, between, k + 1))
         == After(h, [Write(sector + 512 * k, src(k), 512)] + between(k))
  {
    hide React, Sound;
    var es := BlockEvents(sector, fill, src, between, k);
    var first := [Write(sector + 512 * k, src(k), 512)] + between(k);
    assert BlockEvents(sector, fill, src, between, k + 1) == es + ([Refill(fill(k))] + first);
    AfterJoins(f, es, [Refill(fill(k))] + first);
    RefilledThen(After(f, es), fill(k), first);
  }

  lemma {:induction false} NothingSent(f: State, sector: nat, fill: nat -> Ram, src: nat -> nat, between: nat -> seq<Event>)
    requires Sound(f) && f.mode == UserMode
    ensures After(f, BlockEvents(sector, fill, src, between, 0)) == f == AfterChunks(f, sector, fill, src, 0)
  {
  }

  lemma {:induction false} OneMoreSettled(f: State, sector: nat, fill: nat -> Ram, src: nat -> nat, k: nat)
    requires Sound(f) && f.mode == UserMode
    ensures var h := AfterChunks(f, sector, fill, src, k).(ram := fill(k));
      Sound(h) && AfterChunks(f, sector, fill, src, k + 1) == Settle(h, sector + 512 * k, src(k), 512)
  {
    hide Settle;
  }

  /** What being answered says of the last of k + 1 chunks. */
  lemma {:induction false} LastAnswer(f: State, sector: nat, fill: nat -> Ram, src: nat -> nat, between: nat -> seq<Event>, k: nat)
    requires Sound(f) && Answered(f, sector, fill, src, between, k + 1)
    ensures Answered(f, sector, fill, src, between, k)
    ensures var g := After(f, BlockEvents(sector, fill, src, between, k)).(ram := fill(k));
      var r := ChunkRequest(sector, src(k), k);
      && Sound(g)
      && Repeats(g, [Write(r.dst, r.src, r.size)] + between(k), r)
      && WriteFlash(After(f, BlockEvents(sector, fill, src, between, k + 1)), r.dst, r.src, r.size).rc == r.size
  {
    hide Sound, After, BlockEvents, Repeats, WriteFlash;
  }

  lemma {:induction false} ChunkRequestIs(sector: nat, src: nat, j: nat)
    ensures var r := ChunkRequest(sector, src, j); r.dst == sector + 512 * j && r.src == src && r.size == 512
  {
  }

  lemma {:induction false} RunIsChunks(f: State, sector: nat, fill: nat -> Ram, src: nat -> nat, b: Block,
                                      between: nat -> seq<Event>, k: nat)
    requires Sound(f) && f.mode == UserMode && k <= CHUNKS && IsSector(sector)
    requires !(f.src == src(0) && f.dst == sector && f.size == 512)
    requires Offers(fill, src, b) && Answered(f, sector, fill, src, between, k)
    ensures After(f, BlockEvents(sector, fill, src, between, k)) == AfterChunks(f, sector, fill, src, k)
    decreases k
  {
    hide *;
    if k == 0 {
      NothingSent(f, sector, fill, src, between);
    } else {
      var j := k - 1;
      LastAnswer(f, sector, fill, src, between, j);
      RunIsChunks(f, sector, fill, src, b, between, j);
      NextChunkFits(f, sector, fill, src, b, j);
      BlockEventsRun(f, sector, fill, src, between, j);
      OneMoreSettled(f, sector, fill, src, j);
      ChunkRequestIs(sector, src(j), j);
      ChunkRuns(AfterChunks(f, sector, fill, src, j), sector, fill(j), src(j), b, between(j), j);
    }
  }

  /** The whole run of a host that writes a block: eight requests, each
      repeated until answered, with busy answers, reads and other requests in
      between. Every other sector keeps its contents; the sector holds the
      block exactly when the page scan took every chunk. */
  lemma {:induction false} BlockRun(f: State, sector: nat, fill: nat -> Ram, src: nat -> nat, b: Block,
                                   between: nat -> seq<Event>)
    requires Sound(f) && f.mode == UserMode && IsSector(sector)
    requires !(f.src == src(0) && f.dst == sector && f.size == 512)
    requires Offers(fill, src, b) && Answered(f, sector, fill, src, between, CHUNKS)
    ensures var g := After(f, BlockEvents(sector, fill, src, between, CHUNKS));
      var base := Base(f.(ram := fill(0)), sector, src(0), 512);
      && (g.flash[sector..sector + ERASE_SECTOR_SIZE] == b <==> forall j :: 0 <= j < CHUNKS ==> Takes(base, sector, b, j))
      && g.flash[..sector] == f.flash[..sector]
      && g.flash[sector + ERASE_SECTOR_SIZE..] == f.flash[sector + ERASE_SECTOR_SIZE..]
  {
    RunIsChunks(f, sector, fill, src, b, between, CHUNKS);
    BlockWrite(f, sector, fill, src, b);
  }
}
