/**
 Answers of the host as they are read: any number of polls, each finding
 nothing or some whole tokens at the start of a buffer with stale characters
 behind them.
*/
module DiskAnswers {
  import opened Bytes
  import opened DiskNibbles
  import opened DiskCache
  import opened DiskHost
  import opened DiskCoherence

  /** What one poll finds. */
  datatype Poll = Nothing | Read(ts: seq<Token>, buf: Buffer)

  predicate Fits(p: Poll) {
    p.Read? ==> p.ts != [] && Chunk(p.ts) && At(p.buf, 0, TextOf(p.ts))
  }

  /** The polls of one answer: none is made when a thousand before it have found
      nothing, and an end comes last. */
  predicate Arrives(ps: seq<Poll>, retries: nat)
    decreases |ps|
  {
    ps == [] ||
    (Fits(ps[0]) &&
     if ps[0].Nothing? then retries <= 1000 && Arrives(ps[1..], retries + 1)
     else (Last(ps[0].ts).End? ==> ps[1..] == []) && Arrives(ps[1..], 0))
  }

  function Last(ts: seq<Token>): Token
    requires ts != []
  {
    ts[|ts| - 1]
  }

  /** All that arrives. */
  function Said(ps: seq<Poll>): seq<Token> {
    if ps == [] then []
    else (if ps[0].Read? then ps[0].ts else []) + Said(ps[1..])
  }

  function Find(p: Poll): Usb
    requires Fits(p)
  {
    match p
    case Nothing => Silent
    case Read(ts, buf) => Received(buf, |TextOf(ts)|)
  }

  /** Poll after poll; outside a response nothing is parsed. */
  function Polls(c: State, retries: nat, ps: seq<Poll>): Option<Polled>
    requires Arrives(ps, retries)
    decreases |ps|
  {
    if ps == [] || c.ext != Reading then Some(Polled(c, retries))
    else
      match PollReading(c, retries, Find(ps[0]))
      case None => None
      case Some(p) => if ps[0].Nothing? then Polls(p.c, retries + 1, ps[1..]) else Polls(p.c, 0, ps[1..])
  }

  lemma {:induction false} RunAppendNone(c: State, a: seq<Token>, b: seq<Token>)
    requires Run(c, a).None?
    ensures Run(c, a + b).None?
    decreases |a|
  {
    hide Apply;
    assert (a + b)[1..] == a[1..] + b;
    if Apply(c, a[0]).Some? {
      RunAppendNone(Apply(c, a[0]).value, a[1..], b);
    }
  }

  /** Only an end ends the response. */
  lemma {:induction false} RunStaysReading(c: State, ts: seq<Token>)
    requires Chunk(ts) && ts != [] && !Last(ts).End? && c.ext == Reading && Run(c, ts).Some?
    ensures Run(c, ts).value.ext == Reading
    decreases |ts|
  {
    assert !ts[0].End?;
    if |ts| > 1 {
      ChunkTail(ts);
      assert Last(ts[1..]) == Last(ts);
      RunStaysReading(Apply(c, ts[0]).value, ts[1..]);
    } else {
      assert ts[1..] == [];
    }
  }

  lemma {:induction false} OneRead(c: State, retries: nat, p: Poll)
    requires p.Read? && Fits(p)
    ensures PollReading(c, retries, Find(p)) == match Run(c, p.ts)
      case None => None
      case Some(c1) => Some(Polled(c1, 0))
  {
    hide Round, Run, TextOf, Chunk, Parse;
    ParseIsRun(c, p.buf, 0, p.ts);
  }

  /** However an answer is cut into reads between its tokens, and whatever
      polls find nothing in between: the polls do what the tokens mean. */
  lemma {:induction false} PollsAreRun(c: State, retries: nat, ps: seq<Poll>)
    requires c.ext == Reading && Arrives(ps, retries)
    ensures Polls(c, retries, ps).None? <==> Run(c, Said(ps)).None?
    ensures Polls(c, retries, ps).Some? ==> Polls(c, retries, ps).value.c == Run(c, Said(ps)).value
    decreases |ps|
  {
    hide Run, Apply, Fits, Find;
    if ps == [] {
      NothingSaid(c);
    } else if ps[0].Nothing? {
      assert Said(ps) == Said(ps[1..]);
      assert PollReading(c, retries, Find(ps[0])) == Some(Polled(c, retries + 1)) by { NothingFound(c, retries); }
      PollsAreRun(c, retries + 1, ps[1..]);
    } else {
      ReadAndRest(c, retries, ps);
    }
  }

  lemma NothingSaid(c: State)
    ensures Run(c, []) == Some(c)
  {
  }

  lemma NothingFound(c: State, retries: nat)
    requires retries <= 1000
    ensures PollReading(c, retries, Find(Nothing)) == Some(Polled(c, retries + 1))
  {
  }

  lemma {:induction false} ReadAndRest(c: State, retries: nat, ps: seq<Poll>)
    requires c.ext == Reading && Arrives(ps, retries) && ps != [] && ps[0].Read?
    ensures Polls(c, retries, ps).None? <==> Run(c, Said(ps)).None?
    ensures Polls(c, retries, ps).Some? ==> Polls(c, retries, ps).value.c == Run(c, Said(ps)).value
    decreases |ps|, 0
  {
    hide Run, Apply, Find;
    var a, rest := ps[0].ts, ps[1..];
    OneRead(c, retries, ps[0]);
    match Run(c, a)
    case None => RunAppendNone(c, a, Said(rest));
    case Some(c1) =>
      RunAppend(c, a, Said(rest));
      if rest == [] {
        NothingSaid(c1);
      } else {
        RunStaysReading(c, a);
        PollsAreRun(c1, 0, rest);
      }
  }

  /** A USB buffer with a text at its beginning. */
  function Holding(text: seq<byte>): Buffer
    requires |text| <= CDC_RX_BUFSIZE
  {
    text + seq(CDC_RX_BUFSIZE + 4 - |text|, _ => 0)
  }

  /** Every answer can arrive: a token at a time, say. */
  lemma {:induction false} CanArrive(ts: seq<Token>, retries: nat) returns (ps: seq<Poll>)
    requires Chunk(ts)
    ensures Arrives(ps, retries) && Said(ps) == ts && (ts == [] ==> ps == [])
    decreases |ts|
  {
    hide Whole;
    if ts == [] {
      ps := [];
    } else {
      ChunkTail(ts);
      var rest := CanArrive(ts[1..], 0);
      OneFits(ts[0]);
      OneFirst(ts[0], rest, retries);
      ps := [Read([ts[0]], Holding(TextOf([ts[0]])))] + rest;
      assert [ts[0]] + ts[1..] == ts;
    }
  }

  lemma {:induction false} OneFirst(t: Token, ps: seq<Poll>, retries: nat)
    requires Whole(t) && |TextOf([t])| <= CDC_RX_BUFSIZE && (t.End? ==> ps == []) && Arrives(ps, 0)
    ensures var p := Read([t], Holding(TextOf([t])));
      Arrives([p] + ps, retries) && Said([p] + ps) == [t] + Said(ps)
  {
    hide TextOf, Whole;
    OneFits(t);
    var p := Read([t], Holding(TextOf([t])));
    assert ([p] + ps)[1..] == ps && Last([t]) == t;
  }

  lemma {:induction false} OneFits(t: Token)
    requires Whole(t)
    ensures |TextOf([t])| <= CDC_RX_BUFSIZE && Fits(Read([t], Holding(TextOf([t]))))
  {
    assert [t][1..] == [] && Text(t) + [] == Text(t);
  }

  // ---------------------------------------------------------------------
  //  A record
  // ---------------------------------------------------------------------

  /** A record of sector s that arrives in any number of reads. The cache then
      holds its payload; the sector is marked valid when the claimed checksum is
      that of the payload; no other sector and no other mark changes. */
  lemma {:induction false} RecordArrives(c: State, retries: nat, ps: seq<Poll>, s: nat, d: Sector)
    requires c.ext == Reading && Arrives(ps, retries) && s < 16 && IsRecord(Said(ps), s, d)
    ensures var r := Polls(c, retries, ps);
      var line := c.lines[0];
      var sum := Last(Said(ps));
      && r.Some? && r.value.c.ext == Reading
      && (forall drive, t :: 0 <= drive < 2 && 0 <= t < 16 ==>
          SectorAt(r.value.c, drive, t) == if drive == 0 && t == s then d else SectorAt(c, drive, t))
      && r.value.c.lines == (if Claims(sum.hi, sum.lo, d)
                             then c.lines[0 := line.(valid := line.valid[s := true])] else c.lines)
      && r.value.c.volumes == c.volumes
  {
    hide Run, Arrives, Polls, IsRecord, Claims;
    PollsAreRun(c, retries, ps);
    LastIsSum(Said(ps), s, d);
    var sum := Last(Said(ps));
    RecordStores(c, Said(ps), s, d);
    var believed := Claims(sum.hi, sum.lo, d);
    var c1 := Recorded(c, s, d, believed);
    forall drive, t | 0 <= drive < 2 && 0 <= t < 16
      ensures SectorAt(c1, drive, t) == if drive == 0 && t == s then d else SectorAt(c, drive, t)
    {
      RecordedAt(c, s, d, believed, drive, t);
    }
  }

  lemma LastIsSum(ts: seq<Token>, s: nat, d: Sector)
    requires IsRecord(ts, s, d)
    ensures ts != [] && Last(ts).Sum?
  {
  }

  lemma {:induction false} RecordedAt(c: State, s: nat, d: Sector, believed: bool, drive: nat, t: nat)
    requires s < 16 && drive < 2 && t < 16
    ensures SectorAt(Recorded(c, s, d, believed), drive, t) ==
      if drive == 0 && t == s then d else SectorAt(c, drive, t)
  {
    var r := Recorded(c, s, d, believed);
    assert r.data == Overwrite(c.data, s, d, 256);
    if drive == 1 {
      assert forall i :: 4096 <= i < CACHE_SIZE ==> r.data[i] == c.data[i];
      assert SectorAt(r, 1, t) == SectorAt(c, 1, t);
    } else {
      LoadedSectors(c, s, d, 512, t);
      assert SectorAt(r, 0, t) == SectorAt(Loaded(c, s, d, 512), 0, t);
    }
  }

  /** Damage to a single payload byte, in whatever reads the record arrives,
      with the checksum of the sector the host meant: no mark changes. So the
      damage is refused exactly if the sector was not valid before; if it was,
      it is the damaged bytes that are found from then on. */
  lemma {:induction false} DamagedRecordArrives(c: State, retries: nat, ps: seq<Poll>, s: nat, meant: Sector, got: Sector, i: nat)
    requires c.ext == Reading && Arrives(ps, retries) && s < 16 && i < SECTOR_SIZE && IsRecord(Said(ps), s, got)
    requires Claims(Last(Said(ps)).hi, Last(Said(ps)).lo, meant)
    requires got[i] != meant[i] && forall j :: 0 <= j < SECTOR_SIZE && j != i ==> got[j] == meant[j]
    ensures var r := Polls(c, retries, ps);
      && r.Some? && r.value.c.lines == c.lines
      && IsCached(r.value.c, 0, c.lines[0].track, s) == (if c.lines[0].valid[s] then Some(got) else None)
      && forall drive, t :: 0 <= drive < 2 && 0 <= t < 16 && !(drive == 0 && t == s) ==>
           SectorAt(r.value.c, drive, t) == SectorAt(c, drive, t)
  {
    hide Run, Arrives, Polls, Claims, Recorded;
    PollsAreRun(c, retries, ps);
    DamagedByteIsRefused(c, Said(ps), s, meant, got, i);
    RecordArrives(c, retries, ps, s, got);
  }
}
