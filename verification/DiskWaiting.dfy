/**
 A sector that is missing: once the host has answered with it, it passes under
 the head.
*/
module DiskWaiting {
  import opened Bytes
  import opened DiskNibbles
  import opened DiskStream
  import opened DiskCache
  import opened DiskHost
  import opened DiskHead
  import opened DiskTogether
  import R = DiskRuns
  import C = DiskCoherence
  import F = DiskFailures

  // ---------------------------------------------------------------------
  //  What the host owes
  // ---------------------------------------------------------------------

  /** A record for sector s begins among these tokens. */
  predicate Names(ts: seq<Token>, s: nat) {
    exists i :: 0 <= i < |ts| && Opens(ts[i], s)
  }

  predicate Opens(t: Token, s: nat) {
    t.Start? && SectorNamed(t.s) == Some(s)
  }

  predicate Within(m: C.Mode, s: nat) {
    m.Inside? && m.s == s
  }

  /** Sector s is there, or on its way in the answer that is being read. */
  predicate Due(y: C.System, s: nat)
    requires s < 16
  {
    y.c.lines[0].valid[s] || (y.c.ext == Reading && (Within(y.mode, s) || Names(y.pending, s)))
  }

  lemma {:induction false} NamesTail(ts: seq<Token>, s: nat)
    requires ts != []
    ensures Names(ts, s) ==> Opens(ts[0], s) || Names(ts[1..], s)
  {
    if Names(ts, s) && !Opens(ts[0], s) {
      var i :| 0 <= i < |ts| && Opens(ts[i], s);
      assert ts[1..][i - 1] == ts[i];
    }
  }

  lemma {:induction false} NamesSplit(ts: seq<Token>, n: nat, s: nat)
    requires n <= |ts| && Names(ts, s)
    ensures Names(ts[..n], s) || Names(ts[n..], s)
  {
    var i :| 0 <= i < |ts| && Opens(ts[i], s);
    if i < n {
      assert ts[..n][i] == ts[i];
    } else {
      assert ts[n..][i - n] == ts[i];
    }
  }

  /** One token of an honest answer brings sector s closer. */
  lemma {:induction false} TokenBrings(c: State, t: Token, m: C.Mode, img: C.Image, s: nat)
    requires s < 16 && C.Coherent(c, img) && C.Follows(c, m, img)
    requires C.Speak(m, t, img, c.lines[0].track).Some? && Apply(c, t).Some?
    ensures c.lines[0].valid[s] || Within(m, s) || Opens(t, s) ==>
      Apply(c, t).value.lines[0].valid[s] || Within(C.Speak(m, t, img, c.lines[0].track).value, s)
  {
    hide C.Coherent, Claims;
    F.BitsStay(c, t, m, img);
    if t.Sum? {
      C.CloseLoaded(c, m.s, img(c.lines[0].track, m.s), t.hi, t.lo);
    }
  }

  lemma {:induction false} TokensBring(c: State, ts: seq<Token>, m: C.Mode, img: C.Image, s: nat)
    requires s < 16 && C.Coherent(c, img) && C.Follows(c, m, img)
    requires C.SpeakAll(m, ts, img, c.lines[0].track).Some?
    ensures Run(c, ts).Some?
    ensures c.lines[0].valid[s] || Within(m, s) || Names(ts, s) ==>
      Run(c, ts).value.lines[0].valid[s] || Within(C.SpeakAll(m, ts, img, c.lines[0].track).value, s)
    decreases |ts|
  {
    hide C.Coherent, C.Follows, C.Speak, Opens, Within, Apply;
    if ts != [] {
      C.TokenKeeps(c, ts[0], m, img);
      TokenBrings(c, ts[0], m, img, s);
      NamesTail(ts, s);
      TokensBring(Apply(c, ts[0]).value, ts[1..], C.Speak(m, ts[0], img, c.lines[0].track).value, img, s);
    }
  }

  /** The head waits on an idle sector s of the line's track, which is due. */
  ghost predicate Waits(w: World, track: byte, s: nat, volume: byte, img: C.Image) {
    && s < 16 && w.head == Head(0, track, s, Idle)
    && C.Inv(w.host) && w.host.img == img
    && w.host.c.lines[0].track == track && w.host.c.volumes[0] == volume
    && Due(w.host, s) && (w.host.c.ext != Reading ==> w.host.pending == [])
  }

  /** A read of the answer. */
  lemma {:induction false} DeliverBrings(y: C.System, n: nat, buf: Buffer, s: nat)
    requires s < 16 && C.Inv(y) && y.c.ext == Reading && C.Possible(y, C.Deliver(n, buf)) && Due(y, s)
    ensures var z := C.Do(y, C.Deliver(n, buf));
      && z.Some? && z.value.img == y.img && z.value.c.lines[0].track == y.c.lines[0].track
      && z.value.c.volumes == y.c.volumes
      && Due(z.value, s) && (z.value.c.ext != Reading ==> z.value.pending == [])
  {
    hide C.Loaded, C.Speak, C.Coherent, Apply, PollReading, TextOf, Names, Run, Within;
    var a, b := y.pending[..n], y.pending[n..];
    assert a + b == y.pending;
    C.SpeakSplit(y.mode, a, b, y.img, y.asked);
    C.ReadIsRun(y.c, y.retries, a, buf, y.mode, y.img, y.asked);
    C.TokensKeep(y.c, a, y.mode, y.img);
    TokensBring(y.c, a, y.mode, y.img, s);
    F.RunKeepsVolumes(y.c, a);
    C.NothingAfterDone(b, y.img, y.asked);
    if Names(y.pending, s) {
      NamesSplit(y.pending, n, s);
    }
    NamesNothing(s);
    NotWithin(s);
  }

  lemma NamesNothing(s: nat)
    ensures !Names([], s)
  {
  }

  lemma NotWithin(s: nat)
    ensures !Within(C.Done, s) && !Within(C.Between, s)
  {
  }

  // ---------------------------------------------------------------------
  //  The head waits
  // ---------------------------------------------------------------------

  /** The same disk, the arm still, one drive in use, and no requests but the
      head's own. */
  predicate Calm(es: seq<Event>, track: byte) {
    && Undisturbed(es, track)
    && forall i :: 0 <= i < |es| ==> CalmEvent(es[i])
  }

  predicate CalmEvent(e: Event) {
    && (e.Byte? ==> e.drive == 0)
    && (e.Host? ==> !e.e.Ask?)
  }

  /** This poll gives the answer up. */
  predicate GivesUp(w: World, e: Event) {
    e.Host? && e.e.Quiet? && w.host.retries > 1000
  }

  /** The answer that is being read comes in whole, and after it there are calls
      enough for a sector. */
  ghost predicate AnswerComes(w: World, es: seq<Event>)
    requires Sound(w.head) && Happens(w, es)
    decreases |es|
  {
    if w.host.c.ext != Reading then |Calls(w, es)| >= STREAM_SIZE
    else es != [] && !GivesUp(w, es[0]) && Step(w, es[0]).Some? && AnswerComes(Step(w, es[0]).value, es[1..])
  }

  lemma {:induction false} EnoughCalls(w: World, es: seq<Event>)
    requires Sound(w.head) && Happens(w, es) && AnswerComes(w, es)
    ensures |Calls(w, es)| >= STREAM_SIZE
    decreases |es|
  {
    hide Step, CanHappen, TickOf;
    if w.host.c.ext == Reading {
      EnoughCalls(Step(w, es[0]).value, es[1..]);
    }
  }

  lemma {:induction false} CalmTail(es: seq<Event>, track: byte)
    requires es != [] && Calm(es, track)
    ensures CalmEvent(es[0]) && Calm(es[1..], track) && !es[0].Zero? && !(es[0].Host? && es[0].e.NewDisk?)
    ensures es[0].Byte? ==> es[0].arm <= 68 && IsOver(es[0].arm, track)
  {
    assert forall i :: 0 <= i < |es[1..]| ==> es[1..][i] == es[i + 1];
  }

  /** A poll while the head waits. */
  lemma {:induction false} PollWaits(w: World, e: Event, track: byte, s: nat, volume: byte, img: C.Image)
    requires Waits(w, track, s, volume, img) && e.Host? && CanHappen(w, e) && CalmEvent(e) && !e.e.NewDisk? && !GivesUp(w, e)
    ensures w.host.c.ext == Reading
    ensures Step(w, e).Some? && Waits(Step(w, e).value, track, s, volume, img)
  {
    hide C.Inv, C.Coherent, C.SpeakAll, Names, Within, IsCached;
    C.EventKeeps(w.host, e.e);
    if e.e.Deliver? {
      DeliverBrings(w.host, e.e.n, e.e.buf, s);
    }
  }

  /** A call while the head waits: it finds the sector, or the answer is still
      being read, a sync byte goes out and nothing changes. */
  lemma {:induction false} CallWaits(w: World, e: Event, track: byte, s: nat, volume: byte, img: C.Image)
    requires Waits(w, track, s, volume, img) && e.Byte? && CanHappen(w, e) && CalmEvent(e)
    requires e.arm <= 68 && IsOver(e.arm, track)
    ensures NextSector(w.head, TickOf(w, e)) == s
    ensures Misses(w, e) ==>
      && w.host.c.ext == Reading && Step(w, e) == Some(w) && Call(w.head, TickOf(w, e)).out == 0xFF
    ensures !Misses(w, e) ==> IsCached(w.host.c, 0, track, s) == Some(img(track, s))
  {
    TrackIsUnderArm(e.arm, track);
    hide C.Inv, Names, Within, StreamAt, SectorAt, TrackOf;
    if !Misses(w, e) {
      CachedIsHosts(w.host, track, s);
    }
  }

  /** The sector is found: all of it passes, whatever follows. */
  lemma {:induction false} FoundPasses(w: World, es: seq<Event>, track: byte, s: nat, d: Sector) returns (rest: seq<byte>)
    requires Sound(w.head) && w.head == Head(0, track, s, Idle) && Happens(w, es) && Calm(es, track)
    requires es != [] && es[0].Byte? && |Calls(w, es)| >= STREAM_SIZE
    requires IsCached(w.host.c, 0, track, s) == Some(d)
    ensures Written(w, es) == SectorStream(Address(w.host.c.volumes[0], track, LogicalToPhysical(s)), d) + rest
  {
    hide Written, Calls, Happens, SectorStream, IsCached, R.Emitted, R.After;
    CalmTail(es, track);
    CallsAreStill(w, es, track);
    FirstIs(w, es);
    var ks := Calls(w, es);
    var few := ks[..STREAM_SIZE];
    R.EmittedSplit(w.head, ks, STREAM_SIZE);
    assert few[0] == ks[0];
    assert R.ArmStill(few, track);
    R.FirstAndRest(w.head, few, track, d);
    rest := R.Emitted(R.After(w.head, few), ks[STREAM_SIZE..]);
  }

  lemma {:induction false} FirstIs(w: World, es: seq<Event>)
    requires Sound(w.head) && Happens(w, es) && es != [] && es[0].Byte?
    ensures Calls(w, es) != [] && Calls(w, es)[0] == R.Byte(TickOf(w, es[0])) && Possible(w.head, TickOf(w, es[0]))
  {
  }

  function Syncs(n: nat): (r: seq<byte>)
    ensures 0xD5 !in r
  {
    if n == 0 then [] else [0xFF] + Syncs(n - 1)
  }

  lemma {:induction false} WrittenStep(w: World, es: seq<Event>)
    requires Sound(w.head) && Happens(w, es) && es != [] && Step(w, es[0]).Some?
    ensures Happens(Step(w, es[0]).value, es[1..])
    ensures Written(w, es)
      == (if es[0].Byte? then [Call(w.head, TickOf(w, es[0])).out] else []) + Written(Step(w, es[0]).value, es[1..])
  {
    hide Step, Call, TickOf;
  }

  /** Sync bytes until the sector is there, then the sector. */
  lemma {:induction false} WaitsThenPasses(w: World, es: seq<Event>, track: byte, s: nat, volume: byte, img: C.Image)
    returns (n: nat, rest: seq<byte>)
    requires Waits(w, track, s, volume, img) && Happens(w, es) && Calm(es, track) && AnswerComes(w, es)
    ensures Written(w, es) == Syncs(n) + (SectorStream(Address(volume, track, LogicalToPhysical(s)), img(track, s)) + rest)
    decreases |es|
  {
    hide Step, Call, Misses, Calm, CalmEvent, CanHappen, Calls, SectorStream, IsCached, TrackOf, GivesUp;
    EnoughCalls(w, es);
    SomeEvent(w, es);
    CalmTail(es, track);
    var e := es[0];
    if e.Byte? {
      CallWaits(w, e, track, s, volume, img);
      if Misses(w, e) {
        WrittenStep(w, es);
        n, rest := WaitsThenPasses(w, es[1..], track, s, volume, img);
        assert Syncs(n + 1) == [0xFF] + Syncs(n);
        n := n + 1;
      } else {
        rest := FoundPasses(w, es, track, s, img(track, s));
        n := 0;
      }
    } else {
      StillReading(w, e, track, s, volume, img);
      PollWaits(w, e, track, s, volume, img);
      WrittenStep(w, es);
      n, rest := WaitsThenPasses(Step(w, e).value, es[1..], track, s, volume, img);
    }
  }

  lemma {:induction false} SomeEvent(w: World, es: seq<Event>)
    requires Sound(w.head) && Happens(w, es) && |Calls(w, es)| > 0
    ensures es != [] && CanHappen(w, es[0])
  {
    hide CanHappen, Step;
  }

  lemma {:induction false} StillReading(w: World, e: Event, track: byte, s: nat, volume: byte, img: C.Image)
    requires Waits(w, track, s, volume, img) && e.Host? && CanHappen(w, e) && CalmEvent(e) && !e.e.NewDisk?
    ensures w.host.c.ext == Reading
  {
    hide C.Inv, Names, Within;
  }

  // ---------------------------------------------------------------------
  //  From the miss to the sector
  // ---------------------------------------------------------------------

  /** An answer with records for what a command orders. */
  predicate Fulfils(answer: seq<Token>, order: Order) {
    match order.sector
    case Some(s) => Names(answer, s)
    case None => forall s :: 0 <= s < 16 ==> Names(answer, s)
  }

  /** A call of the head, idle or just moved to the track, that sends a command,
      which the host fulfils as it reads it. */
  ghost predicate Orders(w: World, e: Event, track: byte)
    requires Sound(w.head)
  {
    && e.Byte? && e.drive == 0 && CanHappen(w, e) && Patient(w, e)
    && IsOver(e.arm, track) && (w.head.phase.Idle? || w.head.track != track)
    && var command := Call(w.head, TickOf(w, e)).command;
       command.Some? && (HostReads(command.value).Some? ==> Fulfils(e.answer, HostReads(command.value).value))
  }

  /** The command is for the sector sought on the track under the arm. */
  lemma {:induction false} OrderIsSought(w: World, e: Event, track: byte)
    requires Sound(w.head) && Orders(w, e, track)
    ensures var s := SectorSought(w.head, TickOf(w, e), track);
      && s < 16 && Misses(w, e) && C.Sends(w.host, AskOf(w, e))
      && AskOf(w, e).track == track && AskOf(w, e).sector == s
      && HostReads(Call(w.head, TickOf(w, e)).command.value) == Some(Order(track, Some(s))) && Names(e.answer, s)
  {
    var k := TickOf(w, e);
    SoughtIsNext(w.head, k, track);
    hide HostReads, CacheRequest, TrackOf, StreamAt, IsCached, Names, C.Possible, C.Patient, SectorSought;
    RequestIsOrder(w.host.c, 0, track, NextSector(w.head, k), e.room);
  }

  lemma {:induction false} MissWaits(w: World, e: Event, track: byte)
    requires Sound(w.head) && C.Inv(w.host) && Orders(w, e, track)
    ensures Step(w, e).Some? && Call(w.head, TickOf(w, e)).out == 0xFF
    ensures var s := SectorSought(w.head, TickOf(w, e), track);
      && HostReads(Call(w.head, TickOf(w, e)).command.value) == Some(Order(track, Some(s)))
      && Waits(Step(w, e).value, track, s, w.host.c.volumes[0], w.host.img)
  {
    OrderIsSought(w, e, track);
    var k := TickOf(w, e);
    SoughtIsNext(w.head, k, track);
    hide C.Inv, C.Coherent, C.SpeakAll, Names, Within, StreamAt, SectorAt, VolumeDiffers, HostReads, CommandText, SectorSought, TrackOf;
    var ask := AskOf(w, e);
    C.EventKeeps(w.host, ask);
    C.RequestIs(w.host.c, 0, ask.track, ask.sector, ask.room);
    RequestIsOrder(w.host.c, 0, ask.track, ask.sector, ask.room);
  }

  /** After any patient run of the whole system, with the arm over whatever track:
      the head sends a command, which the host reads and fulfils with an honest
      answer; this is read to its end with no poll that gives it up. The head may
      be called any number of times meanwhile, and the polls fall as they may.
      Then the command was for the sector sought on the track under the arm, and
      what has been written since reads back as the host's sector of that track,
      if 366 calls follow the answer. */
  lemma {:induction false} MissedSectorPasses(start: World, before: seq<Event>, es: seq<Event>, track: byte)
    requires Sound(start.head) && C.Inv(start.host)
    requires Happens(start, before) && PatientRun(start, before)
    requires After(start, before).Some? && Happens(After(start, before).value, es)
    requires var w := After(start, before).value;
      && es != [] && Orders(w, es[0], track) && Calm(es, track)
      && Step(w, es[0]).Some? && AnswerComes(Step(w, es[0]).value, es[1..])
    ensures var w := After(start, before).value;
      var s := SectorSought(w.head, TickOf(w, es[0]), track);
      && s < 16 && HostReads(Call(w.head, TickOf(w, es[0])).command.value) == Some(Order(track, Some(s)))
      && ReadSector(Written(w, es))
        == Some(Found(Address(w.host.c.volumes[0], track, LogicalToPhysical(s)), w.host.img(track, s)))
  {
    hide After, Happens, PatientRun, Written, Calm, C.Inv, HostReads, SectorSought, ReadSector, SectorStream, AnswerComes, Orders, Step;
    RunKeeps(start, before);
    var w := After(start, before).value;
    var e := es[0];
    OrdersByte(w, e, track);
    var s, volume := SectorSought(w.head, TickOf(w, e), track), w.host.c.volumes[0];
    CalmTail(es, track);
    MissWaits(w, e, track);
    WrittenStep(w, es);
    var z := Step(w, e).value;
    var n, rest := WaitsThenPasses(z, es[1..], track, s, volume, w.host.img);
    var a, d := Address(volume, track, LogicalToPhysical(s)), w.host.img(track, s);
    assert Written(w, es) == Syncs(n + 1) + SectorStream(a, d) + rest;
    ReadSectorStream(Syncs(n + 1), a, d, rest);
  }

  lemma OrdersByte(w: World, e: Event, track: byte)
    requires Sound(w.head) && Orders(w, e, track)
    ensures e.Byte? && e.drive == 0 && CanHappen(w, e)
  {
  }
}
