/**
 Where the cache stops agreeing with the host: a request that is sent while an
 answer given up is still coming in; and what volumes from 128 on do.
*/
module DiskFailures {
  import opened Bytes
  import opened DiskNibbles
  import opened DiskCache
  import opened DiskHost
  import opened DiskCoherence
  import opened DiskAnswers

  // ---------------------------------------------------------------------
  //  Where the promise ends
  // ---------------------------------------------------------------------

  /** A late record is stored under the track asked for since, whatever its
      own track digits say, and believed. */
  lemma LateRecord(c: State, ts: seq<Token>, s: nat, d: Sector, img: Image)
    requires s < 16 && IsRecord(ts, s, d) && Coherent(c, img)
    requires Claims(ts[|ts| - 1].hi, ts[|ts| - 1].lo, d)
    ensures Run(c, ts).Some?
    ensures IsCached(Run(c, ts).value, 0, c.lines[0].track, s) == Some(d)
    ensures Coherent(Run(c, ts).value, img) <==> d == img(c.lines[0].track, s)
  {
    RecordStores(c, ts, s, d);
    RecordedCoherent(c, s, d, img);
  }

  /** The rest of a record, met without a place to put it: the first byte it
      completes, or its checksum at the latest, goes through the null pointer. */
  lemma {:induction false} TailIsUndefined(c: State, s: nat, k: nat, ts: seq<Token>, img: Image, track: byte)
    requires c.partial.start.None?
    requires SpeakAll(Inside(s, k), ts, img, track) == Some(Done)
    ensures Run(c, ts) == None
    decreases |ts|
  {
    match ts[0]
    case Digit(ch) =>
      if c.partial.halfByte == 0 {
        TailIsUndefined(Apply(c, ts[0]).value, s, k + 1, ts[1..], img, track);
      }
    case Blank(_) => TailIsUndefined(Apply(c, ts[0]).value, s, k, ts[1..], img, track);
    case _ =>
  }

  predicate NoRecord(ts: seq<Token>) {
    forall i :: 0 <= i < |ts| ==> !ts[i].Sum?
  }

  ghost predicate SameOn(disk: Image, img: Image, track: byte) {
    forall s :: disk(track, s) == img(track, s)
  }

  lemma {:induction false} SpeakSame(m: Mode, ts: seq<Token>, img: Image, track: byte, disk: Image, other: byte)
    requires forall s :: disk(other, s) == img(track, s)
    ensures SpeakAll(m, ts, disk, other) == SpeakAll(m, ts, img, track)
    decreases |ts|
  {
    if ts != [] {
      assert Speak(m, ts[0], disk, other) == Speak(m, ts[0], img, track);
      if Speak(m, ts[0], img, track).Some? {
        SpeakSame(Speak(m, ts[0], img, track).value, ts[1..], img, track, disk, other);
      }
    }
  }

  /** Valid bits stay, and each record that is taken in leaves one. */
  lemma {:induction false} SumsAreBelieved(c: State, ts: seq<Token>, m: Mode, img: Image)
    requires Coherent(c, img) && Follows(c, m, img)
    requires SpeakAll(m, ts, img, c.lines[0].track).Some?
    ensures Run(c, ts).Some?
    ensures forall s :: 0 <= s < 16 && c.lines[0].valid[s] ==> Run(c, ts).value.lines[0].valid[s]
    ensures !NoRecord(ts) ==> exists s :: 0 <= s < 16 && Run(c, ts).value.lines[0].valid[s]
    decreases |ts|
  {
    hide Coherent, Follows, Speak;
    if ts != [] {
      TokenKeeps(c, ts[0], m, img);
      var d := Apply(c, ts[0]).value;
      BitsStay(c, ts[0], m, img);
      SumsAreBelieved(d, ts[1..], Speak(m, ts[0], img, c.lines[0].track).value, img);
      if NoRecord(ts[1..]) && !ts[0].Sum? {
        assert forall i :: 0 < i < |ts| ==> ts[i] == ts[1..][i - 1];
      }
    }
  }

  lemma {:induction false} BitsStay(c: State, t: Token, m: Mode, img: Image)
    requires Coherent(c, img) && Follows(c, m, img) && Speak(m, t, img, c.lines[0].track).Some?
    requires Apply(c, t).Some?
    ensures forall s :: 0 <= s < 16 && c.lines[0].valid[s] ==> Apply(c, t).value.lines[0].valid[s]
    ensures t.Sum? ==> exists s :: 0 <= s < 16 && Apply(c, t).value.lines[0].valid[s]
  {
    hide Coherent;
    if t.Sum? {
      CloseLoaded(c, m.s, img(c.lines[0].track, m.s), t.hi, t.lo);
      assert Apply(c, t).value.lines[0].valid[m.s];
    }
  }

  /** Sectors that differ from all of img. */
  function Spoiled(img: Image, track: byte): Image {
    (t: byte, s: nat) => SpoiledAt(img, track, t, s)
  }

  function SpoiledAt(img: Image, track: byte, t: byte, s: nat): Sector {
    if t == track then img(t, s) else Damaged(img(track, s))
  }

  function Damaged(d: Sector): (r: Sector)
    ensures r != d
  {
    Flip(d[0]);
    d[0 := d[0] ^ 1]
  }

  lemma Flip(b: byte)
    ensures b ^ 1 != b
  {
  }

  /** The cache after a request that is sent. */
  function Requested(y: System, e: Event): State
    requires Sends(y, e)
  {
    CacheRequest(y.c, e.drive, e.track, e.sector, e.room).c
  }

  lemma {:induction false} RequestedIs(y: System, e: Event)
    requires Inv(y) && y.c.ext != Reading && y.pending != [] && Sends(y, e)
    ensures var c := Requested(y, e);
      && c.ext == Reading && c.lines[0].track == e.track && c.partial.start.None?
      && Coherent(c, y.img) && (e.track != y.asked ==> c.lines[0].valid == NO_BITS)
  {
    hide CacheRequest, Coherent, Honest, Follows;
    AskedCoherent(y.c, e.drive, e.track, e.sector, e.room, y.img);
    RequestIs(y.c, e.drive, e.track, e.sector, e.room);
  }

  /** A request is sent while the rest of an answer given up is still to come,
      however much of that answer has been thrown away since. What the rest
      does to the cache is defined exactly if the host is then between two
      records; and if it is, it leaves the cache right, for every disk that
      gave the answer, exactly if the track asked for is the same or there is
      no record left. */
  lemma {:induction false} AbandonedAnswer(y: System, e: Event)
    requires Inv(y) && y.c.ext != Reading && y.pending != [] && Sends(y, e)
    ensures var c := Requested(y, e);
      && (Run(c, y.pending).Some? <==> y.mode == Between)
      && (y.mode == Between ==>
          ((forall disk :: SameOn(disk, y.img, y.asked) && Coherent(c, disk) ==> Coherent(Run(c, y.pending).value, disk))
           <==> e.track == y.asked || NoRecord(y.pending)))
  {
    hide Requested, Run, Coherent;
    var c := Requested(y, e);
    RequestedIs(y, e);
    hide SpeakAll, Sends;
    match y.mode
    case Inside(s, k) => TailIsUndefined(c, s, k, y.pending, y.img, y.asked);
    case Between => LateTail(c, y.pending, y.img, y.asked);
    case Done => NothingAfterDone(y.pending, y.img, y.asked);
  }

  /** The same in the reads of the rest, in whatever pieces it arrives. */
  lemma {:induction false} AbandonedIsRead(y: System, e: Event, ps: seq<Poll>)
    requires Inv(y) && y.c.ext != Reading && y.pending != [] && Sends(y, e)
    requires Arrives(ps, y.retries) && Said(ps) == y.pending
    ensures var r := Polls(Requested(y, e), y.retries, ps);
      && (r.Some? <==> y.mode == Between)
      && (y.mode == Between ==>
          ((forall disk :: SameOn(disk, y.img, y.asked) && Coherent(Requested(y, e), disk) ==> Coherent(r.value.c, disk))
           <==> e.track == y.asked || NoRecord(y.pending)))
  {
    hide Requested, Run, Coherent, Sends, Inv, SpeakAll, Polls;
    RequestedIs(y, e);
    AbandonedAnswer(y, e);
    PollsAreRun(Requested(y, e), y.retries, ps);
  }

  /** An answer is given up and the next request follows at once: then the
      place where the answer was given up decides. */
  lemma {:induction false} AbandonedAtOnce(y: System, e: Event)
    requires Inv(y) && y.c.ext == Reading && y.retries > 1000 && Sends(Do(y, Quiet).value, e)
    ensures var c := Requested(Do(y, Quiet).value, e);
      && (Run(c, y.pending).Some? <==> y.mode == Between)
      && (y.mode == Between ==>
          ((forall disk :: SameOn(disk, y.img, y.asked) && Coherent(c, disk) ==> Coherent(Run(c, y.pending).value, disk))
           <==> e.track == y.asked || NoRecord(y.pending)))
  {
    hide Requested, Run, Coherent, Sends, Inv, SpeakAll;
    QuietKeeps(y);
    StillPending(y);
    AbandonedAnswer(Do(y, Quiet).value, e);
  }

  lemma {:induction false} StillPending(y: System)
    requires Inv(y) && y.c.ext == Reading
    ensures y.pending != []
  {
  }

  /** The late rest of an answer about `asked`, taken in under the track of c. */
  lemma {:induction false} LateTail(c: State, ts: seq<Token>, img: Image, asked: byte)
    requires c.ext == Reading && SpeakAll(Between, ts, img, asked) == Some(Done)
    requires c.lines[0].track != asked ==> c.lines[0].valid == NO_BITS
    requires Coherent(c, img)
    ensures Run(c, ts).Some?
    ensures (forall disk :: SameOn(disk, img, asked) && Coherent(c, disk) ==> Coherent(Run(c, ts).value, disk))
      <==> c.lines[0].track == asked || NoRecord(ts)
  {
    hide SpeakAll, Run, SectorAt;
    var track := c.lines[0].track;
    var seen: Image := (t: byte, s: nat) => img(asked, s);
    SpeakSame(Between, ts, img, asked, seen, track);
    if track == asked {
      SpeakSame(Between, ts, img, asked, img, track);
      TokensKeep(c, ts, Between, img);
      forall disk | SameOn(disk, img, asked) && Coherent(c, disk) ensures Coherent(Run(c, ts).value, disk) {
        SpeakSame(Between, ts, img, asked, disk, track);
        TokensKeep(c, ts, Between, disk);
      }
    } else {
      TokensKeep(c, ts, Between, seen);
      SumsAreBelieved(c, ts, Between, seen);
      var d := Run(c, ts).value;
      if NoRecord(ts) {
        NothingBelieved(c, ts);
      } else {
        var s :| 0 <= s < 16 && d.lines[0].valid[s];
        var disk := Spoiled(img, asked);
        assert SameOn(disk, img, asked) && Coherent(c, disk);
        assert SectorAt(d, 0, s) == img(asked, s) && disk(track, s) == Damaged(img(asked, s));
        assert !Coherent(d, disk);
      }
    }
  }

  lemma {:induction false} NothingBelieved(c: State, ts: seq<Token>)
    requires NoRecord(ts) && Run(c, ts).Some?
    ensures Run(c, ts).value.lines == c.lines
    decreases |ts|
  {
    if ts != [] {
      assert forall i :: 0 <= i < |ts[1..]| ==> ts[1..][i] == ts[i + 1];
      NothingBelieved(Apply(c, ts[0]).value, ts[1..]);
    }
  }

  // ---------------------------------------------------------------------
  //  A run that fails
  // ---------------------------------------------------------------------

  function HexChar(n: byte): byte
    requires n < 16
  {
    if n < 10 then n + 0x30 else n - 10 + 0x41
  }

  lemma HexCharIs(n: byte)
    requires n < 16
    ensures HexValue(HexChar(n)) == Some(n) && IsHex(HexChar(n))
    ensures SectorNamed(HexChar(n)) == Some(n as nat)
  {
    GetHexIsValue(HexChar(n));
  }

  lemma HexOfSmall(d: Sector, k: nat)
    requires k < 512
    ensures HexOf(d, k) < 16
  {
    assert d[k / 2] >> 4 < 16 && d[k / 2] & 0xF < 16;
  }

  /** The payload of d from digit k on, its checksum and the end. */
  function RestOfAnswer(d: Sector, k: nat): seq<Token>
    requires k <= 512
    decreases 512 - k
  {
    if k == 512 then
      var sum := Checksum(d);
      assert sum >> 4 < 16 && sum & 0xF < 16;
      [Sum(HexChar(sum >> 4), HexChar(sum & 0xF)), End([])]
    else
      HexOfSmall(d, k);
      [Digit(HexChar(HexOf(d, k)))] + RestOfAnswer(d, k + 1)
  }

  function AnswerFor(d: Sector, s: byte): seq<Token>
    requires s < 16
  {
    [Start(0x30, 0x30, HexChar(s))] + RestOfAnswer(d, 0)
  }

  /** The end of a record and of the answer. */
  lemma {:induction false} SumIsSaid(img: Image, track: byte, s: nat, sum: byte)
    requires s < 16 && sum >> 4 < 16 && sum & 0xF < 16 && sum == Checksum(img(track, s))
    ensures SpeakAll(Inside(s, 512), [Sum(HexChar(sum >> 4), HexChar(sum & 0xF)), End([])], img, track) == Some(Done)
  {
    HexCharIs(sum >> 4);
    HexCharIs(sum & 0xF);
    Rejoin(sum);
    ChecksumIsParity(img(track, s), sum);
    hide HexChar, Checksum, HexValue, IsParity;
    var ts := [Sum(HexChar(sum >> 4), HexChar(sum & 0xF)), End([])];
    assert ts[1..] == [End([])] && [End([])][1..] == [];
    assert SpeakAll(Between, [End([])], img, track) == Some(Done);
    assert Speak(Inside(s, 512), ts[0], img, track) == Some(Between);
  }

  lemma {:induction false} RestIsHonest(img: Image, track: byte, s: nat, k: nat)
    requires s < 16 && k <= 512
    ensures SpeakAll(Inside(s, k), RestOfAnswer(img(track, s), k), img, track) == Some(Done)
    decreases 512 - k
  {
    var d := img(track, s);
    var ts := RestOfAnswer(d, k);
    if k == 512 {
      var sum := Checksum(d);
      assert sum >> 4 < 16 && sum & 0xF < 16;
      SumIsSaid(img, track, s, sum);
    } else {
      HexOfSmall(d, k);
      HexCharIs(HexOf(d, k));
      hide HexChar, HexValue, HexOf;
      assert ts[1..] == RestOfAnswer(d, k + 1);
      RestIsHonest(img, track, s, k + 1);
    }
  }

  lemma {:induction false} AnswerIsHonest(img: Image, track: byte, s: byte)
    requires s < 16
    ensures Answers(AnswerFor(img(track, s as nat), s), img, track)
  {
    var ts := AnswerFor(img(track, s as nat), s);
    HexCharIs(s);
    assert ts[1..] == RestOfAnswer(img(track, s as nat), 0);
    RestIsHonest(img, track, s as nat, 0);
    hide HexChar, RestOfAnswer, HexValue, SectorNamed;
    assert Speak(Between, ts[0], img, track) == Some(Inside(s as nat, 0));
  }

  lemma {:induction false} RunsJoin(y: System, a: seq<Event>, b: seq<Event>)
    requires Happens(y, a) && After(y, a).Some? && Happens(After(y, a).value, b)
    ensures Happens(y, a + b) && After(y, a + b) == After(After(y, a).value, b)
    decreases |a|
  {
    hide Do, Possible;
    if a == [] {
      assert a + b == b;
    } else {
      assert (a + b)[1..] == a[1..] + b;
      RunsJoin(Do(y, a[0]).value, a[1..], b);
    }
  }

  lemma {:induction false} OneEvent(y: System, e: Event)
    requires Possible(y, e)
    ensures Happens(y, [e]) && After(y, [e]) == Do(y, e)
  {
    hide Do, Possible;
    assert [e][1..] == [];
  }

  function Quiets(n: nat): seq<Event> {
    if n == 0 then [] else [Quiet] + Quiets(n - 1)
  }

  /** Nothing arrives until the answer is given up. */
  lemma {:induction false} GivesUp(y: System, n: nat)
    requires y.c.ext == Reading && y.retries + n == 1001
    ensures Happens(y, Quiets(n + 1))
    ensures After(y, Quiets(n + 1)) == Some(y.(c := PollReading(y.c, 1001, Silent).value.c, retries := 0))
    decreases n
  {
    var z := Do(y, Quiet).value;
    assert Quiets(n + 1)[1..] == Quiets(n);
    if n == 0 {
      assert Quiets(0) == [];
    } else {
      GivesUp(z, n - 1);
    }
  }

  /** On every disk, for every track and sector: the firmware asks for it, reads
      the header of the record, gives up, and asks for the same sector again.
      The host is honest both times; the rest of the first answer is stored
      through the null pointer. */
  lemma {:induction false} ImpatientRunFails(c: State, img: Image, track: byte, s: byte) returns (es: seq<Event>)
    requires c.ext == Inserted && c.lines[0].valid == NO_BITS && s < 16
    ensures Inv(System(c, 0, img, 0, Done, []))
    ensures Happens(System(c, 0, img, 0, Done, []), es) && After(System(c, 0, img, 0, Done, []), es) == None
  {
    hide *;
    var y0 := System(c, 0, img, 0, Done, []);
    StartIsCoherent(c, img);
    var answer := AnswerFor(img(track, s as nat), s);
    AnswerIsHonest(img, track, s);
    var ask := Ask(0, track, s as int, 64, answer);
    RequestGoesOut(y0, ask);
    var y1 := Do(y0, ask).value;
    assert [] + answer == answer;
    OneEvent(y0, ask);
    var deliver1, y2 := HeaderRead(y1, track, s);
    OneEvent(y1, deliver1);
    RunsJoin(y0, [ask], [deliver1]);
    GivesUp(y2, 1001);
    RunsJoin(y0, [ask] + [deliver1], Quiets(1002));
    var y3 := After(y2, Quiets(1002)).value;
    GivenUp(y2.c);
    RequestGoesOut(y3, ask);
    var y4 := Do(y3, ask).value;
    OneEvent(y3, ask);
    RunsJoin(y0, [ask] + [deliver1] + Quiets(1002), [ask]);
    RestIsLong(img(track, s as nat), 0);
    var deliver2 := TailRead(y4, img(track, s as nat), s as nat, answer);
    OneEvent(y4, deliver2);
    RunsJoin(y0, [ask] + [deliver1] + Quiets(1002) + [ask], [deliver2]);
    es := [ask] + [deliver1] + Quiets(1002) + [ask] + [deliver2];
  }

  lemma {:induction false} RestIsLong(d: Sector, k: nat)
    requires k <= 512
    ensures RestOfAnswer(d, k) != []
  {
  }

  lemma GivenUp(c: State)
    ensures var d := PollReading(c, 1001, Silent).value.c;
      d == c.(ext := Inserted, partial := c.partial.(start := None))
  {
  }

  lemma {:induction false} TextOfOne(t: Token)
    ensures TextOf([t]) == Text(t)
  {
    assert [t][1..] == [] && Text(t) + [] == Text(t);
  }

  lemma {:induction false} TextOfTwo(t: Token, u: Token)
    ensures TextOf([t, u]) == Text(t) + Text(u)
  {
    assert [t, u][1..] == [u];
    TextOfOne(u);
  }

  lemma {:induction false} LongestCommand(sector: int)
    requires 0 <= sector < 16
    ensures forall t: byte :: |CommandText(t, sector)| < 64
  {
  }

  /** A request to an idle drive with room for the command is sent. */
  lemma {:induction false} RequestGoesOut(y: System, e: Event)
    requires y.c.ext == Inserted && e.Ask? && e.drive == 0 && 0 <= e.sector < 16 && e.room == 64
    requires Answers(e.answer, y.img, e.track)
    ensures Possible(y, e) && Do(y, e).Some?
    ensures var z := Do(y, e).value;
      && z.c.ext == Reading && z.c.partial == y.c.partial.(start := None)
      && z.img == y.img && z.retries == y.retries && z.pending == y.pending + e.answer
      && (if y.pending == [] then z.asked == e.track && z.mode == Between else z.asked == y.asked && z.mode == y.mode)
  {
    hide VolumeDiffers, Answers, HostReads, CommandText;
    RequestIsOrder(y.c, 0, e.track, e.sector, e.room);
    LongestCommand(e.sector);
    assert [] + e.answer == e.answer;
  }

  /** The header of the record is read. */
  lemma {:induction false} HeaderRead(y: System, track: byte, s: byte) returns (e: Event, z: System)
    requires s < 16 && y.c.ext == Reading && y.mode == Between && y.pending == AnswerFor(y.img(track, s as nat), s)
    requires y.asked == track
    ensures Possible(y, e) && Do(y, e) == Some(z) && z.retries == 0 && z.mode == Inside(s as nat, 0)
    ensures z.c == y.c.(partial := z.c.partial) && z.c.partial.halfByte == 0
    ensures z.img == y.img && z.asked == y.asked && z.pending == RestOfAnswer(y.img(track, s as nat), 0)
  {
    hide RestOfAnswer, PollReading;
    var t := Start(0x30, 0x30, HexChar(s));
    HexCharIs(s);
    var said := y.pending[..1];
    assert said == [t];
    var text := TextOf(said);
    TextOfOne(t);
    var buf := Holding(text);
    e := Deliver(1, buf);
    assert At(buf, 0, text);
    hide HexChar;
    assert SpeakAll(Between, said, y.img, track) == Some(Inside(s as nat, 0)) by {
      assert SpeakAll(Inside(s as nat, 0), [], y.img, track) == Some(Inside(s as nat, 0));
    }
    ReadIsRun(y.c, y.retries, said, buf, Between, y.img, track);
    RunOne(y.c, t);
    z := Do(y, e).value;
    assert y.pending[1..] == RestOfAnswer(y.img(track, s as nat), 0);
  }

  /** Two digits at the start of a record, met without a place to put them. */
  lemma {:induction false} TwoDigits(c: State, x: byte, z: byte, s: nat, img: Image, track: byte)
    requires c.partial.start == None && c.partial.halfByte == 0 && s < 16
    requires HexValue(x) == Some(HexOf(img(track, s), 0)) && HexValue(z) == Some(HexOf(img(track, s), 1))
    ensures SpeakAll(Inside(s, 0), [Digit(x), Digit(z)], img, track) == Some(Inside(s, 2))
    ensures Run(c, [Digit(x), Digit(z)]) == None
  {
    GetHexIsValue(x);
    GetHexIsValue(z);
    hide GetHex, HexOf, HexValue;
    var a, b := Digit(x), Digit(z);
    assert [a, b][1..] == [b] && [b][1..] == [];
    assert Speak(Inside(s, 0), a, img, track) == Some(Inside(s, 1));
    assert SpeakAll(Inside(s, 1), [b], img, track) == Some(Inside(s, 2)) by {
      assert SpeakAll(Inside(s, 2), [], img, track) == Some(Inside(s, 2));
    }
  }

  /** Two digits of the abandoned record are read. */
  lemma {:induction false} TailRead(y: System, d: Sector, s: nat, answer: seq<Token>) returns (e: Event)
    requires y.c.ext == Reading && y.c.partial.start == None && y.c.partial.halfByte == 0
    requires s < 16 && y.mode == Inside(s, 0) && y.img(y.asked, s) == d
    requires y.pending == RestOfAnswer(d, 0) + answer
    ensures Possible(y, e) && Do(y, e) == None
  {
    var r := RestOfAnswer(d, 0);
    HexOfSmall(d, 0);
    HexOfSmall(d, 1);
    HexCharIs(HexOf(d, 0));
    HexCharIs(HexOf(d, 1));
    var a, b := Digit(HexChar(HexOf(d, 0))), Digit(HexChar(HexOf(d, 1)));
    assert r == [a] + RestOfAnswer(d, 1) && RestOfAnswer(d, 1) == [b] + RestOfAnswer(d, 2);
    var said := y.pending[..2];
    assert said == [a, b];
    hide RestOfAnswer, HexChar, PollReading;
    var text := TextOf(said);
    TextOfTwo(a, b);
    assert [a, b][1..] == [b] && [b][1..] == [];
    var buf := Holding(text);
    e := Deliver(2, buf);
    assert At(buf, 0, text);
    hide TextOf, At, Holding;
    TwoDigits(y.c, a.c, b.c, s, y.img, y.asked);
    ReadIsRun(y.c, y.retries, said, buf, y.mode, y.img, y.asked);
  }

  // ---------------------------------------------------------------------
  //  Volumes from 128 on
  // ---------------------------------------------------------------------

  /** A signed byte is one of the numbers from -128 to 127 that differ from the
      unsigned one by a multiple of 256. */
  lemma SignedIsCongruent(b: byte)
    ensures -128 <= Signed8(b) < 128 && (Signed8(b) - b as int) % 256 == 0
  {
  }

  lemma SignedNeverEqual(line: byte, drive: byte)
    ensures VolumeDiffers(line, drive) <==> drive >= 128 || line != drive
  {
  }

  /** Asking for another sector of the track and volume already in the line
      keeps the sectors that are there exactly when the volume is below 128:
      only then is the signed byte the unsigned one again. */
  lemma {:induction false} HighVolumeForgets(c: State, drive: nat, sector: int, room: nat, s: nat)
    requires drive < 2 && sector < 16 && s < 16 && c.ext != Reading
    requires c.lines[drive].volume == c.volumes[drive]
    requires IsCached(c, drive, c.lines[drive].track, s).Some?
    ensures var c1 := CacheRequest(c, drive, c.lines[drive].track, sector, room).c;
      IsCached(c1, drive, c.lines[drive].track, s).Some? <==> c.volumes[drive] < 128
  {
    hide VolumeDiffers;
    SignedNeverEqual(c.lines[drive].volume, c.volumes[drive]);
  }

  lemma {:induction false} RunKeepsVolumes(c: State, ts: seq<Token>)
    requires Run(c, ts).Some?
    ensures Run(c, ts).value.volumes == c.volumes
    decreases |ts|
  {
    if ts != [] {
      RunKeepsVolumes(Apply(c, ts[0]).value, ts[1..]);
    }
  }

  predicate HighDisks(es: seq<Event>) {
    forall i :: 0 <= i < |es| ==> es[i].NewDisk? ==> es[i].volume >= 128
  }

  lemma {:induction false} VolumeStaysHigh(y: System, es: seq<Event>)
    requires Inv(y) && Happens(y, es) && PatientRun(y, es) && y.c.volumes[0] >= 128 && HighDisks(es)
    ensures After(y, es).Some? && After(y, es).value.c.volumes[0] >= 128
    decreases |es|
  {
    hide Do, Possible, Inv, Patient;
    if es != [] {
      EventKeeps(y, es[0]);
      EventKeepsVolume(y, es[0]);
      assert forall i :: 0 <= i < |es[1..]| ==> es[1..][i] == es[i + 1];
      VolumeStaysHigh(Do(y, es[0]).value, es[1..]);
    }
  }

  lemma {:induction false} EventKeepsVolume(y: System, e: Event)
    requires Inv(y) && Possible(y, e) && Patient(y, e) && Do(y, e).Some?
    ensures Do(y, e).value.c.volumes[0] == if e.NewDisk? then e.volume else y.c.volumes[0]
  {
    hide Loaded, Coherent, SpeakAll, TextOf, VolumeDiffers, Run, Parse;
    if e.Deliver? && y.c.ext == Reading {
      var a := y.pending[..e.n];
      assert a + y.pending[e.n..] == y.pending;
      SpeakSplit(y.mode, a, y.pending[e.n..], y.img, y.asked);
      ReadIsRun(y.c, y.retries, a, e.buf, y.mode, y.img, y.asked);
      RunKeepsVolumes(y.c, a);
    }
  }

  /** With disks of volume 128 or more, at every moment of every run: a request
      that is sent leaves no sector of the drive in the cache, so nothing is
      ever cached but what the last answer has brought. */
  lemma {:induction false} HighVolumeRun(y: System, es: seq<Event>, e: Event)
    requires Inv(y) && Happens(y, es) && PatientRun(y, es) && y.c.volumes[0] >= 128 && HighDisks(es)
    requires After(y, es).Some? && Possible(After(y, es).value, e) && Sends(After(y, es).value, e)
    ensures Do(After(y, es).value, e).value.c.lines[0].valid == NO_BITS
  {
    hide VolumeDiffers, Inv;
    VolumeStaysHigh(y, es);
    var z := After(y, es).value;
    hide After, Happens, PatientRun;
    SignedNeverEqual(z.c.lines[0].volume, z.c.volumes[0]);
  }
}
