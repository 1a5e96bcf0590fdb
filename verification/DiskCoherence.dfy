/**
 What the track cache promises: a record sent by the host is stored exactly
 and believed only when its checksum fits, and on every run in which the host
 answers what it was asked, a cached sector is the host's sector.
*/
module DiskCoherence {
  import opened Bytes
  import opened DiskNibbles
  import opened DiskCache
  import opened DiskHost

  // ---------------------------------------------------------------------
  //  One record
  // ---------------------------------------------------------------------

  /** The k-th of the 512 hexadecimal digits of a sector. */
  function HexOf(d: Sector, k: nat): byte
    requires k < 512
  {
    if k % 2 == 0 then d[k / 2] >> 4 else d[k / 2] & 0xF
  }

  /** Two digits in a row are the numeral of a byte. */
  lemma {:induction false} PairIsByte(d: Sector, i: nat, hi: byte, lo: byte)
    requires i < SECTOR_SIZE
    requires HexValue(hi) == Some(HexOf(d, 2 * i)) && HexValue(lo) == Some(HexOf(d, 2 * i + 1))
    ensures HexByte(hi, lo) == Some(d[i])
  {
    hide HexValue;
    Rejoin(d[i]);
    assert (2 * i + 1) / 2 == i;
  }

  lemma HexJoin(b: byte)
    ensures (((b >> 4) | 0x80) << 4) | (b & 0xF) == b
    ensures (b >> 4) | 0x80 != 0
  {
  }

  /** The first n bytes of sector s replaced by those of d. */
  function Overwrite(data: seq<byte>, s: nat, d: Sector, n: nat): (r: seq<byte>)
    requires |data| == CACHE_SIZE && s < 16 && n <= SECTOR_SIZE
    ensures |r| == CACHE_SIZE
  {
    data[..s * SECTOR_SIZE] + d[..n] + data[s * SECTOR_SIZE + n..]
  }

  /** The cache after `#TTs` and k payload digits of d. */
  function Loaded(c: State, s: nat, d: Sector, k: nat): State
    requires s < 16 && k <= 512
  {
    c.(data := Overwrite(c.data, s, d, k / 2),
       partial := Partial(Some(s * SECTOR_SIZE), k / 2, s, if k % 2 == 0 then 0 else HexOf(d, k - 1) | 0x80))
  }

  lemma NibbleLoads(c: State, s: nat, d: Sector, k: nat)
    requires s < 16 && k < 512
    ensures Nibble(Loaded(c, s, d, k), HexOf(d, k)) == Some(Loaded(c, s, d, k + 1))
  {
    HexJoin(d[k / 2]);
    if k % 2 == 1 {
      assert (k + 1) / 2 == k / 2 + 1;
      var at := s * SECTOR_SIZE + k / 2;
      assert Overwrite(c.data, s, d, k / 2)[at := d[k / 2]] == Overwrite(c.data, s, d, k / 2 + 1);
    } else {
      assert (k + 1) / 2 == k / 2;
    }
  }

  /** Tokens that spell the digits from k on, with blanks only between bytes. */
  predicate Spells(ts: seq<Token>, d: Sector, k: nat)
    requires k <= 512
    decreases |ts|
  {
    if ts == [] then k == 512
    else match ts[0]
      case Digit(ch) => k < 512 && HexValue(ch) == Some(HexOf(d, k)) && Spells(ts[1..], d, k + 1)
      case Blank(ch) => k % 2 == 0 && Spells(ts[1..], d, k)
      case _ => false
  }

  lemma {:induction false} PayloadLoads(c: State, s: nat, d: Sector, k: nat, ts: seq<Token>)
    requires s < 16 && k <= 512 && Spells(ts, d, k)
    ensures Run(Loaded(c, s, d, k), ts) == Some(Loaded(c, s, d, 512))
    decreases |ts|
  {
    if ts != [] {
      match ts[0]
      case Digit(ch) =>
        GetHexIsValue(ch);
        NibbleLoads(c, s, d, k);
        PayloadLoads(c, s, d, k + 1, ts[1..]);
      case Blank(ch) =>
        assert Apply(Loaded(c, s, d, k), ts[0]) == Some(Loaded(c, s, d, k));
        PayloadLoads(c, s, d, k, ts[1..]);
    }
  }

  lemma {:induction false} RunAppend(c: State, a: seq<Token>, b: seq<Token>)
    requires Run(c, a).Some?
    ensures Run(c, a + b) == Run(Run(c, a).value, b)
    decreases |a|
  {
    if a == [] {
      assert a + b == b;
    } else {
      assert (a + b)[1..] == a[1..] + b;
      RunAppend(Apply(c, a[0]).value, a[1..], b);
    }
  }

  /** A record: a header for sector s, the payload d, a checksum claim. */
  predicate IsRecord(ts: seq<Token>, s: nat, d: Sector) {
    && |ts| >= 2
    && ts[0].Start? && SectorNamed(ts[0].s) == Some(s)
    && Spells(ts[1..|ts| - 1], d, 0)
    && ts[|ts| - 1].Sum?
  }

  /** The cache after a record for sector s with payload d. */
  function Recorded(c: State, s: nat, d: Sector, believed: bool): State
    requires s < 16
  {
    var line := c.lines[0];
    var c1 := Loaded(c, s, d, 512);
    if believed then c1.(lines := c.lines[0 := line.(valid := line.valid[s := true])]) else c1
  }

  lemma CloseLoaded(c: State, s: nat, d: Sector, hi: byte, lo: byte)
    requires s < 16
    ensures CloseSector(Loaded(c, s, d, 512), hi, lo) == Some(Recorded(c, s, d, Claims(hi, lo, d)))
  {
    hide Says, Claims;
    SaysIsClaim(hi, lo, d);
    assert Loaded(c, s, d, 512).data[s * SECTOR_SIZE..][..SECTOR_SIZE] == d;
  }

  /** The whole effect of a record: the sector holds d, its valid bit is set
      when the checksum claimed is the parity of d, and nothing else changes. */
  lemma RecordStores(c: State, ts: seq<Token>, s: nat, d: Sector)
    requires s < 16 && IsRecord(ts, s, d)
    ensures var sum := ts[|ts| - 1];
      Run(c, ts) == Some(Recorded(c, s, d, Claims(sum.hi, sum.lo, d)))
  {
    var c0, c1 := Loaded(c, s, d, 0), Loaded(c, s, d, 512);
    var body, sum := ts[1..|ts| - 1], ts[|ts| - 1];
    assert Apply(c, ts[0]) == Some(c0) by {
      HexDigitIsNamed(ts[0].s);
      assert Overwrite(c.data, s, d, 0) == c.data;
    }
    PayloadLoads(c, s, d, 0, body);
    RunAppend(c0, body, [sum]);
    assert ts[1..] == body + [sum];
    CloseLoaded(c, s, d, sum.hi, sum.lo);
    RunOne(c1, sum);
  }

  lemma RunOne(c: State, t: Token)
    ensures Run(c, [t]) == Apply(c, t)
  {
    assert [t][1..] == [];
    match Apply(c, t)
    case None =>
    case Some(c1) => assert Run(c1, []) == Some(c1);
  }

  lemma LoadedSectors(c: State, s: nat, d: Sector, k: nat, t: nat)
    requires s < 16 && t < 16 && k <= 512
    ensures SectorAt(Loaded(c, s, d, k), 0, t) ==
      if t == s then d[..k / 2] + SectorAt(c, 0, s)[k / 2..] else SectorAt(c, 0, t)
  {
    var x, n := SectorAt(Loaded(c, s, d, k), 0, t), k / 2;
    var y := SectorAt(c, 0, t);
    hide Overwrite;
    forall i | 0 <= i < SECTOR_SIZE
      ensures x[i] == if t == s && i < n then d[i] else y[i]
    {
      OverwrittenAt(c.data, s, d, n, t, i);
    }
  }

  lemma {:induction false} OverwrittenAt(data: seq<byte>, s: nat, d: Sector, n: nat, t: nat, i: nat)
    requires |data| == CACHE_SIZE && s < 16 && t < 16 && n <= SECTOR_SIZE && i < SECTOR_SIZE
    ensures Overwrite(data, s, d, n)[t * SECTOR_SIZE + i]
      == if t == s && i < n then d[i] else data[t * SECTOR_SIZE + i]
  {
    if t < s { assert (t + 1) * SECTOR_SIZE <= s * SECTOR_SIZE; }
    if t > s { assert (s + 1) * SECTOR_SIZE <= t * SECTOR_SIZE; }
  }

  lemma {:induction false} ChecksumSplit(a: Sector, b: Sector, i: nat, n: nat)
    requires i < n <= SECTOR_SIZE
    requires forall j :: 0 <= j < SECTOR_SIZE && j != i ==> a[j] == b[j]
    ensures Checksum(a[..n]) ^ Checksum(b[..n]) == a[i] ^ b[i]
    decreases n
  {
    assert a[..n][..n - 1] == a[..n - 1] && b[..n][..n - 1] == b[..n - 1];
    if n - 1 == i {
      assert a[..i] == b[..i];
      XorCancel(Checksum(a[..i]), a[i], b[i]);
    } else {
      ChecksumSplit(a, b, i, n - 1);
      XorSame(Checksum(a[..n - 1]), Checksum(b[..n - 1]), a[n - 1]);
    }
  }

  lemma XorCancel(s: byte, a: byte, b: byte)
    ensures (s ^ a) ^ (s ^ b) == a ^ b
    ensures s ^ s == 0
    ensures a ^ b == 0 ==> a == b
  {
  }

  lemma XorSame(s: byte, t: byte, a: byte)
    ensures (s ^ a) ^ (t ^ a) == s ^ t
  {
  }

  /** Damage to a single payload byte is always noticed: with the checksum of
      the sector the host meant, the damaged record does not become valid. */
  lemma DamagedByteIsRefused(c: State, ts: seq<Token>, s: nat, meant: Sector, got: Sector, i: nat)
    requires s < 16 && IsRecord(ts, s, got) && i < SECTOR_SIZE
    requires Claims(ts[|ts| - 1].hi, ts[|ts| - 1].lo, meant)
    requires got[i] != meant[i] && forall j :: 0 <= j < SECTOR_SIZE && j != i ==> got[j] == meant[j]
    ensures Run(c, ts).Some? && Run(c, ts).value.lines == c.lines
  {
    var hi, lo := ts[|ts| - 1].hi, ts[|ts| - 1].lo;
    SaysIsClaim(hi, lo, got);
    SaysIsClaim(hi, lo, meant);
    hide Claims;
    ChecksumSplit(got, meant, i, SECTOR_SIZE);
    assert got[..SECTOR_SIZE] == got && meant[..SECTOR_SIZE] == meant;
    XorCancel(0, got[i], meant[i]);
    XorCancel(Checksum(got), 0, 0);
    RecordStores(c, ts, s, got);
  }

  // ---------------------------------------------------------------------
  //  Runs with a host
  // ---------------------------------------------------------------------

  /** What the host's disk holds: track and sector to 256 bytes. */
  type Image = (byte, nat) -> Sector

  /** Where the host is in its answer. */
  datatype Mode = Between | Inside(s: nat, k: nat) | Done

  /** The next token of an honest answer about one track. */
  function Speak(m: Mode, t: Token, img: Image, track: byte): Option<Mode> {
    if !Whole(t) then None
    else match (m, t)
      case (Between, Start(_, _, s)) => if SectorNamed(s).None? then None else Some(Inside(SectorNamed(s).value, 0))
      case (Between, Blank(_)) => Some(Between)
      case (Between, End(_)) => Some(Done)
      case (Inside(s, k), Digit(ch)) =>
        if k < 512 && HexValue(ch) == Some(HexOf(img(track, s), k)) then Some(Inside(s, k + 1)) else None
      case (Inside(s, k), Blank(_)) => if k % 2 == 0 then Some(m) else None
      case (Inside(s, k), Sum(hi, lo)) =>
        if k == 512 && Claims(hi, lo, img(track, s)) then Some(Between) else None
      case _ => None
  }

  function SpeakAll(m: Mode, ts: seq<Token>, img: Image, track: byte): Option<Mode>
    decreases |ts|
  {
    if ts == [] then Some(m)
    else match Speak(m, ts[0], img, track)
      case None => None
      case Some(m1) => SpeakAll(m1, ts[1..], img, track)
  }

  /** A complete answer: whole sectors of the track, then `*`. */
  predicate Answers(ts: seq<Token>, img: Image, track: byte) {
    SpeakAll(Between, ts, img, track) == Some(Done)
  }

  /** Firmware and host. `pending` is what the host has still to say, `asked`
      the track it is about, `mode` where in its answer the host is. */
  datatype System = System(c: State, retries: nat, img: Image, asked: byte, mode: Mode, pending: seq<Token>)

  /** A request by the firmware, a read by it of n tokens that have arrived, a
      read that finds nothing, another disk. */
  datatype Event =
    | Ask(drive: nat, track: byte, sector: int, room: nat, answer: seq<Token>)
    | Deliver(n: nat, buf: Buffer)
    | Quiet
    | NewDisk(volume: byte, disk: Image)

  predicate Unoccupied(c: State) {
    c.ext.Disconnected? || c.ext.NoDisk? || c.ext.Inserted?
  }

  /** What may happen: every command that the host can read gets an honest
      answer about the track it names, reads hold whole tokens in order, and the `@` of a new disk is heard only when
      nothing is in front of it. */
  predicate Possible(y: System, e: Event) {
    match e
    case Ask(drive, track, sector, room, answer) =>
      && drive < 2 && sector < 16
      && (Sends(y, e) && HostReads(Sent(y, e)).Some? ==> Answers(answer, y.img, HostReads(Sent(y, e)).value.track))
    case Deliver(n, buf) =>
      && (y.c.ext == Reading || Unoccupied(y.c))
      && 0 < n <= |y.pending|
      && At(buf, 0, TextOf(y.pending[..n]))
    case Quiet => y.c.ext == Reading
    case NewDisk(_, _) => Unoccupied(y.c) && y.pending == []
  }

  predicate Sends(y: System, e: Event) {
    e.Ask? && e.drive < 2 && e.sector < 16 && CacheRequest(y.c, e.drive, e.track, e.sector, e.room).sent.Some?
  }

  /** The text of the command. */
  function Sent(y: System, e: Event): seq<byte>
    requires Sends(y, e)
  {
    CacheRequest(y.c, e.drive, e.track, e.sector, e.room).sent.value
  }

  /** Where the host is after n more tokens. */
  function Onwards(y: System, n: nat): Mode
    requires n <= |y.pending|
  {
    match SpeakAll(y.mode, y.pending[..n], y.img, y.asked)
    case None => y.mode
    case Some(m) => m
  }

  /** One step of firmware and host. A poll that has found nothing a thousand
      times gives the answer up; what then comes in is thrown away, unless
      another request has gone out before. None is undefined behaviour. */
  function Do(y: System, e: Event): Option<System>
    requires Possible(y, e)
  {
    match e
    case Ask(drive, track, sector, room, answer) =>
      var c := CacheRequest(y.c, drive, track, sector, room).c;
      if !Sends(y, e) then Some(y.(c := c))
      else if HostReads(Sent(y, e)).None? then Some(y.(c := c))
      else if y.pending == [] then
        Some(y.(c := c, asked := HostReads(Sent(y, e)).value.track, mode := Between, pending := answer))
      else Some(y.(c := c, pending := y.pending + answer))
    case Deliver(n, buf) =>
      var z := y.(mode := Onwards(y, n), pending := y.pending[n..]);
      if y.c.ext != Reading then Some(z)
      else
        var p := PollReading(y.c, y.retries, Received(buf, |TextOf(y.pending[..n])|));
        if p.None? then None else Some(z.(c := p.value.c, retries := p.value.retries))
    case Quiet =>
      var p := PollReading(y.c, y.retries, Silent).value;
      Some(y.(c := p.c, retries := p.retries))
    case NewDisk(volume, disk) => Some(y.(c := Insert(y.c, volume), img := disk))
  }

  ghost predicate Happens(y: System, es: seq<Event>)
    decreases |es|
  {
    es == [] || (Possible(y, es[0]) && (Do(y, es[0]).Some? ==> Happens(Do(y, es[0]).value, es[1..])))
  }

  function After(y: System, es: seq<Event>): Option<System>
    requires Happens(y, es)
    decreases |es|
  {
    if es == [] then Some(y)
    else
      match Do(y, es[0])
      case None => None
      case Some(z) => After(z, es[1..])
  }

  /** No request is sent while an answer given up is still coming in. */
  predicate Patient(y: System, e: Event) {
    Sends(y, e) ==> y.pending == []
  }

  ghost predicate PatientRun(y: System, es: seq<Event>)
    requires Happens(y, es)
    decreases |es|
  {
    es == [] || (Patient(y, es[0]) && (Do(y, es[0]).Some? ==> PatientRun(Do(y, es[0]).value, es[1..])))
  }

  /** Every valid sector is the host's. */
  ghost predicate Coherent(c: State, img: Image) {
    forall s :: 0 <= s < 16 && c.lines[0].valid[s] ==> SectorAt(c, 0, s) == img(c.lines[0].track, s)
  }

  /** The parser has taken in what the host has said so far. */
  ghost predicate Follows(c: State, m: Mode, img: Image) {
    match m
    case Between => c.ext == Reading
    case Inside(s, k) => s < 16 && k <= 512 && c.ext == Reading && c == Loaded(c, s, img(c.lines[0].track, s), k)
    case Done => c.ext == Inserted
  }

  ghost predicate Honest(y: System) {
    SpeakAll(y.mode, y.pending, y.img, y.asked) == Some(Done)
  }

  /** While an answer given up is still coming in, the line is for its track or
      holds nothing. */
  ghost predicate Inv(y: System) {
    && Coherent(y.c, y.img)
    && (y.c.ext != Reading && y.pending != [] ==>
        y.c.lines[0].track == y.asked || y.c.lines[0].valid == NO_BITS)
    && (y.c.ext == Reading ==> y.asked == y.c.lines[0].track && Follows(y.c, y.mode, y.img))
    && (y.c.ext == Reading || y.pending != [] ==> Honest(y))
  }

  lemma LoadedIsStable(c: State, s: nat, d: Sector, k: nat)
    requires s < 16 && k <= 512
    ensures var c1 := Loaded(c, s, d, k); c1 == Loaded(c1, s, d, k)
  {
    var c1 := Loaded(c, s, d, k);
    assert Overwrite(c1.data, s, d, k / 2) == c1.data;
  }

  lemma LoadedCoherent(c: State, img: Image, s: nat, k: nat)
    requires s < 16 && k <= 512 && Coherent(c, img)
    ensures Coherent(Loaded(c, s, img(c.lines[0].track, s), k), img)
  {
    var d := img(c.lines[0].track, s);
    forall t | 0 <= t < 16 && c.lines[0].valid[t]
      ensures SectorAt(Loaded(c, s, d, k), 0, t) == img(c.lines[0].track, t)
    {
      LoadedSectors(c, s, d, k, t);
      assert t == s ==> d[..k / 2] + d[k / 2..] == d;
    }
  }

  lemma RecordedSectors(c: State, s: nat, d: Sector, t: nat)
    requires s < 16 && t < 16
    ensures SectorAt(Recorded(c, s, d, true), 0, t) == if t == s then d else SectorAt(c, 0, t)
  {
    LoadedSectors(c, s, d, 512, t);
    assert SectorAt(Recorded(c, s, d, true), 0, t) == SectorAt(Loaded(c, s, d, 512), 0, t);
  }

  lemma RecordedCoherent(c: State, s: nat, d: Sector, img: Image)
    requires s < 16 && Coherent(c, img)
    ensures var c1 := Recorded(c, s, d, true);
      && IsCached(c1, 0, c.lines[0].track, s) == Some(d)
      && (Coherent(c1, img) <==> d == img(c.lines[0].track, s))
  {
    var c1 := Recorded(c, s, d, true);
    RecordedSectors(c, s, d, s);
    if d == img(c.lines[0].track, s) {
      forall t | 0 <= t < 16 && c1.lines[0].valid[t] ensures SectorAt(c1, 0, t) == img(c1.lines[0].track, t) {
        RecordedSectors(c, s, d, t);
      }
    }
  }

  lemma DigitKeeps(c: State, ch: byte, s: nat, k: nat, img: Image)
    requires Coherent(c, img) && Follows(c, Inside(s, k), img)
    requires k < 512 && HexValue(ch) == Some(HexOf(img(c.lines[0].track, s), k))
    ensures var r := Nibble(c, GetHex(ch));
      r.Some? && r.value.lines == c.lines && Coherent(r.value, img) && Follows(r.value, Inside(s, k + 1), img)
  {
    hide Nibble;
    hide Overwrite;
    var d := img(c.lines[0].track, s);
    GetHexIsValue(ch);
    NibbleLoads(c, s, d, k);
    LoadedIsStable(c, s, d, k + 1);
    LoadedCoherent(c, img, s, k + 1);
  }

  lemma StartKeeps(c: State, x: byte, img: Image)
    requires Coherent(c, img) && Follows(c, Between, img) && SectorNamed(x).Some?
    ensures var r := OpenSector(c, x);
      && r.Some? && r.value.lines == c.lines
      && Coherent(r.value, img) && Follows(r.value, Inside(SectorNamed(x).value, 0), img)
  {
    HexDigitIsNamed(x);
    var s := HexDigit(x);
    var d := img(c.lines[0].track, s);
    assert Overwrite(c.data, s, d, 0) == c.data;
    LoadedIsStable(c, s, d, 0);
    LoadedCoherent(c, img, s, 0);
  }

  lemma SumKeeps(c: State, hi: byte, lo: byte, s: nat, img: Image)
    requires Coherent(c, img) && Follows(c, Inside(s, 512), img)
    requires Claims(hi, lo, img(c.lines[0].track, s))
    ensures var r := CloseSector(c, hi, lo);
      && r.Some? && r.value.lines[0].track == c.lines[0].track
      && Coherent(r.value, img) && Follows(r.value, Between, img)
  {
    CloseLoaded(c, s, img(c.lines[0].track, s), hi, lo);
    RecordedCoherent(c, s, img(c.lines[0].track, s), img);
  }

  /** One token of an honest answer keeps the parser in step with the host and
      the cache coherent. */
  lemma {:induction false} TokenKeeps(c: State, t: Token, m: Mode, img: Image)
    requires Coherent(c, img) && Follows(c, m, img)
    requires Speak(m, t, img, c.lines[0].track).Some?
    ensures var r := Apply(c, t);
      && r.Some? && r.value.lines[0].track == c.lines[0].track
      && Coherent(r.value, img)
      && Follows(r.value, Speak(m, t, img, c.lines[0].track).value, img)
  {
    hide Coherent, Loaded, Nibble, OpenSector, CloseSector, Claims, HexValue, HexOf;
    if t.Start? {
      StartKeeps(c, t.s, img);
    } else if t.Digit? {
      DigitKeeps(c, t.c, m.s, m.k, img);
    } else if t.Sum? {
      SumKeeps(c, t.hi, t.lo, m.s, img);
    } else {
      BlankOrEndKeeps(c, t, m, img);
    }
  }

  lemma BlankOrEndKeeps(c: State, t: Token, m: Mode, img: Image)
    requires Coherent(c, img) && Follows(c, m, img) && (t.Blank? || t.End?)
    requires Speak(m, t, img, c.lines[0].track).Some?
    ensures var r := Apply(c, t);
      && r.Some? && r.value.lines == c.lines && r.value.data == c.data
      && Follows(r.value, Speak(m, t, img, c.lines[0].track).value, img)
      && Coherent(r.value, img)
  {
    var c1 := Apply(c, t).value;
    assert forall s :: 0 <= s < 16 ==> SectorAt(c1, 0, s) == SectorAt(c, 0, s);
    if m.Inside? {
      assert c1 == c;
    }
  }

  lemma {:induction false} TokensKeep(c: State, ts: seq<Token>, m: Mode, img: Image)
    requires Coherent(c, img) && Follows(c, m, img)
    requires SpeakAll(m, ts, img, c.lines[0].track).Some?
    ensures var r := Run(c, ts);
      && r.Some? && r.value.lines[0].track == c.lines[0].track
      && Coherent(r.value, img)
      && Follows(r.value, SpeakAll(m, ts, img, c.lines[0].track).value, img)
    decreases |ts|
  {
    if ts != [] {
      TokenKeeps(c, ts[0], m, img);
      TokensKeep(Apply(c, ts[0]).value, ts[1..], Speak(m, ts[0], img, c.lines[0].track).value, img);
    }
  }

  lemma {:induction false} SpeakSplit(m: Mode, a: seq<Token>, b: seq<Token>, img: Image, track: byte)
    ensures SpeakAll(m, a + b, img, track) == match SpeakAll(m, a, img, track)
      case None => None
      case Some(m1) => SpeakAll(m1, b, img, track)
    decreases |a|
  {
    if a == [] {
      assert a + b == b;
    } else {
      assert (a + b)[1..] == a[1..] + b;
      match Speak(m, a[0], img, track)
      case None =>
      case Some(m1) => SpeakSplit(m1, a[1..], b, img, track);
    }
  }

  lemma {:induction false} NothingAfterDone(ts: seq<Token>, img: Image, track: byte)
    ensures SpeakAll(Done, ts, img, track) == if ts == [] then Some(Done) else None
  {
    if ts != [] {
      assert Speak(Done, ts[0], img, track) == None;
    }
  }

  lemma {:induction false} HonestIsChunk(m: Mode, ts: seq<Token>, img: Image, track: byte)
    requires SpeakAll(m, ts, img, track).Some?
    ensures Chunk(ts)
    decreases |ts|
  {
    if ts != [] {
      var m1 := Speak(m, ts[0], img, track).value;
      HonestIsChunk(m1, ts[1..], img, track);
      if ts[0].End? {
        NothingAfterDone(ts[1..], img, track);
      }
      assert forall i :: 1 <= i < |ts| ==> ts[i] == ts[1..][i - 1];
    }
  }

  /** A read of whole tokens of an honest answer is defined, and is the run of
      these tokens. */
  lemma {:induction false} ReadIsRun(c: State, retries: nat, ts: seq<Token>, buf: Buffer, m: Mode, img: Image, track: byte)
    requires At(buf, 0, TextOf(ts)) && SpeakAll(m, ts, img, track).Some?
    ensures PollReading(c, retries, Received(buf, |TextOf(ts)|)) ==
      match Run(c, ts)
      case None => None
      case Some(c1) => Some(Polled(c1, 0))
  {
    hide Round, Speak, Apply;
    HonestIsChunk(m, ts, img, track);
    ParseIsRun(c, buf, 0, ts);
  }

  lemma {:induction false} DeliverKeeps(y: System, n: nat, buf: Buffer)
    requires Inv(y) && Possible(y, Deliver(n, buf))
    ensures Do(y, Deliver(n, buf)).Some? && Inv(Do(y, Deliver(n, buf)).value)
  {
    hide Round, Loaded, Speak, Apply, PollReading, TextOf;
    var a, b := y.pending[..n], y.pending[n..];
    assert a + b == y.pending;
    SpeakSplit(y.mode, a, b, y.img, y.asked);
    if y.c.ext == Reading {
      ReadIsRun(y.c, y.retries, a, buf, y.mode, y.img, y.asked);
      TokensKeep(y.c, a, y.mode, y.img);
      NothingAfterDone(b, y.img, y.asked);
    }
  }

  /** What a request changes. */
  lemma {:induction false} RequestIs(c: State, drive: nat, track: byte, sector: int, room: nat)
    requires drive < 2 && sector < 16
    ensures var a := CacheRequest(c, drive, track, sector, room);
      && a.c.data == c.data && (a.c.lines[0] == c.lines[0] || a.c.lines[0].valid == NO_BITS)
      && (a.sent.Some? ==>
          drive == 0 && a.c.ext == Reading && a.c.lines[0].track == track && a.c.partial == c.partial.(start := None))
      && (a.sent.None? ==> a.c.ext == c.ext && (c.ext == Reading ==> a.c == c))
  {
    hide VolumeDiffers;
  }

  lemma {:induction false} AskedCoherent(c: State, drive: nat, track: byte, sector: int, room: nat, img: Image)
    requires drive < 2 && sector < 16 && Coherent(c, img)
    ensures Coherent(CacheRequest(c, drive, track, sector, room).c, img)
  {
    RequestIs(c, drive, track, sector, room);
    SameDataCoherent(c, CacheRequest(c, drive, track, sector, room).c, img);
  }

  lemma {:induction false} SameDataCoherent(c: State, d: State, img: Image)
    requires Coherent(c, img) && d.data == c.data
    requires d.lines[0] == c.lines[0] || d.lines[0].valid == NO_BITS
    ensures Coherent(d, img)
  {
    if d.lines[0] == c.lines[0] {
      assert forall s :: 0 <= s < 16 ==> SectorAt(d, 0, s) == SectorAt(c, 0, s);
    }
  }

  /** The cache after a request: either nothing was asked, or the line is for
      the asked track and nothing on it is wrong. */
  lemma {:induction false} AskKeeps(y: System, e: Event)
    requires Inv(y) && e.Ask? && Possible(y, e) && Patient(y, e)
    ensures Do(y, e).Some? && Inv(Do(y, e).value)
  {
    hide CacheRequest, Coherent, Loaded;
    hide HostReads;
    AskedCoherent(y.c, e.drive, e.track, e.sector, e.room, y.img);
    RequestIsOrder(y.c, e.drive, e.track, e.sector, e.room);
    RequestIs(y.c, e.drive, e.track, e.sector, e.room);
  }

  lemma {:induction false} EventKeeps(y: System, e: Event)
    requires Inv(y) && Possible(y, e) && Patient(y, e)
    ensures Do(y, e).Some? && Inv(Do(y, e).value)
  {
    match e
    case Ask(_, _, _, _, _) => AskKeeps(y, e);
    case Deliver(n, buf) => DeliverKeeps(y, n, buf);
    case Quiet => QuietKeeps(y);
    case NewDisk(volume, disk) => NewDiskKeeps(y, volume, disk);
  }

  /** A poll that finds nothing, the one that gives up included. */
  lemma {:induction false} QuietKeeps(y: System)
    requires Inv(y) && Possible(y, Quiet)
    ensures Do(y, Quiet).Some? && Inv(Do(y, Quiet).value)
  {
    hide Loaded, SpeakAll;
    var z := Do(y, Quiet).value;
    assert forall s :: 0 <= s < 16 ==> SectorAt(z.c, 0, s) == SectorAt(y.c, 0, s);
  }

  lemma {:induction false} NewDiskKeeps(y: System, volume: byte, disk: Image)
    requires Inv(y) && Possible(y, NewDisk(volume, disk))
    ensures Do(y, NewDisk(volume, disk)).Some? && Inv(Do(y, NewDisk(volume, disk)).value)
  {
  }

  /** Cache coherence. From any state in which the host owes nothing and no
      sector is marked valid: if no request is sent while an answer given up is
      still coming in, then however head, host, USB reads, timeouts and disk
      changes interleave, nothing undefined happens and a sector found in the
      cache is the host's sector. */
  lemma {:induction false} CacheCoherence(y: System, es: seq<Event>)
    requires Inv(y) && Happens(y, es) && PatientRun(y, es)
    ensures After(y, es).Some? && Inv(After(y, es).value)
    ensures forall track, s :: 0 <= s < 16 && IsCached(After(y, es).value.c, 0, track, s).Some? ==>
      IsCached(After(y, es).value.c, 0, track, s).value == After(y, es).value.img(track, s)
    decreases |es|
  {
    hide Do, Possible, Patient;
    if es != [] {
      EventKeeps(y, es[0]);
      CacheCoherence(Do(y, es[0]).value, es[1..]);
    }
  }

  lemma StartIsCoherent(c: State, img: Image)
    requires c.ext != Reading && c.lines[0].valid == NO_BITS
    ensures Inv(System(c, 0, img, 0, Done, []))
  {
  }
}
