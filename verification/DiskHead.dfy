/**
 The head state machine of sw/src/disk.c, `disk_update_head`: first as a
 machine that sends a precomputed stream of 366 bytes, then as the routine
 that works byte by byte from `hbuf`, `nbuf1` and `nbuf2`.
*/
module DiskHead {
  import opened Bytes
  import opened DiskNibbles
  import opened DiskStream
  import opened DiskCache

  // ---------------------------------------------------------------------
  //  Interleave
  // ---------------------------------------------------------------------

  function PhysicalToLogical(s: nat): (r: nat)
    requires s < 16
    ensures r < 16
  {
    match s
    case 0 => 0x0 case 1 => 0x7 case 2 => 0xE case 3 => 0x6 case 4 => 0xD case 5 => 0x5 case 6 => 0xC case 7 => 0x4
    case 8 => 0xB case 9 => 0x3 case 10 => 0xA case 11 => 0x2 case 12 => 0x9 case 13 => 0x1 case 14 => 0x8 case _ => 0xF
  }

  function LogicalToPhysical(s: nat): byte
    requires s < 16
  {
    match s
    case 0 => 0x0 case 1 => 0xD case 2 => 0xB case 3 => 0x9 case 4 => 0x7 case 5 => 0x5 case 6 => 0x3 case 7 => 0x1
    case 8 => 0xE case 9 => 0xC case 10 => 0xA case 11 => 0x8 case 12 => 0x6 case 13 => 0x4 case 14 => 0x2 case _ => 0xF
  }

  lemma InterleaveInverse(s: nat)
    requires s < 16
    ensures LogicalToPhysical(s) < 16 && PhysicalToLogical(LogicalToPhysical(s) as nat) == s
    ensures LogicalToPhysical(PhysicalToLogical(s)) as nat == s
  {
  }

  /** Sector 0 and 15 are where they are; from each of the others to the one
      before it are two places, counted round 15. */
  lemma TwoPlacesApart(s: nat)
    requires s < 16
    ensures LogicalToPhysical(0) == 0 && LogicalToPhysical(15) == 15
    ensures 0 < s < 15 ==> LogicalToPhysical(s - 1) == (LogicalToPhysical(s) + 2) % 15
  {
  }

  // ---------------------------------------------------------------------
  //  The machine
  // ---------------------------------------------------------------------

  datatype Phase = Idle | Sending(address: Address, data: Sector, pos: nat)

  datatype Head = Head(drive: nat, track: byte, sector: nat, phase: Phase)

  predicate Sound(h: Head) {
    h.sector < 16 && (h.phase.Sending? ==> 0 < h.phase.pos < STREAM_SIZE)
  }

  /** One call: which drive, where its arm is (two steps per track), what DOS
      last asked for, the cache as it is now and the room to ask the host. */
  datatype Tick = Tick(drive: nat, arm: byte, rwtsTrack: byte, rwtsSector: nat, cache: State, room: nat)

  /** A drive there is, with its arm where it can be. */
  predicate Aimed(k: Tick) {
    k.drive < 2 && k.arm <= 68
  }

  function TrackOf(arm: byte): byte
    requires arm <= 68
  {
    arm / 2
  }

  /** The arm makes two steps for each of the 35 tracks. */
  predicate IsOver(arm: byte, track: byte) {
    track <= 34 && (arm == 2 * track || arm == 2 * track + 1)
  }

  lemma TrackIsUnderArm(arm: byte, track: byte)
    requires arm <= 68
    ensures TrackOf(arm) == track <==> IsOver(arm, track)
  {
  }

  /** The call takes the sector DOS last asked for: the head is idle or the arm
      has moved, drive or track changed, and DOS's parameters name the track. */
  predicate Consults(h: Head, k: Tick)
    requires Aimed(k)
  {
    && (h.phase.Idle? || h.track != TrackOf(k.arm))
    && (k.drive != h.drive || h.track != TrackOf(k.arm))
    && TrackOf(k.arm) == k.rwtsTrack
  }

  /** The call is defined: DOS's sector is an index into the interleave table,
      whenever it is taken. */
  predicate Possible(h: Head, k: Tick) {
    Aimed(k) && (Consults(h, k) ==> k.rwtsSector < 16)
  }

  /** The sector to send next when the head is idle or the arm has moved. */
  function NextSector(h: Head, k: Tick): (s: nat)
    requires Sound(h) && Possible(h, k)
    ensures s < 16
  {
    if Consults(h, k) then k.rwtsSector else h.sector
  }

  /** The same said of the track the arm is over. */
  function SectorSought(h: Head, k: Tick, track: byte): nat {
    if (h.phase.Idle? || h.track != track) && (k.drive != h.drive || h.track != track) && track == k.rwtsTrack
    then k.rwtsSector else h.sector
  }

  lemma {:induction false} SoughtIsNext(h: Head, k: Tick, track: byte)
    requires Sound(h) && Aimed(k) && IsOver(k.arm, track)
    ensures TrackOf(k.arm) == track
    ensures Possible(h, k) <==> SectorSought(h, k, track) < 16
    ensures Possible(h, k) ==> NextSector(h, k) == SectorSought(h, k, track)
  {
    TrackIsUnderArm(k.arm, track);
    hide TrackOf;
  }

  function AddressOf(k: Tick, sector: nat): Address
    requires Aimed(k) && sector < 16
  {
    Address(k.cache.volumes[k.drive], TrackOf(k.arm), LogicalToPhysical(sector))
  }

  /** What a call does: the head after it, the byte sent, the cache after it and
      the command to the host, if there is one. */
  datatype Called = Called(head: Head, out: byte, cache: State, command: Option<seq<byte>>)

  /** An idle head starts the chosen sector if it is cached and asks for it,
      sending a sync byte, if it is not. */
  function Begin(h: Head, k: Tick): (r: Called)
    requires Sound(h) && Possible(h, k)
    ensures Sound(r.head)
  {
    var t, s := TrackOf(k.arm), NextSector(h, k);
    match IsCached(k.cache, k.drive, t, s)
    case None =>
      var asked := CacheRequest(k.cache, k.drive, t, s, k.room);
      Called(Head(k.drive, t, s, Idle), 0xFF, asked.c, asked.sent)
    case Some(d) =>
      Called(Head(k.drive, t, s, Sending(AddressOf(k, s), d, 1)), StreamAt(AddressOf(k, s), d, 0), k.cache, None)
  }

  /** A busy head sends the next byte; after the last one it is idle on the
      sector before. */
  function Continue(h: Head, cache: State): (r: Called)
    requires Sound(h) && h.phase.Sending?
    ensures Sound(r.head)
  {
    var Sending(a, d, p) := h.phase;
    var next := if p + 1 < STREAM_SIZE then h.(phase := Sending(a, d, p + 1))
                else h.(phase := Idle, sector := (h.sector + 15) % 16);
    Called(next, StreamAt(a, d, p), cache, None)
  }

  /** Moving the arm drops the rest of a sector in progress. */
  function Call(h: Head, k: Tick): (r: Called)
    requires Sound(h) && Possible(h, k)
    ensures Sound(r.head)
  {
    if h.track != TrackOf(k.arm) || h.phase.Idle? then Begin(h, k) else Continue(h, k.cache)
  }

  function Restarted(h: Head, toZero: bool): Head {
    h.(phase := Idle, sector := if toZero then 0 else h.sector)
  }

  function StreamAt(a: Address, s: Sector, i: nat): byte
    requires i < STREAM_SIZE
  {
    NibblizedSixBit(s);
    StreamByte(a, HighSix(s), LowTwos(s), i)
  }

  // ---------------------------------------------------------------------
  //  The routine
  // ---------------------------------------------------------------------

  /** What `prev` holds before data byte k. */
  ghost function Previous(n1: seq<byte>, n2: seq<byte>, k: int): byte
    requires |n1| == 256 && |n2| == 86 && k < 342
  {
    if k <= 0 then 0 else Six(n1, n2, k - 1)
  }

  /** `h` is the address field for `a`. */
  ghost predicate Filled(h: seq<byte>, a: Address)
    requires |h| == 16
  {
    && MarksIn(h)
    && h[5] == Odd(a.volume) && h[6] == Even(a.volume) && h[7] == Odd(a.track) && h[8] == Even(a.track)
    && h[9] == Odd(a.sector) && h[10] == Even(a.sector) && h[11] == Odd(Parity(a)) && h[12] == Even(Parity(a))
  }

  ghost predicate MarksIn(h: seq<byte>)
    requires |h| == 16
  {
    && h[0] == 0xFF && h[1] == 0xFF && h[2] == 0xD5 && h[3] == 0xAA && h[4] == 0x96
    && h[13] == 0xDE && h[14] == 0xAA && h[15] == 0xEB
  }

  lemma FilledByte(h: seq<byte>, a: Address, i: nat)
    requires |h| == 16 && Filled(h, a) && i < 16
    ensures h[i] == AddressByte(a, i)
  {
  }

  datatype HeadState = HeadInactive | HeadHeader | HeadRead

  class DiskDrive {
    const cache: TrackCache
    const nbuf1: array<byte>
    const nbuf2: array<byte>
    const hbuf: array<byte>
    var state: HeadState
    var activeDrive: nat
    var activeTrack: byte
    var activeSector: nat
    var activeByte: int
    var prev: byte
    ghost var address: Address
    ghost var data: Sector

    /** The buffers are where they should be and nobody shares them. */
    ghost predicate Separate()
      reads this, cache
    {
      && nbuf1.Length == 256 && nbuf2.Length == 86 && hbuf.Length == 16
      && nbuf1 != nbuf2 && nbuf1 != hbuf && nbuf2 != hbuf
      && {nbuf1, nbuf2, hbuf} !! {cache.data, cache.volumes}
      && (nbuf1 as object) != cache.lines && (nbuf2 as object) != cache.lines && (hbuf as object) != cache.lines
    }

    /** The buffers hold the sector being sent. */
    ghost predicate Loaded()
      reads this, cache, nbuf1, nbuf2, hbuf
      requires Separate()
    {
      nbuf1[..] == HighSix(data) && nbuf2[..] == LowTwos(data) && Filled(hbuf[..], address)
    }

    ghost predicate Valid()
      reads this, cache, cache.lines, cache.data, cache.volumes, nbuf1, nbuf2, hbuf
    {
      && cache.Valid() && Separate() && MarksIn(hbuf[..]) && activeSector < 16
      && (state == HeadHeader ==> 0 < activeByte < 16 && Loaded())
      && (state == HeadRead ==> -4 <= activeByte <= 345 && Loaded())
      && (state == HeadRead && activeByte < 342 ==> prev == Previous(nbuf1[..], nbuf2[..], activeByte))
    }

    ghost function Abs(): Head
      reads this, cache, cache.lines, cache.data, cache.volumes, nbuf1, nbuf2, hbuf
      requires Valid()
    {
      Head(activeDrive, activeTrack, activeSector, PhaseNow())
    }

    ghost function PhaseNow(): Phase
      reads this
      requires state != HeadInactive ==> -20 <= activeByte
      requires state == HeadHeader ==> 0 <= activeByte
    {
      match state
      case HeadInactive => Idle
      case HeadHeader => Sending(address, data, activeByte)
      case HeadRead => Sending(address, data, 20 + activeByte)
    }

    constructor (cache: TrackCache)
      requires cache.Valid()
      ensures Valid() && this.cache == cache && Abs() == Head(2, 0, 0, Idle)
      ensures fresh(nbuf1) && fresh(nbuf2) && fresh(hbuf)
    {
      this.cache := cache;
      nbuf1 := new byte[256](_ => 0);
      nbuf2 := new byte[86](_ => 0);
      hbuf := new byte[16];
      state, activeDrive, activeTrack, activeSector, activeByte, prev := HeadInactive, 2, 0, 0, 0, 0;
      new;
      hbuf[0], hbuf[1], hbuf[2], hbuf[3], hbuf[4] := 0xFF, 0xFF, 0xD5, 0xAA, 0x96;
      hbuf[13], hbuf[14], hbuf[15] := 0xDE, 0xAA, 0xEB;
    }

    /** Fill in the address field. */
    method FillHeader(volume: byte, track: byte, sector: byte)
      requires Separate() && MarksIn(hbuf[..])
      modifies hbuf
      ensures Filled(hbuf[..], Address(volume, track, sector))
    {
      var checksum := volume ^ track ^ sector;
      hbuf[5] := Odd(volume);
      hbuf[6] := Even(volume);
      hbuf[7] := Odd(track);
      hbuf[8] := Even(track);
      hbuf[9] := Odd(sector);
      hbuf[10] := Even(sector);
      hbuf[11] := Odd(checksum);
      hbuf[12] := Even(checksum);
    }

    /** The `head_header` branch: the next byte of `hbuf`. */
    method SendHeader() returns (out: byte)
      requires Separate() && Loaded() && state == HeadHeader && 0 <= activeByte < 16
      modifies this`state, this`activeByte, this`prev
      ensures out == AddressByte(address, old(activeByte))
      ensures if old(activeByte) < 15 then state == HeadHeader && activeByte == old(activeByte) + 1
              else state == HeadRead && activeByte == -4 && prev == 0
    {
      FilledByte(hbuf[..], address, activeByte);
      out := hbuf[activeByte];
      activeByte := activeByte + 1;
      if activeByte >= 16 {
        state := HeadRead;
        activeByte := -4;
        prev := 0;
      }
    }

    /** The `head_read` branch: prologue, chained data, checksum, epilogue. */
    method SendData() returns (out: byte)
      requires Separate() && Loaded() && state == HeadRead && -4 <= activeByte <= 345 && activeSector < 16
      requires activeByte < 342 ==> prev == Previous(nbuf1[..], nbuf2[..], activeByte)
      modifies this`state, this`activeByte, this`activeSector, this`prev
      ensures SixBit(nbuf1[..]) && SixBit(nbuf2[..])
      ensures out == StreamByte(address, nbuf1[..], nbuf2[..], 20 + old(activeByte))
      ensures activeByte == old(activeByte) + 1
      ensures activeByte < 342 ==> prev == Previous(nbuf1[..], nbuf2[..], activeByte)
      ensures if old(activeByte) < 345 then state == HeadRead && activeSector == old(activeSector)
              else state == HeadInactive && activeSector == (old(activeSector) + 15) % 16
    {
      ghost var n1, n2 := nbuf1[..], nbuf2[..];
      NibblizedSixBit(data);
      hide HighSix, LowTwos, Filled, MarksIn, Nibl, AddressByte;
      if activeByte < 0 {
        out := DATA_PROLOGUE[activeByte + 4];
      } else if activeByte < 86 {
        assert nbuf2[85 - activeByte] == Six(n1, n2, activeByte);
        LinkSixBit(n1, n2, activeByte);
        FirstLink(n1, n2, activeByte);
        out := Nibl(prev ^ nbuf2[85 - activeByte]);
        prev := nbuf2[85 - activeByte];
      } else if activeByte < 342 {
        assert nbuf1[activeByte - 86] == Six(n1, n2, activeByte);
        LinkSixBit(n1, n2, activeByte);
        FirstLink(n1, n2, activeByte);
        out := Nibl(prev ^ nbuf1[activeByte - 86]);
        prev := nbuf1[activeByte - 86];
      } else if activeByte == 342 {
        out := Nibl(nbuf1[activeByte - 87]);
      } else {
        out := DATA_EPILOGUE[activeByte - 343];
        if activeByte >= 345 {
          state := HeadInactive;
          activeSector := (activeSector + 15) % 16;
        }
      }
      activeByte := activeByte + 1;
    }

    /** Record the drive and track under the head; when either changed, take
        DOS's sector parameter if it is meant for this track. */
    method Choose(drive: nat, track: byte, rwtsTrack: byte, rwtsSector: nat)
      requires activeSector < 16
      modifies this`activeDrive, this`activeTrack, this`activeSector
      ensures activeDrive == drive && activeTrack == track
      ensures activeSector ==
        if (drive != old(activeDrive) || old(activeTrack) != track) && track == rwtsTrack then rwtsSector else old(activeSector)
    {
      if drive != activeDrive || activeTrack != track {
        activeDrive := drive;
        activeTrack := track;
        if activeTrack == rwtsTrack {
          activeSector := rwtsSector;
        }
      }
    }

    /** The rest of the `head_inactive` branch: fill in the address and, if
        the sector is cached, put its six-bit form in the buffers. */
    method Prepare() returns (ready: bool)
      requires cache.Valid() && Separate() && MarksIn(hbuf[..]) && activeDrive < 2 && activeSector < 16
      requires state == HeadInactive
      modifies this`state, this`address, this`data, nbuf1, nbuf2, hbuf
      ensures cache.Valid() && cache.Abs() == old(cache.Abs()) && Filled(hbuf[..], address)
      ensures address == Address(cache.Abs().volumes[activeDrive], activeTrack, LogicalToPhysical(activeSector))
      ensures match IsCached(cache.Abs(), activeDrive, activeTrack, activeSector)
        case None => !ready && state == HeadInactive
        case Some(d) => ready && state == HeadHeader && Loaded() && data == d
    {
      var sector := LogicalToPhysical(activeSector);
      address := Address(cache.volumes[activeDrive], activeTrack, sector);
      FillHeader(cache.volumes[activeDrive], activeTrack, sector);
      var raw := cache.Lookup(activeDrive, activeTrack, activeSector);
      if raw.None? {
        return false;
      }
      var found := cache.data[raw.value..raw.value + SECTOR_SIZE];
      Nibblize(found, nbuf1, nbuf2);
      data := found;
      state := HeadHeader;
      ready := true;
    }

    /** The `head_header` and `head_read` branches together. */
    method SendByte() returns (out: byte)
      requires cache.Valid() && Separate() && MarksIn(hbuf[..]) && Loaded() && activeSector < 16
      requires (state == HeadHeader && 0 <= activeByte < 16) || (state == HeadRead && Valid())
      modifies this`state, this`activeByte, this`activeSector, this`prev
      ensures Valid()
      ensures var p := if old(state) == HeadHeader then old(activeByte) else 20 + old(activeByte);
        && out == StreamAt(address, data, p)
        && activeSector == (if p + 1 < STREAM_SIZE then old(activeSector) else (old(activeSector) + 15) % 16)
        && PhaseNow() == if p + 1 < STREAM_SIZE then Sending(address, data, p + 1) else Idle
    {
      NibblizedSixBit(data);
      hide HighSix, LowTwos, Filled, MarksIn, Nibl, AddressByte, Link, Six;
      if state == HeadHeader {
        out := SendHeader();
      } else {
        out := SendData();
      }
    }

    /** The sector is not in the cache: ask for it and send a sync byte. */
    method Miss(room: nat) returns (out: byte, command: Option<seq<byte>>)
      requires Valid() && state == HeadInactive && activeDrive < 2
      modifies cache, cache.lines
      ensures Valid() && out == 0xFF && Abs() == old(Abs())
      ensures Asked(cache.Abs(), command) == CacheRequest(old(cache.Abs()), activeDrive, activeTrack, activeSector, room)
    {
      command := cache.Request(activeDrive, activeTrack, activeSector, room);
      out := 0xFF;
    }

    /** A call that finds the head busy. */
    method Resume() returns (out: byte)
      requires Valid() && state != HeadInactive
      modifies this`state, this`activeByte, this`activeSector, this`prev
      ensures Valid() && Called(Abs(), out, cache.Abs(), None) == Continue(old(Abs()), old(cache.Abs()))
    {
      hide StreamAt;
      out := SendByte();
    }

    /** Start the sector that has been chosen, or ask for it. */
    method Fetch(room: nat) returns (out: byte, command: Option<seq<byte>>)
      requires Valid() && state == HeadInactive && activeDrive < 2
      modifies this`state, this`activeByte, this`activeSector, this`prev, this`address, this`data
      modifies nbuf1, nbuf2, hbuf, cache, cache.lines
      ensures Valid() && activeSector == old(activeSector)
      ensures match IsCached(old(cache.Abs()), activeDrive, activeTrack, activeSector)
        case None =>
          && out == 0xFF && PhaseNow() == Idle
          && Asked(cache.Abs(), command) == CacheRequest(old(cache.Abs()), activeDrive, activeTrack, activeSector, room)
        case Some(d) =>
          var a := Address(old(cache.Abs()).volumes[activeDrive], activeTrack, LogicalToPhysical(activeSector));
          && out == StreamAt(a, d, 0) && PhaseNow() == Sending(a, d, 1)
          && cache.Abs() == old(cache.Abs()) && command == None
    {
      hide StreamAt, LogicalToPhysical, CacheRequest, Filled, MarksIn, HighSix, LowTwos, Previous;
      activeByte := 0;
      var ready := Prepare();
      if ready {
        out := SendByte();
        command := None;
      } else {
        out, command := Miss(room);
      }
    }

    /** A call that finds the head idle. */
    method FromIdle(drive: nat, arm: byte, rwtsTrack: byte, rwtsSector: nat, room: nat)
      returns (out: byte, command: Option<seq<byte>>)
      requires Valid() && state == HeadInactive
      requires Possible(Abs(), Tick(drive, arm, rwtsTrack, rwtsSector, cache.Abs(), room))
      modifies this, nbuf1, nbuf2, hbuf, cache, cache.lines
      ensures Valid()
      ensures Called(Abs(), out, cache.Abs(), command)
        == Begin(old(Abs()), Tick(drive, arm, rwtsTrack, rwtsSector, old(cache.Abs()), room))
    {
      Choose(drive, TrackOf(arm), rwtsTrack, rwtsSector);
      out, command := Fetch(room);
    }

    /** `disk_update_head`: one byte under the head. */
    method UpdateHead(drive: nat, arm: byte, rwtsTrack: byte, rwtsSector: nat, room: nat)
      returns (out: byte, command: Option<seq<byte>>)
      requires Valid() && Possible(Abs(), Tick(drive, arm, rwtsTrack, rwtsSector, cache.Abs(), room))
      modifies this, nbuf1, nbuf2, hbuf, cache, cache.lines
      ensures Valid()
      ensures Called(Abs(), out, cache.Abs(), command)
        == Call(old(Abs()), Tick(drive, arm, rwtsTrack, rwtsSector, old(cache.Abs()), room))
    {
      if activeTrack != TrackOf(arm) {
        state := HeadInactive;
      }
      if state == HeadInactive {
        out, command := FromIdle(drive, arm, rwtsTrack, rwtsSector, room);
      } else {
        out := Resume();
        command := None;
      }
    }

    /** A disk was inserted, or the arm hit track 0: forget the sector in
        progress, and in the second case go back to sector 0. */
    method Reset(toZero: bool)
      requires Valid()
      modifies this`state, this`activeSector
      ensures Valid() && Abs() == Restarted(old(Abs()), toZero)
    {
      state := HeadInactive;
      if toZero {
        activeSector := 0;
      }
    }
  }

  lemma FirstLink(n1: seq<byte>, n2: seq<byte>, k: nat)
    requires |n1| == 256 && |n2| == 86 && k < 342
    ensures Link(n1, n2, k) == Previous(n1, n2, k) ^ Six(n1, n2, k)
  {
    XorZero(Six(n1, n2, k));
  }

  lemma XorZero(a: byte)
    ensures 0 ^ a == a
  {
  }
}
