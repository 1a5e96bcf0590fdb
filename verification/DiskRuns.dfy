/**
 Whole runs of the disk head: what can appear on the disk at all, that a
 sector passes complete and can be read back, and that a track passes complete.
*/
module DiskRuns {
  import opened Bytes
  import opened DiskNibbles
  import opened DiskStream
  import opened DiskCache
  import opened DiskHead

  /** A call of the head routine, or one of the resets made elsewhere. */
  datatype Event = Byte(k: Tick) | Reset(toZero: bool)

  /** Every call is defined. */
  predicate Allowed(h: Head, es: seq<Event>)
    requires Sound(h)
    decreases |es|
  {
    es == [] || ((es[0].Byte? ==> Possible(h, es[0].k)) && Allowed(React(h, es[0]), es[1..]))
  }

  function React(h: Head, e: Event): (r: Head)
    requires Sound(h) && (e.Byte? ==> Possible(h, e.k))
    ensures Sound(r)
  {
    match e
    case Byte(k) => Call(h, k).head
    case Reset(z) => Restarted(h, z)
  }

  function After(h: Head, es: seq<Event>): (r: Head)
    requires Sound(h) && Allowed(h, es)
    ensures Sound(r)
    decreases |es|
  {
    if es == [] then h else After(React(h, es[0]), es[1..])
  }

  /** Everything written to the disk data register during a run. */
  function Emitted(h: Head, es: seq<Event>): seq<byte>
    requires Sound(h) && Allowed(h, es)
    decreases |es|
  {
    if es == [] then []
    else (if es[0].Byte? then [Call(h, es[0].k).out] else []) + Emitted(React(h, es[0]), es[1..])
  }

  // ---------------------------------------------------------------------
  //  Every run
  // ---------------------------------------------------------------------

  /** A byte sent is readable, and it is 0xD5 exactly when it is the first
      mark of the address or data field of the sector in progress. */
  lemma CallByte(h: Head, k: Tick)
    requires Sound(h) && Possible(h, k)
    ensures var r := Call(h, k);
      && Readable(r.out)
      && (r.out == 0xD5 <==> r.head.phase.Sending? && (r.head.phase.pos == 3 || r.head.phase.pos == 18))
  {
    var r := Call(h, k);
    if h.track != TrackOf(k.arm) || h.phase.Idle? {
      match IsCached(k.cache, k.drive, TrackOf(k.arm), NextSector(h, k))
      case None =>
      case Some(d) => SectorStreamBytes(AddressOf(k, NextSector(h, k)), d, 0);
    } else {
      SectorStreamBytes(h.phase.address, h.phase.data, h.phase.pos);
    }
  }

  predicate Still(h: Head, k: Tick) {
    Aimed(k) && IsOver(k.arm, h.track)
  }

  /** While the arm stays put, 0xD5 is always followed by the other two marks. */
  lemma MarkIsFollowed(h: Head, k: Tick, k1: Tick, k2: Tick)
    requires Sound(h) && Possible(h, k) && Call(h, k).out == 0xD5
    requires Still(Call(h, k).head, k1) && Still(Call(h, k).head, k2)
    ensures Possible(Call(h, k).head, k1) && Possible(Call(Call(h, k).head, k1).head, k2)
    ensures var r1 := Call(Call(h, k).head, k1);
      var r2 := Call(r1.head, k2);
      r1.out == 0xAA && (r2.out == 0x96 || r2.out == 0xAD)
  {
    CallByte(h, k);
    var h1 := Call(h, k).head;
    TrackIsUnderArm(k1.arm, h1.track);
    TrackIsUnderArm(k2.arm, h1.track);
    var h2 := Call(h1, k1).head;
    assert h2.phase.Sending? && h2.phase.pos == h1.phase.pos + 1 && h2.track == h1.track;
  }

  lemma {:induction false} EmittedReadable(h: Head, es: seq<Event>)
    requires Sound(h) && Allowed(h, es)
    ensures forall i :: 0 <= i < |Emitted(h, es)| ==> Readable(Emitted(h, es)[i])
    decreases |es|
  {
    if es != [] {
      if es[0].Byte? {
        CallByte(h, es[0].k);
      }
      EmittedReadable(React(h, es[0]), es[1..]);
    }
  }

  function BitsOf(b: byte): seq<bool> {
    [b & 0x80 != 0, b & 0x40 != 0, b & 0x20 != 0, b & 0x10 != 0, b & 8 != 0, b & 4 != 0, b & 2 != 0, b & 1 != 0]
  }

  function BitStream(s: seq<byte>): seq<bool> {
    if s == [] then [] else BitsOf(s[0]) + BitStream(s[1..])
  }

  predicate NoThreeZeros(s: seq<bool>) {
    forall i :: 0 <= i < |s| - 2 ==> s[i] || s[i + 1] || s[i + 2]
  }

  lemma ReadableBits(b: byte)
    requires Readable(b)
    ensures var t := BitsOf(b); t[0] && forall i :: 0 <= i < 6 ==> t[i] || t[i + 1] || t[i + 2]
    ensures var t := BitsOf(b); t[5] || t[6] || t[7]
  {
    ReadableWindows(b);
  }

  lemma ReadableWindows(b: byte)
    requires Readable(b)
    ensures b & 0x80 != 0
    ensures b & 0x40 != 0 || b & 0x20 != 0 || b & 0x10 != 0
    ensures b & 0x20 != 0 || b & 0x10 != 0 || b & 8 != 0
    ensures b & 0x10 != 0 || b & 8 != 0 || b & 4 != 0
    ensures b & 8 != 0 || b & 4 != 0 || b & 2 != 0
    ensures b & 4 != 0 || b & 2 != 0 || b & 1 != 0
  {
  }

  lemma {:induction false} ReadableBytesBits(s: seq<byte>)
    requires forall i :: 0 <= i < |s| ==> Readable(s[i])
    ensures NoThreeZeros(BitStream(s)) && (s != [] ==> |BitStream(s)| > 0 && BitStream(s)[0])
    decreases |s|
  {
    if s != [] {
      ReadableBits(s[0]);
      ReadableBytesBits(s[1..]);
      var a, b := BitsOf(s[0]), BitStream(s[1..]);
      forall i | 0 <= i < |a + b| - 2 ensures (a + b)[i] || (a + b)[i + 1] || (a + b)[i + 2] {
        if i >= 8 {
          assert b[i - 8] || b[i - 8 + 1] || b[i - 8 + 2];
        } else if i >= 6 {
          assert b[0];
        }
      }
    }
  }

  /** However the arm moves, sectors go missing or disks are changed, the bits
      on the disk never have three zeros in a row. */
  lemma NeverThreeZeros(h: Head, es: seq<Event>)
    requires Sound(h) && Allowed(h, es)
    ensures NoThreeZeros(BitStream(Emitted(h, es)))
  {
    EmittedReadable(h, es);
    ReadableBytesBits(Emitted(h, es));
  }

  // ---------------------------------------------------------------------
  //  A sector, then a track
  // ---------------------------------------------------------------------

  /** Calls only, all with the arm on the given track. */
  predicate ArmStill(es: seq<Event>, track: byte) {
    forall i :: 0 <= i < |es| ==> es[i].Byte? && Aimed(es[i].k) && IsOver(es[i].k.arm, track)
  }

  /** The stream of a sector from byte p on. */
  function StreamFrom(a: Address, d: Sector, p: nat): seq<byte>
    requires p <= STREAM_SIZE
    decreases STREAM_SIZE - p
  {
    if p == STREAM_SIZE then [] else [StreamAt(a, d, p)] + StreamFrom(a, d, p + 1)
  }

  lemma {:induction false} StreamIsAt(a: Address, d: Sector, p: nat)
    requires p < STREAM_SIZE
    ensures SectorStream(a, d)[p] == StreamAt(a, d, p)
  {
    hide StreamByte, HighSix, LowTwos;
  }

  lemma {:induction false} StreamFromIs(a: Address, d: Sector, p: nat)
    requires p <= STREAM_SIZE
    ensures StreamFrom(a, d, p) == SectorStream(a, d)[p..]
    decreases STREAM_SIZE - p
  {
    hide StreamAt;
    if p < STREAM_SIZE {
      StreamFromIs(a, d, p + 1);
      StreamIsAt(a, d, p);
      hide SectorStream;
      assert SectorStream(a, d)[p..] == [SectorStream(a, d)[p]] + SectorStream(a, d)[p + 1..];
    }
  }

  lemma {:induction false} RestOfSector(h: Head, es: seq<Event>)
    requires Sound(h) && h.phase.Sending? && ArmStill(es, h.track) && |es| == STREAM_SIZE - h.phase.pos
    ensures Allowed(h, es)
    ensures Emitted(h, es) == StreamFrom(h.phase.address, h.phase.data, h.phase.pos)
    ensures After(h, es) == h.(phase := Idle, sector := (h.sector + 15) % 16)
    decreases |es|
  {
    hide StreamAt;
    hide Begin;
    TrackIsUnderArm(es[0].k.arm, h.track);
    assert Possible(h, es[0].k);
    var h1 := React(h, es[0]);
    assert Call(h, es[0].k) == Continue(h, es[0].k.cache);
    if h1.phase.Sending? {
      RestOfSector(h1, es[1..]);
    } else {
      assert es[1..] == [];
    }
  }

  /** 366 calls with the arm still, from an idle head that finds its sector in
      the cache: the stream of exactly the bytes cached at the first call,
      whatever happens to the cache afterwards. The reader gets volume, track,
      physical sector and data back from it. */
  lemma {:induction false} SectorPasses(h: Head, es: seq<Event>, track: byte)
    requires Sound(h) && h.phase.Idle? && |es| == STREAM_SIZE && ArmStill(es, track)
    requires SectorSought(h, es[0].k, track) < 16
    requires IsCached(es[0].k.cache, es[0].k.drive, track, SectorSought(h, es[0].k, track)).Some?
    ensures Allowed(h, es)
    ensures var k, s := es[0].k, SectorSought(h, es[0].k, track);
      var d := IsCached(k.cache, k.drive, track, s).value;
      var a := Address(k.cache.volumes[k.drive], track, LogicalToPhysical(s));
      && Emitted(h, es) == SectorStream(a, d)
      && ReadSector(Emitted(h, es)) == Some(Found(a, d))
      && After(h, es) == Head(k.drive, track, (s + 15) % 16, Idle)
  {
    var k, s := es[0].k, SectorSought(h, es[0].k, track);
    var d := IsCached(k.cache, k.drive, track, s).value;
    FirstAndRest(h, es, track, d);
    var a := Address(k.cache.volumes[k.drive], track, LogicalToPhysical(s));
    ReadSectorStream([], a, d, []);
    assert [] + SectorStream(a, d) + [] == SectorStream(a, d);
  }

  lemma {:induction false} FirstAndRest(h: Head, es: seq<Event>, track: byte, d: Sector)
    requires Sound(h) && h.phase.Idle? && |es| == STREAM_SIZE && ArmStill(es, track)
    requires SectorSought(h, es[0].k, track) < 16
    requires IsCached(es[0].k.cache, es[0].k.drive, track, SectorSought(h, es[0].k, track)) == Some(d)
    ensures Allowed(h, es)
    ensures var k, s := es[0].k, SectorSought(h, es[0].k, track);
      && Emitted(h, es) == SectorStream(Address(k.cache.volumes[k.drive], track, LogicalToPhysical(s)), d)
      && After(h, es) == Head(k.drive, track, (s + 15) % 16, Idle)
  {
    var k, s := es[0].k, SectorSought(h, es[0].k, track);
    SoughtIsNext(h, k, track);
    var a := Address(k.cache.volumes[k.drive], track, LogicalToPhysical(s));
    var h1 := React(h, es[0]);
    assert [es[0]] + es[1..] == es;
    FirstEvent(h, es[0], es[1..]);
    BeginsSector(h, k, track, d);
    hide Begin, Continue, Call, Emitted, After, Allowed, React, Possible;
    hide TrackOf, LogicalToPhysical, StreamAt, NextSector, SectorSought, SectorStream, IsCached, CacheRequest;
    assert h1 == Head(k.drive, track, s, Sending(a, d, 1));
    RestOfSector(h1, es[1..]);
    assert Emitted(h, es) == StreamFrom(a, d, 0);
    StreamFromIs(a, d, 0);
    assert SectorStream(a, d)[0..] == SectorStream(a, d);
  }

  /** The first call of a sector that is cached. */
  lemma {:induction false} BeginsSector(h: Head, k: Tick, track: byte, d: Sector)
    requires Sound(h) && h.phase.Idle? && Aimed(k) && IsOver(k.arm, track) && SectorSought(h, k, track) < 16
    requires IsCached(k.cache, k.drive, track, SectorSought(h, k, track)) == Some(d)
    ensures Possible(h, k)
    ensures var s := SectorSought(h, k, track);
      var a := Address(k.cache.volumes[k.drive], track, LogicalToPhysical(s));
      Call(h, k).head == Head(k.drive, track, s, Sending(a, d, 1)) && Call(h, k).out == StreamAt(a, d, 0)
  {
    SoughtIsNext(h, k, track);
    hide TrackOf, LogicalToPhysical, StreamAt, NextSector, SectorSought, IsCached;
  }

  /** The data of logical sector s of the image under the head. */
  type Disk = nat -> Sector

  /** The stream of n sectors, going down from sector s. */
  function TrackStream(volume: byte, track: byte, disk: Disk, s: nat, n: nat): seq<byte>
    requires s < 16
    decreases n
  {
    if n == 0 then []
    else SectorStream(Address(volume, track, LogicalToPhysical(s)), disk(s))
         + TrackStream(volume, track, disk, (s + 15) % 16, n - 1)
  }

  /** At every call the drive has this volume and its line is complete. */
  predicate AlwaysComplete(es: seq<Event>, drive: nat, volume: byte, track: byte, disk: Disk) {
    && drive < 2
    && ArmStill(es, track)
    && forall i :: 0 <= i < |es| ==> es[i].k.drive == drive && Complete(es[i].k.cache, drive, volume, track, disk)
  }

  predicate Complete(c: State, drive: nat, volume: byte, track: byte, disk: Disk)
    requires drive < 2
  {
    c.volumes[drive] == volume && forall s :: 0 <= s < 16 ==> IsCached(c, drive, track, s) == Some(disk(s))
  }

  /** The first event, and the rest. */
  lemma {:induction false} FirstEvent(h: Head, e: Event, rest: seq<Event>)
    requires Sound(h)
    ensures Allowed(h, [e] + rest) <==> (e.Byte? ==> Possible(h, e.k)) && Allowed(React(h, e), rest)
    ensures Allowed(h, [e] + rest) ==>
      && After(h, [e] + rest) == After(React(h, e), rest)
      && Emitted(h, [e] + rest) == (if e.Byte? then [Call(h, e.k).out] else []) + Emitted(React(h, e), rest)
  {
    hide React, Call, Possible;
    assert ([e] + rest)[1..] == rest;
  }

  lemma {:induction false} EmittedJoin(h: Head, a: seq<Event>, b: seq<Event>)
    requires Sound(h) && Allowed(h, a + b)
    ensures Allowed(h, a) && Allowed(After(h, a), b)
    ensures Emitted(h, a + b) == Emitted(h, a) + Emitted(After(h, a), b)
    decreases |a|
  {
    if a == [] {
      assert a + b == b;
    } else {
      hide React, Call, Possible, Allowed, Emitted, After;
      var e, t := a[0], a[1..];
      assert a == [e] + t && a + b == [e] + (t + b);
      FirstEvent(h, e, t + b);
      FirstEvent(h, e, t);
      EmittedJoin(React(h, e), t, b);
      Associate(if e.Byte? then [Call(h, e.k).out] else [], Emitted(React(h, e), t), Emitted(After(React(h, e), t), b));
    }
  }

  lemma Associate(a: seq<byte>, b: seq<byte>, c: seq<byte>)
    ensures a + (b + c) == a + b + c
  {
  }

  lemma {:induction false} EmittedSplit(h: Head, es: seq<Event>, m: nat)
    requires Sound(h) && Allowed(h, es) && m <= |es|
    ensures Allowed(h, es[..m]) && Allowed(After(h, es[..m]), es[m..])
    ensures Emitted(h, es) == Emitted(h, es[..m]) + Emitted(After(h, es[..m]), es[m..])
  {
    hide Allowed, Emitted, After;
    assert es == es[..m] + es[m..];
    EmittedJoin(h, es[..m], es[m..]);
  }

  lemma CompleteSplit(es: seq<Event>, drive: nat, volume: byte, track: byte, disk: Disk, m: nat)
    requires AlwaysComplete(es, drive, volume, track, disk) && m <= |es|
    ensures AlwaysComplete(es[..m], drive, volume, track, disk) && AlwaysComplete(es[m..], drive, volume, track, disk)
  {
    var b := es[m..];
    assert forall i :: 0 <= i < |b| ==> b[i] == es[m + i];
  }

  /** With drive and arm where they were, DOS's sector is never taken. */
  lemma {:induction false} StillIsAllowed(h: Head, es: seq<Event>)
    requires Sound(h) && ArmStill(es, h.track) && forall i :: 0 <= i < |es| ==> es[i].k.drive == h.drive
    ensures Allowed(h, es)
    decreases |es|
  {
    if es != [] {
      TrackIsUnderArm(es[0].k.arm, h.track);
      assert Possible(h, es[0].k);
      assert forall i :: 0 <= i < |es[1..]| ==> es[1..][i] == es[i + 1];
      StillIsAllowed(React(h, es[0]), es[1..]);
    }
  }

  lemma FirstSector(h: Head, es: seq<Event>, volume: byte, disk: Disk)
    requires Sound(h) && h.phase.Idle? && |es| == STREAM_SIZE && AlwaysComplete(es, h.drive, volume, h.track, disk)
    ensures Allowed(h, es)
    ensures Emitted(h, es) == SectorStream(Address(volume, h.track, LogicalToPhysical(h.sector)), disk(h.sector))
    ensures After(h, es) == Head(h.drive, h.track, (h.sector + 15) % 16, Idle)
  {
    assert Complete(es[0].k.cache, h.drive, volume, h.track, disk);
    FirstAndRest(h, es, h.track, disk(h.sector));
  }

  /** The first sector's worth of calls, and what is left for the others. */
  lemma OneOfMany(h: Head, es: seq<Event>, volume: byte, disk: Disk)
    requires Sound(h) && h.phase.Idle? && |es| >= STREAM_SIZE && AlwaysComplete(es, h.drive, volume, h.track, disk)
    ensures Allowed(h, es)
    ensures var h1 := Head(h.drive, h.track, (h.sector + 15) % 16, Idle);
      && Allowed(h1, es[STREAM_SIZE..])
      && AlwaysComplete(es[STREAM_SIZE..], h.drive, volume, h.track, disk)
      && Emitted(h, es) == SectorStream(Address(volume, h.track, LogicalToPhysical(h.sector)), disk(h.sector))
                           + Emitted(h1, es[STREAM_SIZE..])
  {
    StillIsAllowed(h, es);
    CompleteSplit(es, h.drive, volume, h.track, disk, STREAM_SIZE);
    FirstSector(h, es[..STREAM_SIZE], volume, disk);
    EmittedSplit(h, es, STREAM_SIZE);
  }

  /** n sectors' worth of calls over a complete track send n whole sectors,
      each logical sector followed by the one before it, so that 16 of them
      are the whole track. */
  lemma {:induction false} TrackPasses(h: Head, es: seq<Event>, volume: byte, disk: Disk, n: nat)
    requires Sound(h) && h.phase.Idle? && |es| == n * STREAM_SIZE && AlwaysComplete(es, h.drive, volume, h.track, disk)
    ensures Allowed(h, es)
    ensures Emitted(h, es) == TrackStream(volume, h.track, disk, h.sector, n)
    decreases n
  {
    hide SectorStream;
    hide AlwaysComplete;
    if n > 0 {
      OneOfMany(h, es, volume, disk);
      TrackPasses(Head(h.drive, h.track, (h.sector + 15) % 16, Idle), es[STREAM_SIZE..], volume, disk, n - 1);
    }
  }
}
