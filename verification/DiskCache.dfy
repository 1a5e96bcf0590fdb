/**
 The track cache of sw/src/disk.c and the hexadecimal protocol that fills it:
 `iscached`, `cache_request`, `sector_checksum`, `get_hex` and the parsing
 loop of `external_disk_buffer_management`.
*/
module DiskCache {
  import opened Bytes
  import opened DiskNibbles

  const CDC_RX_BUFSIZE := 64
  const CACHE_SIZE := 8192

  /** The USB buffer has four bytes more than one read can fill. */
  type Buffer = b: seq<byte> | |b| == CDC_RX_BUFSIZE + 4 witness seq(CDC_RX_BUFSIZE + 4, _ => 0)

  datatype ExtState = Disconnected | NoDisk | Inserted | Seeking | Reading | Writing

  /** One entry of `cache_index`. */
  datatype Line = Line(track: byte, volume: byte, valid: Bits)

  /** `struct partial_sector`; `start` is an offset into `track_cache`. */
  datatype Partial = Partial(start: Option<nat>, currentByte: nat, currentSector: nat, halfByte: byte)

  /** Everything the cache routines read or write. Drive 0 is external. */
  datatype Cache = Cache(lines: seq<Line>, data: seq<byte>, partial: Partial, ext: ExtState, volumes: seq<byte>)

  predicate Shaped(c: Cache) {
    && |c.lines| == 2 && |c.volumes| == 2 && |c.data| == CACHE_SIZE
    && (c.partial.start.Some? ==> c.partial.start.value + SECTOR_SIZE <= 4096)
    && c.partial.currentSector < 16
  }

  type State = c: Cache | Shaped(c)
    witness Cache([Line(255, 0, NO_BITS), Line(255, 0, NO_BITS)], seq(CACHE_SIZE, _ => 0), Partial(None, 0, 0, 0), NoDisk, [0, 0])

  // ---------------------------------------------------------------------
  //  Looking up and requesting
  // ---------------------------------------------------------------------

  function SectorAt(c: State, drive: nat, sector: nat): (s: Sector)
    requires drive < 2 && sector < 16
  {
    c.data[drive * 4096 + sector * SECTOR_SIZE..][..SECTOR_SIZE]
  }

  /** `iscached`: the sector, when the line holds it. */
  function IsCached(c: State, drive: nat, track: byte, sector: nat): Option<Sector>
    requires drive < 2 && sector < 16
  {
    if c.lines[drive].track == track && c.lines[drive].valid[sector]
    then Some(SectorAt(c, drive, sector))
    else None
  }

  /** A digit printed with `%x`. */
  function PrintedDigit(n: byte): byte
    requires n < 16
  {
    if n < 10 then n + 0x30 else n - 10 + 0x61
  }

  lemma Halves(b: byte)
    ensures b >> 4 < 16 && b & 0xF < 16
  {
  }

  /** A byte printed with `%x`, and with `%02x`. */
  function PrintedHex(b: byte): seq<byte> {
    Halves(b);
    if b < 16 then [PrintedDigit(b)] else PrintedTwo(b)
  }

  function PrintedTwo(b: byte): seq<byte> {
    Halves(b);
    [PrintedDigit(b >> 4), PrintedDigit(b & 0xF)]
  }

  function SectorByte(sector: nat): (b: byte)
    requires sector < 16
    ensures b < 16
  {
    match sector
    case 0 => 0 case 1 => 1 case 2 => 2 case 3 => 3 case 4 => 4 case 5 => 5 case 6 => 6 case 7 => 7
    case 8 => 8 case 9 => 9 case 10 => 10 case 11 => 11 case 12 => 12 case 13 => 13 case 14 => 14 case _ => 15
  }

  /** The text of the command sent to the host; a negative sector asks for the
      whole track. */
  function CommandText(track: byte, sector: int): seq<byte>
    requires sector < 16
  {
    if sector < 0 then [0x3C] + PrintedHex(track) + [0x0A]
    else [0x3C] + PrintedTwo(track) + [PrintedDigit(SectorByte(sector)), 0x0A]
  }

  /** A byte read as an `int8_t`. */
  function Signed8(b: byte): int {
    if b < 128 then b as int else b as int - 256
  }

  /** `cache_index[].volume` is a `uint8_t`, `disk_drive[].volume` an `int8_t`;
      both are widened to int before they are compared. */
  predicate VolumeDiffers(line: byte, drive: byte) {
    (line as int) != Signed8(drive)
  }

  datatype Asked = Asked(c: State, sent: Option<seq<byte>>)

  /** `cache_request`; `room` is the space left in the USB send buffer. */
  function CacheRequest(c: State, drive: nat, track: byte, sector: int, room: nat): (r: Asked)
    requires drive < 2 && sector < 16
  {
    if c.ext == Reading then Asked(c, None)
    else
      var line := c.lines[drive];
      var c1 := if line.track != track || VolumeDiffers(line.volume, c.volumes[drive])
        then c.(lines := c.lines[drive := Line(track, c.volumes[drive], NO_BITS)])
        else c;
      if drive == 0 && room > (if sector < 0 then 4 else 5)
      then Asked(c1.(partial := c1.partial.(start := None), ext := Reading), Some(CommandText(track, sector)))
      else Asked(c1, None)
  }

  // ---------------------------------------------------------------------
  //  The hexadecimal protocol
  // ---------------------------------------------------------------------

  /** `get_hex`; 0xFF stands for its -1. */
  function GetHex(ch: byte): byte {
    if 0x30 <= ch <= 0x39 then ch - 0x30
    else
      var u := ch & 0xDF;
      if 0x41 <= u <= 0x46 then u - 0x41 + 10 else 0xFF
  }

  predicate IsHex(ch: byte) {
    GetHex(ch) != 0xFF
  }

  /** `sector_checksum`. */
  function Checksum(s: seq<byte>): byte {
    if s == [] then 0 else Checksum(s[..|s| - 1]) ^ s[|s| - 1]
  }

  function HashTag(): byte { 0x23 }
  function EqualsTag(): byte { 0x3D }
  function StarTag(): byte { 0x2A }
  function AtTag(): byte { 0x40 }

  lemma HexSmall(ch: byte)
    ensures IsHex(ch) <==> GetHex(ch) < 16
  {
  }

  function HexDigit(ch: byte): (n: nat)
    requires IsHex(ch)
    ensures n < 16 && n == GetHex(ch) as nat
  {
    HexSmall(ch);
    GetHex(ch) as nat
  }

  datatype Moved = Moved(c: State, p: nat)

  /** The digits after `*`: index of the first character that is not one. */
  function SkipDigits(buf: Buffer, count: nat, p: nat): (q: nat)
    requires p <= count <= CDC_RX_BUFSIZE
    ensures p <= q <= count
    ensures forall i :: p <= i < q ==> IsHex(buf[i])
    ensures q < count ==> !IsHex(buf[q])
    decreases count - p
  {
    if p == count || !IsHex(buf[p]) then p else SkipDigits(buf, count, p + 1)
  }

  /** One hexadecimal digit of payload. None when the byte it completes would
      be stored through the null pointer or outside `track_cache`. */
  function Nibble(c: State, bits: byte): Option<State> {
    var q := c.partial;
    if q.halfByte != 0 then
      if q.start.None? || q.start.value + q.currentByte >= CACHE_SIZE then None
      else
        var at := q.start.value + q.currentByte;
        Some(c.(data := c.data[at := (q.halfByte << 4) | bits],
                partial := q.(currentByte := q.currentByte + 1, halfByte := 0)))
    else
      Some(c.(partial := q.(halfByte := bits | 0x80)))
  }

  /** `#TTS`: the track digits are not looked at. None when S is not a digit:
      the sector pointer would be made from -1. */
  function OpenSector(c: State, s: byte): Option<State> {
    if !IsHex(s) then None
    else Some(c.(partial := Partial(Some(HexDigit(s) * SECTOR_SIZE), 0, HexDigit(s), 0)))
  }

  predicate Says(hi: byte, lo: byte, sum: byte) {
    IsHex(hi) && IsHex(lo) && (GetHex(hi) << 4) | GetHex(lo) == sum
  }

  /** `=CC`: the sector becomes valid when its bytes have that checksum. None
      when no sector was opened: a null pointer would be summed. */
  function CloseSector(c: State, hi: byte, lo: byte): Option<State> {
    if c.partial.start.None? then None
    else if Says(hi, lo, Checksum(c.data[c.partial.start.value..][..SECTOR_SIZE]))
    then Some(c.(lines := c.lines[0 := c.lines[0].(valid := c.lines[0].valid[c.partial.currentSector := true])]))
    else Some(c)
  }

  function Move(c: Option<State>, p: nat): Option<Moved> {
    if c.None? then None else Some(Moved(c.value, p))
  }

  /** One round of the parsing loop, at the character with index p. None
      stands for undefined behaviour. After `@VV` the character that follows
      the next one is taken as a payload digit. */
  function Round(c: State, buf: Buffer, count: nat, p: nat): (r: Option<Moved>)
    requires p < count <= CDC_RX_BUFSIZE
    ensures r.Some? ==> r.value.p > p
  {
    if buf[p] == HashTag() then Move(OpenSector(c, buf[p + 3]), p + 4)
    else if buf[p] == EqualsTag() then Move(CloseSector(c, buf[p + 1], buf[p + 2]), p + 3)
    else if buf[p] == StarTag() then Move(Some(c.(ext := Inserted)), SkipDigits(buf, count, p + 1))
    else if buf[p] == AtTag() then
      var v := (GetHex(buf[p + 1]) << 4) | GetHex(buf[p + 2]);
      Move(Nibble(c.(volumes := c.volumes[0 := v]), GetHex(buf[p + 4])), p + 5)
    else if buf[p] == 0x20 || buf[p] == 0x0A then Move(Some(c.(partial := c.partial.(halfByte := 0))), p + 1)
    else Move(Nibble(c, GetHex(buf[p])), p + 1)
  }

  /** The character behind `@VV` is not looked at. */
  lemma {:induction false} CharacterIsSkipped(c: State, buf: Buffer, count: nat, p: nat, x: byte)
    requires p < count <= CDC_RX_BUFSIZE && buf[p] == 0x40
    ensures Round(c, buf[p + 3 := x], count, p) == Round(c, buf, count, p)
    ensures Round(c, buf, count, p).Some? ==> Round(c, buf, count, p).value.p == p + 5
  {
    hide Nibble, GetHex;
  }

  /** The whole loop over one USB read. */
  function Parse(c: State, buf: Buffer, count: nat, p: nat): Option<State>
    requires count <= CDC_RX_BUFSIZE
    decreases count - p
  {
    if p >= count then Some(c)
    else
      match Round(c, buf, count, p)
      case None => None
      case Some(m) => Parse(m.c, buf, count, m.p)
  }

  // ---------------------------------------------------------------------
  //  Tokens: what the host sends, cut into reads only between tokens
  // ---------------------------------------------------------------------

  datatype Token =
    | Start(t1: byte, t0: byte, s: byte)
    | Digit(c: byte)
    | Blank(c: byte)
    | Sum(hi: byte, lo: byte)
    | End(crc: seq<byte>)

  predicate Whole(t: Token) {
    match t
    case Start(t1, t0, s) => IsHex(s)
    case Digit(c) => IsHex(c)
    case Blank(c) => c == 0x20 || c == 0x0A
    case Sum(hi, lo) => true
    case End(crc) => |crc| < CDC_RX_BUFSIZE && forall i :: 0 <= i < |crc| ==> IsHex(crc[i])
  }

  function Text(t: Token): (r: seq<byte>)
    ensures |r| > 0
  {
    match t
    case Start(t1, t0, s) => [0x23, t1, t0, s]
    case Digit(c) => [c]
    case Blank(c) => [c]
    case Sum(hi, lo) => [0x3D, hi, lo]
    case End(crc) => [0x2A] + crc
  }

  function TextOf(ts: seq<Token>): seq<byte> {
    if ts == [] then [] else Text(ts[0]) + TextOf(ts[1..])
  }

  /** A read the host may produce: whole tokens, `*` only at its end. */
  predicate Chunk(ts: seq<Token>) {
    && (forall i :: 0 <= i < |ts| ==> Whole(ts[i]))
    && (forall i :: 0 <= i < |ts| - 1 ==> !ts[i].End?)
  }

  /** What one token means. */
  function Apply(c: State, t: Token): Option<State> {
    match t
    case Start(_, _, s) => OpenSector(c, s)
    case Digit(ch) => Nibble(c, GetHex(ch))
    case Blank(_) => Some(c.(partial := c.partial.(halfByte := 0)))
    case Sum(hi, lo) => CloseSector(c, hi, lo)
    case End(_) => Some(c.(ext := Inserted))
  }

  function Run(c: State, ts: seq<Token>): Option<State>
    decreases |ts|
  {
    if ts == [] then Some(c)
    else
      match Apply(c, ts[0])
      case None => None
      case Some(c1) => Run(c1, ts[1..])
  }

  // ---------------------------------------------------------------------
  //  The parser means the tokens, however they are cut into reads
  // ---------------------------------------------------------------------

  lemma HexNotTag(ch: byte)
    requires IsHex(ch)
    ensures ch != HashTag() && ch != EqualsTag() && ch != StarTag() && ch != AtTag() && ch != 0x20 && ch != 0x0A
  {
  }

  predicate At(buf: Buffer, p: nat, x: seq<byte>) {
    p + |x| <= CDC_RX_BUFSIZE && buf[p..p + |x|] == x
  }

  lemma CharAt(buf: Buffer, p: nat, x: seq<byte>, i: nat)
    requires At(buf, p, x) && i < |x|
    ensures buf[p + i] == x[i]
  {
    assert buf[p..p + |x|][i] == x[i];
  }

  lemma {:induction false} SkipAll(buf: Buffer, count: nat, p: nat)
    requires p <= count <= CDC_RX_BUFSIZE
    requires forall i :: p <= i < count ==> IsHex(buf[i])
    ensures SkipDigits(buf, count, p) == count
    decreases count - p
  {
    if p < count {
      SkipAll(buf, count, p + 1);
    }
  }

  lemma EndSkips(buf: Buffer, p: nat, crc: seq<byte>)
    requires Whole(End(crc)) && At(buf, p, Text(End(crc)))
    ensures SkipDigits(buf, p + 1 + |crc|, p + 1) == p + 1 + |crc|
  {
    var x := Text(End(crc));
    forall i | p + 1 <= i < p + 1 + |crc| ensures IsHex(buf[i]) {
      CharAt(buf, p, x, i - p);
      assert x[i - p] == crc[i - p - 1];
    }
    SkipAll(buf, p + 1 + |crc|, p + 1);
  }

  lemma RoundIsApply(c: State, buf: Buffer, count: nat, p: nat, t: Token)
    requires Whole(t) && p + |Text(t)| <= count <= CDC_RX_BUFSIZE && At(buf, p, Text(t))
    requires t.End? ==> p + |Text(t)| == count
    ensures Round(c, buf, count, p) == Move(Apply(c, t), p + |Text(t)|)
  {
    CharAt(buf, p, Text(t), 0);
    match t
    case Start(t1, t0, s) => CharAt(buf, p, Text(t), 3);
    case Digit(ch) => HexNotTag(ch);
    case Blank(_) =>
    case Sum(hi, lo) =>
      CharAt(buf, p, Text(t), 1);
      CharAt(buf, p, Text(t), 2);
    case End(crc) => EndSkips(buf, p, crc);
  }

  lemma AtSplit(buf: Buffer, p: nat, x: seq<byte>, y: seq<byte>)
    requires At(buf, p, x + y)
    ensures At(buf, p, x) && At(buf, p + |x|, y)
  {
    assert buf[p..p + |x|] == (x + y)[..|x|];
    assert buf[p + |x|..p + |x| + |y|] == (x + y)[|x|..];
  }

  lemma ChunkTail(ts: seq<Token>)
    requires Chunk(ts) && ts != []
    ensures Whole(ts[0]) && Chunk(ts[1..]) && (ts[0].End? ==> ts[1..] == [])
  {
    var r := ts[1..];
    assert forall i :: 0 <= i < |r| ==> r[i] == ts[i + 1];
  }

  /** A read parses to the meaning of its tokens, whatever stale characters
      lie behind it in the buffer. */
  lemma {:induction false} ParseIsRun(c: State, buf: Buffer, p: nat, ts: seq<Token>)
    requires Chunk(ts) && At(buf, p, TextOf(ts))
    ensures Parse(c, buf, p + |TextOf(ts)|, p) == Run(c, ts)
    decreases |ts|
  {
    hide Round, Apply, Text;
    if ts != [] {
      var x, rest := Text(ts[0]), TextOf(ts[1..]);
      ChunkTail(ts);
      AtSplit(buf, p, x, rest);
      RoundIsApply(c, buf, p + |x| + |rest|, p, ts[0]);
      if Apply(c, ts[0]).Some? {
        ParseIsRun(Apply(c, ts[0]).value, buf, p + |x|, ts[1..]);
      }
    }
  }

  // ---------------------------------------------------------------------
  //  The routines themselves
  // ---------------------------------------------------------------------

  /** What one poll of the USB channel finds. */
  datatype Usb = Silent | Received(buf: Buffer, count: nat)

  datatype Polled = Polled(c: State, retries: nat)

  /** `external_disk_buffer_management` while a response is awaited. */
  function PollReading(c: State, retries: nat, usb: Usb): Option<Polled>
    requires usb.Received? ==> usb.count <= CDC_RX_BUFSIZE
  {
    if usb.Received? then
      match Parse(c, usb.buf, usb.count, 0)
      case None => None
      case Some(c1) => Some(Polled(c1, 0))
    else if retries > 1000 then
      Some(Polled(c.(ext := Inserted, partial := c.partial.(start := None)), 0))
    else Some(Polled(c, retries + 1))
  }

  /** `external_disk_buffer_management` on an `@` command outside a response:
      a disk with the given volume has been inserted. */
  function Insert(c: State, volume: byte): State {
    c.(volumes := c.volumes[0 := volume],
       ext := Inserted,
       lines := c.lines[0 := c.lines[0].(valid := NO_BITS)],
       partial := c.partial.(start := None))
  }

  class TrackCache {
    const lines: array<Line>
    const data: array<byte>
    const volumes: array<byte>
    var partial: Partial
    var ext: ExtState
    var retries: nat

    ghost predicate Valid()
      reads this, lines, data, volumes
    {
      lines.Length == 2 && data.Length == CACHE_SIZE && volumes.Length == 2
      && data != volumes && lines as object != data && lines as object != volumes
      && Shaped(Cache(lines[..], data[..], partial, ext, volumes[..]))
    }

    ghost function Abs(): State
      reads this, lines, data, volumes
      requires Valid()
    {
      Cache(lines[..], data[..], partial, ext, volumes[..])
    }

    /** `disk_init`: no track has number 255. */
    constructor ()
      ensures Valid() && fresh(lines) && fresh(data) && fresh(volumes)
      ensures Abs().ext == NoDisk && Abs().lines[0].track == 255 && Abs().lines[1].track == 255
    {
      lines := new Line[2](_ => Line(255, 0, NO_BITS));
      data := new byte[CACHE_SIZE](_ => 0);
      volumes := new byte[2](_ => 0);
      partial, ext, retries := Partial(None, 0, 0, 0), NoDisk, 0;
    }

    /** The address of the sector in `track_cache`, if it is there. */
    method Lookup(drive: nat, track: byte, sector: nat) returns (at: Option<nat>)
      requires Valid() && drive < 2 && sector < 16
      ensures match IsCached(Abs(), drive, track, sector)
        case None => at == None
        case Some(s) => at.Some? && at.value + SECTOR_SIZE <= CACHE_SIZE && data[at.value..at.value + SECTOR_SIZE] == s
    {
      at := None;
      if lines[drive].track == track && lines[drive].valid[sector] {
        at := Some(drive * 4096 + sector * SECTOR_SIZE);
      }
    }

    method Request(drive: nat, track: byte, sector: int, room: nat) returns (sent: Option<seq<byte>>)
      requires Valid() && drive < 2 && sector < 16
      modifies this, lines
      ensures Valid()
      ensures Asked(Abs(), sent) == CacheRequest(old(Abs()), drive, track, sector, room)
    {
      sent := None;
      if ext != Reading {
        if lines[drive].track != track || VolumeDiffers(lines[drive].volume, volumes[drive]) {
          lines[drive] := Line(track, volumes[drive], NO_BITS);
          assert lines[..] == old(lines[..])[drive := lines[drive]];
          assert volumes[..] == old(volumes[..]) && data[..] == old(data[..]);
        }
        if sector < 0 {
          if drive == 0 {
            if room > 4 {
              sent := Some([0x3C] + PrintedHex(track) + [0x0A]);
              partial := partial.(start := None);
              ext := Reading;
            }
          }
        } else {
          if drive == 0 {
            if room > 5 {
              sent := Some([0x3C] + PrintedTwo(track) + [PrintedDigit(SectorByte(sector)), 0x0A]);
              partial := partial.(start := None);
              ext := Reading;
            }
          }
        }
      }
    }

    method SectorChecksum(start: nat) returns (sum: byte)
      requires start + SECTOR_SIZE <= data.Length
      ensures sum == Checksum(data[start..start + SECTOR_SIZE])
    {
      sum := 0;
      for i := 0 to SECTOR_SIZE
        invariant sum == Checksum(data[start..start + i])
      {
        sum := sum ^ data[start + i];
        assert data[start..start + (i + 1)][..i] == data[start..start + i];
      }
    }

    /** One payload digit. */
    method Digit(bits: byte)
      requires Valid() && Nibble(Abs(), bits).Some?
      modifies this`partial, data
      ensures Valid() && Abs() == Nibble(old(Abs()), bits).value
    {
      if partial.halfByte != 0 {
        data[partial.start.value + partial.currentByte] := (partial.halfByte << 4) | bits;
        partial := partial.(currentByte := partial.currentByte + 1, halfByte := 0);
      } else {
        partial := partial.(halfByte := bits | 0x80);
      }
    }

    /** `#TTS`. */
    method Open(s: byte)
      requires Valid() && IsHex(s)
      modifies this`partial
      ensures Valid() && Some(Abs()) == OpenSector(old(Abs()), s)
    {
      partial := Partial(Some(HexDigit(s) * SECTOR_SIZE), 0, HexDigit(s), 0);
    }

    /** `=CC`. */
    method Close(hi: byte, lo: byte)
      requires Valid() && partial.start.Some?
      modifies lines
      ensures Valid() && Some(Abs()) == CloseSector(old(Abs()), hi, lo)
    {
      var start := partial.start.value;
      var sum := SectorChecksum(start);
      assert data[start..start + SECTOR_SIZE] == data[..][start..][..SECTOR_SIZE];
      if Says(hi, lo, sum) {
        lines[0] := lines[0].(valid := lines[0].valid[partial.currentSector := true]);
        assert lines[..] == old(lines[..])[0 := lines[0]];
        assert volumes[..] == old(volumes[..]) && data[..] == old(data[..]);
      }
    }

    /** `@VV`. */
    method Volume(v: byte)
      requires Valid()
      modifies volumes
      ensures Valid() && Abs() == old(Abs()).(volumes := old(volumes[..])[0 := v])
    {
      volumes[0] := v;
      assert volumes[..] == old(volumes[..])[0 := v];
      assert lines[..] == old(lines[..]) && data[..] == old(data[..]);
    }

    /** One round of the parsing loop. */
    method Advance(buf: Buffer, count: nat, p: nat) returns (q: nat)
      requires Valid() && p < count <= CDC_RX_BUFSIZE && Round(Abs(), buf, count, p).Some?
      modifies this`partial, this`ext, data, lines, volumes
      ensures Valid() && Some(Moved(Abs(), q)) == Round(old(Abs()), buf, count, p)
    {
      if buf[p] == HashTag() {
        Open(buf[p + 3]);
        q := p + 4;
      } else if buf[p] == EqualsTag() {
        Close(buf[p + 1], buf[p + 2]);
        q := p + 3;
      } else if buf[p] == StarTag() {
        ext := Inserted;
        q := p + 1;
        while q < count && IsHex(buf[q])
          invariant q <= count && SkipDigits(buf, count, q) == SkipDigits(buf, count, p + 1)
        {
          q := q + 1;
        }
      } else if buf[p] == AtTag() {
        Volume((GetHex(buf[p + 1]) << 4) | GetHex(buf[p + 2]));
        Digit(GetHex(buf[p + 4]));
        q := p + 5;
      } else if buf[p] == 0x20 || buf[p] == 0x0A {
        partial := partial.(halfByte := 0);
        q := p + 1;
      } else {
        Digit(GetHex(buf[p]));
        q := p + 1;
      }
    }

    /** The parsing loop over one read. The host must not make it store
        through a null or stray pointer. */
    method ParseRead(buf: Buffer, count: nat)
      requires Valid() && count <= CDC_RX_BUFSIZE && Parse(Abs(), buf, count, 0).Some?
      modifies this`partial, this`ext, data, lines, volumes
      ensures Valid() && Some(Abs()) == Parse(old(Abs()), buf, count, 0)
    {
      var p := 0;
      while p < count
        invariant Valid() && Parse(Abs(), buf, count, p) == Parse(old(Abs()), buf, count, 0)
        decreases count - p
      {
        p := Advance(buf, count, p);
      }
    }

    /** `external_disk_buffer_management` while a response is awaited. */
    method Poll(usb: Usb)
      requires Valid() && (usb.Received? ==> usb.count <= CDC_RX_BUFSIZE)
      requires PollReading(Abs(), retries, usb).Some?
      modifies this, data, lines, volumes
      ensures Valid() && Some(Polled(Abs(), retries)) == PollReading(old(Abs()), old(retries), usb)
    {
      match usb
      case Received(buf, count) =>
        retries := 0;
        ParseRead(buf, count);
      case Silent =>
        var before := retries;
        retries := retries + 1;
        if before > 1000 {
          ext := Inserted;
          partial := partial.(start := None);
          retries := 0;
        }
    }

    /** The `@` command of a freshly inserted disk. */
    method InsertDisk(volume: byte)
      requires Valid()
      modifies this, lines, volumes
      ensures Valid() && Abs() == Insert(old(Abs()), volume)
      ensures volumes[0] == volume && volumes[1] == old(volumes[1]) && data[..] == old(data[..])
      ensures lines[0] == old(lines[0]).(valid := NO_BITS) && lines[1] == old(lines[1])
    {
      Volume(volume);
      ext := Inserted;
      lines[0] := lines[0].(valid := NO_BITS);
      assert lines[..] == old(lines[..])[0 := lines[0]] && data[..] == old(data[..]);
      partial := partial.(start := None);
    }
  }
}
