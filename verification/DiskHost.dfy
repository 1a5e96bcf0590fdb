/**
 The other end of the disk protocol, in its own terms: how a host reads
 hexadecimal numerals and commands and makes a checksum; and that the firmware
 means the same.
*/
module DiskHost {
  import opened Bytes
  import opened DiskNibbles
  import opened DiskCache
  import Stdio

  // ---------------------------------------------------------------------
  //  Numerals
  // ---------------------------------------------------------------------

  /** The value of a hexadecimal digit, in either case. */
  function HexValue(ch: byte): Option<byte> {
    if 0x30 <= ch <= 0x39 then Some(ch - 0x30)
    else if 0x41 <= ch <= 0x46 then Some(ch - 0x37)
    else if 0x61 <= ch <= 0x66 then Some(ch - 0x57)
    else None
  }

  /** A numeral of two digits. */
  function HexByte(hi: byte, lo: byte): Option<byte> {
    if HexValue(hi).None? || HexValue(lo).None? then None
    else Some(16 * HexValue(hi).value + HexValue(lo).value)
  }

  /** A sector's number is one digit. */
  function SectorNamed(ch: byte): (s: Option<nat>)
    ensures s.Some? ==> s.value < 16
  {
    if HexValue(ch).None? then None else Some(HexValue(ch).value as nat)
  }

  /** The firmware reads digits as they are meant. */
  lemma GetHexIsValue(ch: byte)
    ensures IsHex(ch) <==> HexValue(ch).Some?
    ensures HexValue(ch).Some? ==> GetHex(ch) == HexValue(ch).value < 16
  {
  }

  lemma HexDigitIsNamed(ch: byte)
    ensures IsHex(ch) <==> SectorNamed(ch).Some?
    ensures IsHex(ch) ==> Some(HexDigit(ch)) == SectorNamed(ch)
  {
    GetHexIsValue(ch);
  }

  lemma Join(h: byte, l: byte)
    requires h < 16 && l < 16
    ensures (h << 4) | l == 16 * h + l
  {
  }

  /** And the numerals of checksums. */
  lemma {:induction false} SaysIsNumeral(hi: byte, lo: byte, sum: byte)
    ensures Says(hi, lo, sum) <==> HexByte(hi, lo) == Some(sum)
  {
    GetHexIsValue(hi);
    GetHexIsValue(lo);
    hide GetHex, HexValue;
    if IsHex(hi) && IsHex(lo) {
      Join(GetHex(hi), GetHex(lo));
    }
  }

  /** `@VV` inside a response: the external drive's volume becomes VV, and the
      lines stay; five characters are consumed. */
  lemma {:induction false} VolumeIsRead(c: State, buf: Buffer, count: nat, p: nat)
    requires p < count <= CDC_RX_BUFSIZE && buf[p] == 0x40 && HexByte(buf[p + 1], buf[p + 2]).Some?
    requires Round(c, buf, count, p).Some?
    ensures var m := Round(c, buf, count, p).value;
      && Some(m.c.volumes[0]) == HexByte(buf[p + 1], buf[p + 2]) && m.c.volumes[1] == c.volumes[1]
      && m.c.lines == c.lines && m.c.ext == c.ext && m.p == p + 5
  {
    GetHexIsValue(buf[p + 1]);
    GetHexIsValue(buf[p + 2]);
    hide GetHex, HexValue;
    Join(GetHex(buf[p + 1]), GetHex(buf[p + 2]));
  }

  // ---------------------------------------------------------------------
  //  Commands
  // ---------------------------------------------------------------------

  /** What a host is asked for: a sector, or all of a track. */
  datatype Order = Order(track: byte, sector: Option<nat>)

  /** `<TTS`, or `<T` or `<TT` for a track, and the end of the line. */
  function HostReads(text: seq<byte>): Option<Order> {
    if |text| < 3 || text[0] != 0x3C || text[|text| - 1] != 0x0A then None
    else if |text| == 3 then
      if HexValue(text[1]).None? then None else Some(Order(HexValue(text[1]).value, None))
    else if |text| == 4 then
      if HexByte(text[1], text[2]).None? then None else Some(Order(HexByte(text[1], text[2]).value, None))
    else if |text| == 5 then
      if HexByte(text[1], text[2]).None? || SectorNamed(text[3]).None? then None
      else Some(Order(HexByte(text[1], text[2]).value, SectorNamed(text[3])))
    else None
  }

  lemma PrintedValue(n: byte)
    requires n < 16
    ensures HexValue(PrintedDigit(n)) == Some(n)
  {
  }

  lemma Rejoin(b: byte)
    ensures 16 * (b >> 4) + (b & 0xF) == b
  {
  }

  lemma {:induction false} PrintedTwoValue(b: byte)
    ensures |PrintedTwo(b)| == 2 && HexByte(PrintedTwo(b)[0], PrintedTwo(b)[1]) == Some(b)
  {
    Halves(b);
    PrintedValue(b >> 4);
    PrintedValue(b & 0xF);
    Rejoin(b);
    hide HexValue, PrintedDigit;
  }

  lemma SectorByteIs(sector: nat)
    requires sector < 16
    ensures SectorByte(sector) as nat == sector
  {
  }

  /** A command is read as the order it was made from. */
  lemma {:induction false} CommandIsRead(track: byte, sector: int)
    requires sector < 16
    ensures HostReads(CommandText(track, sector)) == Some(Order(track, if sector < 0 then None else Some(sector)))
  {
    PrintedTwoValue(track);
    hide HexValue, PrintedTwo, PrintedDigit, HexByte, SectorByte;
    if sector >= 0 {
      SectorByteIs(sector);
      PrintedValue(SectorByte(sector));
    } else if track < 16 {
      PrintedValue(track);
    }
  }

  /** The number printed by the formatter of the firmware: two digits. */
  lemma {:induction false} PrintsTwo(n: nat)
    requires n < 256
    ensures Stdio.Number(n, 16, false, 2, Stdio.Pad(false, true), 97) == [Stdio.Digit(n / 16, 97), Stdio.Digit(n % 16, 97)]
  {
    hide Stdio.Digit;
    assert Stdio.Digit(0, 97) == Stdio.ZERO by { ZeroDigit(); }
    var q, r := n / 16, n % 16;
    assert n % Stdio.WORD == n;
    if q > 0 {
      assert Stdio.Digits(q, 16, 97) == [Stdio.Digit(q, 97)] by { PrintsOneDigit(q); }
    }
    if n > 0 {
      assert Stdio.Digits(n, 16, 97) == Stdio.Digits(q, 16, 97) + [Stdio.Digit(r, 97)];
    }
    PadOne();
  }

  lemma {:induction false} PadOne()
    ensures Stdio.Repeat(Stdio.ZERO, 1) == [Stdio.ZERO]
    ensures Stdio.Repeat(Stdio.ZERO, 0) == []
    ensures Stdio.Repeat(Stdio.BLANK, -1) == []
  {
    assert Stdio.Repeat(Stdio.ZERO, 0) == [];
  }

  lemma ZeroDigit()
    ensures Stdio.Digit(0, 97) == Stdio.ZERO
  {
  }

  lemma {:induction false} PrintsOneDigit(n: nat)
    requires 0 < n < 16
    ensures Stdio.Digits(n, 16, 97) == [Stdio.Digit(n, 97)]
  {
    assert n / 16 == 0 && n % 16 == n;
    assert Stdio.Digits(0, 16, 97) == [];
  }

  lemma {:induction false} PrintsOne(n: nat)
    requires n < 16
    ensures Stdio.Number(n, 16, false, 0, Stdio.Pad(false, false), 97) == [Stdio.Digit(n, 97)]
  {
    ZeroDigit();
    assert n % Stdio.WORD == n;
    if n > 0 {
      PrintsOneDigit(n);
    }
    hide Stdio.Digit;
  }

  lemma HalvesAsNumbers(b: byte)
    ensures (b >> 4) as int == b as int / 16 && (b & 0xF) as int == b as int % 16
  {
  }

  lemma PrintedAsNumber(n: byte)
    requires n < 16
    ensures PrintedDigit(n) as int == Stdio.Digit(n as int, 97)
  {
  }

  /** The characters of a text, as numbers. */
  function Octets(text: seq<byte>): (r: seq<Octet>)
    ensures |r| == |text|
  {
    seq(|text|, i requires 0 <= i < |text| => text[i] as int)
  }

  /** Without a width only the digits needed are printed. */
  lemma {:induction false} PrintsPlain(n: nat)
    requires n < 256
    ensures Stdio.Number(n, 16, false, 0, Stdio.Pad(false, false), 97)
      == if n < 16 then [Stdio.Digit(n, 97)] else [Stdio.Digit(n / 16, 97), Stdio.Digit(n % 16, 97)]
  {
    if n < 16 {
      PrintsOne(n);
    } else {
      hide Stdio.Digit;
      PrintsOneDigit(n / 16);
      assert n % Stdio.WORD == n;
      assert Stdio.Digits(n, 16, 97) == Stdio.Digits(n / 16, 16, 97) + [Stdio.Digit(n % 16, 97)];
    }
  }

  lemma SmallAsNumber(b: byte)
    ensures b < 16 <==> (b as int) < 16
  {
  }

  /** A command for a track is what `printf` makes of "<%x\n". */
  lemma {:induction false} TrackCommandIsPrinted(track: byte)
    ensures Octets(CommandText(track, -1))
      == [60] + Stdio.Number(track as int, 16, false, 0, Stdio.Pad(false, false), 97) + [10]
  {
    hide PrintedDigit, Stdio.Digit, Stdio.Number;
    SmallAsNumber(track);
    PrintsPlain(track as int);
    if track < 16 {
      PrintedAsNumber(track);
    } else {
      Halves(track);
      HalvesAsNumbers(track);
      PrintedAsNumber(track >> 4);
      PrintedAsNumber(track & 0xF);
    }
  }

  /** A command for a sector is what `printf` makes of "<%02x%x\n". */
  lemma {:induction false} CommandIsPrinted(track: byte, sector: nat)
    requires sector < 16
    ensures Octets(CommandText(track, sector))
      == [60] + Stdio.Number(track as int, 16, false, 2, Stdio.Pad(false, true), 97)
         + Stdio.Number(sector, 16, false, 0, Stdio.Pad(false, false), 97) + [10]
  {
    hide PrintedDigit, Stdio.Digit, Stdio.Number;
    Halves(track);
    HalvesAsNumbers(track);
    PrintedAsNumber(track >> 4);
    PrintedAsNumber(track & 0xF);
    SectorByteIs(sector);
    PrintedAsNumber(SectorByte(sector));
    PrintsTwo(track as int);
    PrintsOne(sector);
    var a, b, c := PrintedDigit(track >> 4), PrintedDigit(track & 0xF), PrintedDigit(SectorByte(sector));
    assert CommandText(track, sector) == [0x3C, a, b, c, 0x0A];
  }

  /** A request is sent by the external drive when the longest command of its
      kind leaves room in the buffer; what is sent is the order requested. */
  lemma {:induction false} RequestIsOrder(c: State, drive: nat, track: byte, sector: int, room: nat)
    requires drive < 2 && sector < 16
    ensures var sent := CacheRequest(c, drive, track, sector, room).sent;
      && (sent.Some? <==>
          c.ext != Reading && drive == 0 && forall t: byte :: |CommandText(t, sector)| < room)
      && (sent.Some? ==> HostReads(sent.value) == Some(Order(track, if sector < 0 then None else Some(sector))))
  {
    hide VolumeDiffers, HostReads, PrintedDigit, SectorByte;
    CommandIsRead(track, sector);
    assert |CommandText(255, sector)| == if sector < 0 then 4 else 5;
  }

  // ---------------------------------------------------------------------
  //  Checksums
  // ---------------------------------------------------------------------

  function Mask(k: nat): byte
    requires k < 8
  {
    match k
    case 0 => 1 case 1 => 2 case 2 => 4 case 3 => 8 case 4 => 0x10 case 5 => 0x20 case 6 => 0x40 case _ => 0x80
  }

  predicate HasBit(b: byte, k: nat)
    requires k < 8
  {
    b & Mask(k) != 0
  }

  /** How many of the bytes have bit k. */
  function Count(s: seq<byte>, k: nat): nat
    requires k < 8
  {
    if s == [] then 0 else Count(s[..|s| - 1], k) + if HasBit(s[|s| - 1], k) then 1 else 0
  }

  /** Each bit says whether an odd number of the bytes have it. */
  predicate IsParity(sum: byte, s: seq<byte>) {
    forall k :: 0 <= k < 8 ==> (HasBit(sum, k) <==> Count(s, k) % 2 == 1)
  }

  lemma XorMasked(a: byte, b: byte, m: byte)
    ensures (a ^ b) & m == (a & m) ^ (b & m)
    ensures m & (m - 1) == 0 ==> a & m == 0 || a & m == m
  {
  }

  lemma XorSame(a: byte)
    ensures a ^ a == 0 && a ^ 0 == a && 0 ^ a == a
  {
  }

  lemma OneBit(k: nat)
    requires k < 8
    ensures Mask(k) != 0 && Mask(k) & (Mask(k) - 1) == 0
  {
  }

  lemma {:induction false} XorBit(a: byte, b: byte, k: nat)
    requires k < 8
    ensures HasBit(a ^ b, k) <==> HasBit(a, k) != HasBit(b, k)
  {
    var m := Mask(k);
    OneBit(k);
    XorMasked(a, b, m);
    XorMasked(b, a, m);
    XorSame(m);
    XorSame(0);
    hide Mask;
  }

  lemma NoBit(k: nat)
    requires k < 8
    ensures !HasBit(0, k)
  {
  }

  lemma SameBits(a: byte, b: byte)
    requires forall k :: 0 <= k < 8 ==> (HasBit(a, k) <==> HasBit(b, k))
    ensures a == b
  {
    assert HasBit(a, 0) <==> HasBit(b, 0);
    assert HasBit(a, 1) <==> HasBit(b, 1);
    assert HasBit(a, 2) <==> HasBit(b, 2);
    assert HasBit(a, 3) <==> HasBit(b, 3);
    assert HasBit(a, 4) <==> HasBit(b, 4);
    assert HasBit(a, 5) <==> HasBit(b, 5);
    assert HasBit(a, 6) <==> HasBit(b, 6);
    assert HasBit(a, 7) <==> HasBit(b, 7);
  }

  lemma {:induction false} ChecksumBit(s: seq<byte>, k: nat)
    requires k < 8
    ensures HasBit(Checksum(s), k) <==> Count(s, k) % 2 == 1
    decreases |s|
  {
    hide HasBit;
    if s == [] {
      NoBit(k);
    } else {
      ChecksumBit(s[..|s| - 1], k);
      XorBit(Checksum(s[..|s| - 1]), s[|s| - 1], k);
    }
  }

  /** The firmware's checksum is the only byte that is the parity. */
  lemma {:induction false} ChecksumIsParity(s: seq<byte>, sum: byte)
    ensures IsParity(sum, s) <==> sum == Checksum(s)
  {
    hide HasBit, Checksum, Count;
    forall k | 0 <= k < 8 ensures HasBit(Checksum(s), k) <==> Count(s, k) % 2 == 1 {
      ChecksumBit(s, k);
    }
    if IsParity(sum, s) {
      SameBits(sum, Checksum(s));
    }
  }

  /** The two digits claim the checksum of these bytes. */
  predicate Claims(hi: byte, lo: byte, s: seq<byte>) {
    HexByte(hi, lo).Some? && IsParity(HexByte(hi, lo).value, s)
  }

  /** The firmware believes a record exactly if the claim holds. */
  lemma {:induction false} SaysIsClaim(hi: byte, lo: byte, s: seq<byte>)
    ensures Says(hi, lo, Checksum(s)) <==> Claims(hi, lo, s)
  {
    hide HexByte, IsParity, Checksum, Says;
    SaysIsNumeral(hi, lo, Checksum(s));
    if HexByte(hi, lo).Some? {
      ChecksumIsParity(s, HexByte(hi, lo).value);
    }
  }
}
