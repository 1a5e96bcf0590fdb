/**
 The 6-and-2 "nibble" code of sw/src/disk.c: `nibblize`, `denibblize` and the
 `nibl` table of bytes that may stand on a disk.
*/
module DiskNibbles {
  import opened Bytes

  const SECTOR_SIZE := 256
  const STREAM_SIZE := 366

  type Sector = s: seq<byte> | |s| == SECTOR_SIZE witness seq(SECTOR_SIZE, _ => 0)

  // ---------------------------------------------------------------------
  //  6-and-2: 256 bytes as 86 + 256 values of six bits
  // ---------------------------------------------------------------------

  /** The two low bits of a byte, exchanged. */
  function Twist(a: byte): byte {
    ((a & 2) >> 1) | ((a & 1) << 1)
  }

  /** One pass over one `nbuf2` entry. */
  function Pack(n: byte, a: byte): byte {
    (n << 2) | Twist(a)
  }

  function High(a: byte): byte {
    a >> 2
  }

  function HighSix(s: Sector): (r: seq<byte>)
    ensures |r| == 256
  {
    seq(256, y requires 0 <= y < 256 => High(s[y]))
  }

  /** Entry x of `nbuf2` holds the low bits of bytes 85-x, 171-x and 257-x
      (the last wrapping round the sector for x < 2). */
  function LowTwo(s: Sector, x: nat): byte
    requires x < 86
  {
    (Twist(s[(257 - x) % 256]) << 4) | (Twist(s[171 - x]) << 2) | Twist(s[85 - x])
  }

  function LowTwos(s: Sector): (r: seq<byte>)
    ensures |r| == 86
  {
    seq(86, x requires 0 <= x < 86 => LowTwo(s, x))
  }

  lemma ThreePasses(o: byte, a: byte, b: byte, c: byte)
    ensures Pack(Pack(Pack(o, a), b), c) & 0x3F == (Twist(a) << 4) | (Twist(b) << 2) | Twist(c)
  {
  }

  /** Byte y is one of the first n that pass k reads. */
  ghost predicate InPass(k: nat, n: nat, y: nat) {
    258 - 86 * k - n <= y < 258 - 86 * k || (k == 0 && 1 < n + y < n + 2)
  }

  /** The inner loop of `nibblize`: one pass over `nbuf2`, reading the sector
      downwards from yp-1. */
  method NibblizePass(buf: Sector, nbuf1: array<byte>, nbuf2: array<byte>, pass: nat)
    requires nbuf1.Length == 256 && nbuf2.Length == 86 && nbuf1 != nbuf2 && pass < 3
    modifies nbuf1, nbuf2
    ensures forall i :: 0 <= i < 86 ==> nbuf2[i] == Pack(old(nbuf2[i]), buf[Visited(pass, i)])
    ensures forall y :: 0 <= y < 256 ==>
      nbuf1[y] == if InPass(pass, 86, y) then High(buf[y]) else old(nbuf1[y])
  {
    var yp := 0x102 - 86 * pass;
    for x := 0 to 0x56
      invariant yp == 258 - 86 * pass - x
      invariant forall i :: 0 <= i < x ==> nbuf2[i] == Pack(old(nbuf2[i]), buf[Visited(pass, i)])
      invariant forall i :: x <= i < 86 ==> nbuf2[i] == old(nbuf2[i])
      invariant forall y :: 0 <= y < 256 ==>
        nbuf1[y] == if InPass(pass, x, y) then High(buf[y]) else old(nbuf1[y])
    {
      yp := yp - 1;
      var y := yp % 256;
      assert y == Visited(pass, x);
      var a := buf[y];
      nbuf2[x] := Pack(nbuf2[x], a);
      nbuf1[y] := High(a);
    }
  }

  /** `nibblize`: whatever was in the two buffers, they end up holding the
      six-bit form of `buf`. */
  method Nibblize(buf: Sector, nbuf1: array<byte>, nbuf2: array<byte>)
    requires nbuf1.Length == 256 && nbuf2.Length == 86 && nbuf1 != nbuf2
    modifies nbuf1, nbuf2
    ensures nbuf1[..] == HighSix(buf)
    ensures nbuf2[..] == LowTwos(buf)
  {
    hide Pack;
    hide LowTwo;
    ghost var was := nbuf2[..];
    for pass := 0 to 3
      invariant forall y :: 258 - 86 * pass <= y < 256 ==> nbuf1[y] == High(buf[y])
      invariant forall i :: 0 <= i < 86 ==> nbuf2[i] == Packed(was[i], buf, i, pass)
    {
      NibblizePass(buf, nbuf1, nbuf2, pass);
    }
    var x := 0x55;
    while x >= 0
      invariant -1 <= x <= 0x55
      invariant nbuf1[..] == HighSix(buf)
      invariant forall i :: 0 <= i <= x ==> nbuf2[i] == Packed(was[i], buf, i, 3)
      invariant forall i :: x < i < 86 ==> nbuf2[i] == LowTwo(buf, i)
    {
      PackedThrice(was[x], buf, x);
      nbuf2[x] := nbuf2[x] & 0x3F;
      x := x - 1;
    }
  }

  /** The byte that pass k reads when it reaches `nbuf2[i]`. */
  ghost function Visited(k: nat, i: nat): nat
    requires i < 86 && k < 3
  {
    if k == 0 then (if i < 2 then 1 - i else 257 - i) else 257 - 86 * k - i
  }

  /** `nbuf2[i]` after the first k passes. */
  ghost function Packed(o: byte, s: Sector, i: nat, k: nat): byte
    requires i < 86 && k <= 3
  {
    if k == 0 then o else Pack(Packed(o, s, i, k - 1), s[Visited(k - 1, i)])
  }

  lemma PackedThrice(o: byte, s: Sector, i: nat)
    requires i < 86
    ensures Packed(o, s, i, 3) & 0x3F == LowTwo(s, i)
  {
    assert Packed(o, s, i, 1) == Pack(o, s[(257 - i) % 256]);
    assert Packed(o, s, i, 2) == Pack(Packed(o, s, i, 1), s[171 - i]);
    ThreePasses(o, s[(257 - i) % 256], s[171 - i], s[85 - i]);
  }

  /** A `nbuf2` entry after k bytes have taken their two bits from it. */
  function Drained(b: byte, k: nat): byte {
    if k == 0 then b else Drained(b, k - 1) >> 2
  }

  /** The `nbuf2` entry that byte y takes its two low bits from. */
  function Slot(y: nat): (x: nat)
    requires y < 256
    ensures x < 86
  {
    if y < 86 then 85 - y else if y < 172 then 171 - y else 257 - y
  }

  /** How many of the first y bytes have used `nbuf2[i]`. */
  function Uses(y: nat, i: nat): nat {
    if y + i < 86 then 0 else if y + i < 172 then 1 else if y + i < 258 then 2 else 3
  }

  /** Byte y rebuilt from the two buffers. */
  function Rebuilt(n1: seq<byte>, n2: seq<byte>, y: nat): byte
    requires |n1| == 256 && |n2| == 86 && y < 256
  {
    (n1[y] << 2) | Twist(Drained(n2[Slot(y)], Uses(y, Slot(y))))
  }

  function Rebuild(n1: seq<byte>, n2: seq<byte>): (s: Sector)
    requires |n1| == 256 && |n2| == 86
  {
    seq(256, y requires 0 <= y < 256 => Rebuilt(n1, n2, y))
  }

  lemma UsedOnce(y: nat)
    requires y < 256
    ensures forall i :: 0 <= i < 86 ==> Uses(y + 1, i) == Uses(y, i) + if i == Slot(y) then 1 else 0
  {
  }

  lemma DrainedMore(b: byte, k: nat)
    ensures Drained(b, k + 1) == Drained(b, k) >> 2
  {
  }

  lemma NothingDrained()
    ensures forall i :: 0 <= i < 86 ==> Uses(0, i) == 0
    ensures forall b :: Drained(b, 0) == b
  {
  }

  /** `denibblize`: rebuilds the first t0 bytes (all of them for t0 = 0),
      shifting `nbuf2` empty as it goes and leaving the rest of `buf` alone. */
  method Denibblize(buf: array<byte>, t0: nat, nbuf1: array<byte>, nbuf2: array<byte>)
    requires t0 <= 256 && buf.Length == 256
    requires nbuf1.Length == 256 && nbuf2.Length == 86
    requires nbuf1 != nbuf2 && buf != nbuf1 && buf != nbuf2
    modifies buf, nbuf2
    ensures var n := if t0 == 0 then 256 else t0;
      && buf[..n] == Rebuild(old(nbuf1[..]), old(nbuf2[..]))[..n]
      && buf[n..] == old(buf[n..])
      && forall i :: 0 <= i < 86 ==> nbuf2[i] == Drained(old(nbuf2[i]), Uses(n, i))
  {
    hide Twist, Drained, Uses;
    NothingDrained();
    var n := if t0 == 0 then 256 else t0;
    ghost var n1, n2 := nbuf1[..], nbuf2[..];
    var x, y := 0x56, 0;
    while y < n
      invariant 0 <= y <= n
      invariant x == if y == 0 then 86 else Slot(y - 1)
      invariant forall i :: 0 <= i < 86 ==> nbuf2[i] == Drained(n2[i], Uses(y, i))
      invariant forall i :: 0 <= i < y ==> buf[i] == Rebuilt(n1, n2, i)
      invariant forall i :: y <= i < 256 ==> buf[i] == old(buf[i])
    {
      x := x - 1;
      if x < 0 {
        x := 0x55;
      }
      assert x == Slot(y);
      UsedOnce(y);
      DrainedMore(n2[x], Uses(y, x));
      buf[y] := (nbuf1[y] << 2) | Twist(nbuf2[x]);
      nbuf2[x] := nbuf2[x] >> 2;
      y := y + 1;
    }
  }

  lemma DrainedTwice(b: byte)
    ensures Drained(b, 1) == b >> 2 && Drained(b, 2) == (b >> 2) >> 2
  {
    assert Drained(b, 1) == Drained(b, 0) >> 2;
  }

  lemma ThreeTakes(a: byte, b: byte, c: byte, high: byte)
    ensures var n := (Twist(a) << 4) | (Twist(b) << 2) | Twist(c);
      && (high == c ==> ((high >> 2) << 2) | Twist(n) == c)
      && (high == b ==> ((high >> 2) << 2) | Twist(n >> 2) == b)
      && (high == a ==> ((high >> 2) << 2) | Twist((n >> 2) >> 2) == a)
  {
  }

  /** The six-bit code loses nothing: `denibblize` undoes `nibblize`. */
  lemma RebuildNibblized(s: Sector)
    ensures Rebuild(HighSix(s), LowTwos(s)) == s
  {
    forall y | 0 <= y < 256 ensures Rebuilt(HighSix(s), LowTwos(s), y) == s[y] {
      var x := Slot(y);
      DrainedTwice(LowTwo(s, x));
      ThreeTakes(s[(257 - x) % 256], s[171 - x], s[85 - x], s[y]);
    }
  }

  /** What the controller's boot ROM makes of the two buffers: the six bits and,
      shifted in one after the other, the lowest two that are left in the entry
      for the byte, of which there is one for every 86th. */
  function RomByte(n1: seq<byte>, n2: seq<byte>, y: nat): byte
    requires |n1| == 256 && |n2| == 86 && y < 256
  {
    var n := if y < 86 then n2[85 - y] else if y < 172 then n2[171 - y] >> 2 else n2[257 - y] >> 4;
    ShiftedIn(n1[y], n)
  }

  function ShiftedIn(six: byte, two: byte): byte {
    4 * six + 2 * (two & 1) + ((two >> 1) & 1)
  }

  function RomSector(n1: seq<byte>, n2: seq<byte>): (s: Sector)
    requires |n1| == 256 && |n2| == 86
  {
    seq(256, y requires 0 <= y < 256 => RomByte(n1, n2, y))
  }

  lemma RomTakes(a: byte, b: byte, c: byte)
    ensures var n := (Twist(a) << 4) | (Twist(b) << 2) | Twist(c);
      && ShiftedIn(High(c), n) == c
      && ShiftedIn(High(b), n >> 2) == b
      && ShiftedIn(High(a), n >> 4) == a
  {
  }

  lemma BuffersAt(s: Sector, x: nat, y: nat)
    requires x < 86 && y < 256
    ensures LowTwos(s)[x] == (Twist(s[(257 - x) % 256]) << 4) | (Twist(s[171 - x]) << 2) | Twist(s[85 - x])
    ensures HighSix(s)[y] == High(s[y])
  {
    hide Twist, High;
  }

  lemma {:induction false} RomReads(s: Sector, y: nat)
    requires y < 256
    ensures RomByte(HighSix(s), LowTwos(s), y) == s[y]
  {
    var x := if y < 86 then 85 - y else if y < 172 then 171 - y else 257 - y;
    BuffersAt(s, x, y);
    RomTakes(s[(257 - x) % 256], s[171 - x], s[85 - x]);
    hide ShiftedIn, High, Twist, HighSix, LowTwos;
  }

  /** The boot ROM reads back every sector, too. */
  lemma {:induction false} RomReadsNibblized(s: Sector)
    ensures RomSector(HighSix(s), LowTwos(s)) == s
  {
    hide RomByte, HighSix, LowTwos;
    forall y | 0 <= y < 256 ensures RomByte(HighSix(s), LowTwos(s), y) == s[y] {
      RomReads(s, y);
    }
  }

  // ---------------------------------------------------------------------
  //  The `nibl` table
  // ---------------------------------------------------------------------

  function Eighth(v: byte, a: byte, b: byte, c: byte, d: byte, e: byte, f: byte, g: byte, h: byte): byte {
    if v == 0 then a else if v == 1 then b else if v == 2 then c else if v == 3 then d
    else if v == 4 then e else if v == 5 then f else if v == 6 then g else h
  }

  /** The table of disk bytes, one row of eight per line. */
  function Nibl(v: byte): byte
    requires v < 64
  {
    if v < 8       then Eighth(v,      0x96, 0x97, 0x9A, 0x9B, 0x9D, 0x9E, 0x9F, 0xA6)
    else if v < 16 then Eighth(v - 8,  0xA7, 0xAB, 0xAC, 0xAD, 0xAE, 0xAF, 0xB2, 0xB3)
    else if v < 24 then Eighth(v - 16, 0xB4, 0xB5, 0xB6, 0xB7, 0xB9, 0xBA, 0xBB, 0xBC)
    else if v < 32 then Eighth(v - 24, 0xBD, 0xBE, 0xBF, 0xCB, 0xCD, 0xCE, 0xCF, 0xD3)
    else if v < 40 then Eighth(v - 32, 0xD6, 0xD7, 0xD9, 0xDA, 0xDB, 0xDC, 0xDD, 0xDE)
    else if v < 48 then Eighth(v - 40, 0xDF, 0xE5, 0xE6, 0xE7, 0xE9, 0xEA, 0xEB, 0xEC)
    else if v < 56 then Eighth(v - 48, 0xED, 0xEE, 0xEF, 0xF2, 0xF3, 0xF4, 0xF5, 0xF6)
    else                Eighth(v - 56, 0xF7, 0xF9, 0xFA, 0xFB, 0xFC, 0xFD, 0xFE, 0xFF)
  }

  /** A byte the drive head can follow: it starts with a one and never has
      three zeros in a row. */
  predicate Readable(b: byte) {
    && b & 0x80 != 0
    && b & 0x70 != 0 && b & 0x38 != 0 && b & 0x1C != 0 && b & 0x0E != 0 && b & 0x07 != 0
  }

  lemma NiblReadable(v: byte)
    requires v < 64
    ensures Readable(Nibl(v)) && Nibl(v) != 0xD5 && Nibl(v) != 0xAA
  {
  }

  lemma NiblNextFirst(v: byte)
    requires 0 <= v < 16
    ensures Nibl(v) < Nibl(v + 1)
  {
  }

  lemma NiblNextSecond(v: byte)
    requires 16 <= v < 32
    ensures Nibl(v) < Nibl(v + 1)
  {
  }

  lemma NiblNextThird(v: byte)
    requires 32 <= v < 48
    ensures Nibl(v) < Nibl(v + 1)
  {
  }

  lemma NiblNextLast(v: byte)
    requires 48 <= v < 63
    ensures Nibl(v) < Nibl(v + 1)
  {
  }

  lemma NiblNext(v: byte)
    requires v < 63
    ensures Nibl(v) < Nibl(v + 1)
  {
    hide Nibl;
    if v < 16 {
      NiblNextFirst(v);
    } else if v < 32 {
      NiblNextSecond(v);
    } else if v < 48 {
      NiblNextThird(v);
    } else {
      NiblNextLast(v);
    }
  }

  lemma {:induction false} NiblIncreasing(v: byte, w: byte)
    requires v < w < 64
    ensures Nibl(v) < Nibl(w)
    decreases w
  {
    hide Nibl;
    NiblNext(w - 1);
    if v < w - 1 {
      NiblIncreasing(v, w - 1);
    }
  }

  /** Places below the top bit where two zeros, and where two ones, meet. */
  function ZeroPairs(b: byte): nat {
    (if b & 0x60 == 0 then 1 else 0) + (if b & 0x30 == 0 then 1 else 0) + (if b & 0x18 == 0 then 1 else 0)
    + (if b & 0x0C == 0 then 1 else 0) + (if b & 0x06 == 0 then 1 else 0) + (if b & 0x03 == 0 then 1 else 0)
  }

  predicate HasOnePair(b: byte) {
    || b & 0x60 == 0x60 || b & 0x30 == 0x30 || b & 0x18 == 0x18
    || b & 0x0C == 0x0C || b & 0x06 == 0x06 || b & 0x03 == 0x03
  }

  /** The bytes that DOS 3.3 allows as data: they start with a one, have two
      ones in a row behind it, and at most once two zeros in a row. */
  predicate DiskByte(b: byte) {
    b & 0x80 != 0 && HasOnePair(b) && ZeroPairs(b) <= 1
  }

  lemma {:induction false} NiblAllowed(v: byte)
    requires v < 64
    ensures DiskByte(Nibl(v))
  {
  }

  lemma {:induction false} NoneBetweenFirst(v: byte, b: byte)
    requires 0 <= v < 16 && Nibl(v) < b < Nibl(v + 1)
    ensures !DiskByte(b)
  {
  }

  lemma {:induction false} NoneBetweenSecond(v: byte, b: byte)
    requires 16 <= v < 32 && Nibl(v) < b < Nibl(v + 1)
    ensures !DiskByte(b)
  {
  }

  lemma {:induction false} NoneBetweenThird(v: byte, b: byte)
    requires 32 <= v < 48 && Nibl(v) < b < Nibl(v + 1)
    ensures !DiskByte(b)
  {
  }

  lemma {:induction false} NoneBetweenLast(v: byte, b: byte)
    requires 48 <= v < 63 && Nibl(v) < b < Nibl(v + 1)
    ensures !DiskByte(b)
  {
  }

  lemma {:induction false} NoneBetween(v: byte, b: byte)
    requires v < 63 && Nibl(v) < b < Nibl(v + 1)
    ensures !DiskByte(b)
  {
    hide Nibl, DiskByte;
    if v < 16 {
      NoneBetweenFirst(v, b);
    } else if v < 32 {
      NoneBetweenSecond(v, b);
    } else if v < 48 {
      NoneBetweenThird(v, b);
    } else {
      NoneBetweenLast(v, b);
    }
  }

  lemma NoneOutside(b: byte)
    requires DiskByte(b)
    ensures Nibl(0) <= b <= Nibl(63)
  {
  }

  lemma {:induction false} NextIsBelow(b: byte, v: byte)
    requires DiskByte(b) && v < 64 && Nibl(v) < b
    ensures v < 63 && Nibl(v + 1) <= b
  {
    hide Nibl, DiskByte;
    NoneOutside(b);
    if v < 63 && b < Nibl(v + 1) {
      NoneBetween(v, b);
    }
  }

  /** The table has every byte that is allowed. */
  lemma {:induction false} CodeOf(b: byte, from: byte) returns (v: byte)
    requires DiskByte(b) && from < 64 && Nibl(from) <= b
    ensures v < 64 && Nibl(v) == b
    decreases 64 - from
  {
    hide Nibl, DiskByte;
    v := from;
    if Nibl(from) != b {
      NextIsBelow(b, from);
      OneLess(from);
      v := CodeOf(b, from + 1);
    }
  }

  lemma OneLess(v: byte)
    requires v < 63
    ensures v + 1 < 64 && 64 - (v + 1) < 64 - v
  {
  }

  /** The codes are exactly the bytes allowed; as they increase, this fixes the
      whole table. */
  lemma {:induction false} CodesAreDiskBytes(b: byte)
    ensures DiskByte(b) <==> exists v: byte :: v < 64 && Nibl(v) == b
  {
    hide Nibl, DiskByte;
    if DiskByte(b) {
      NoneOutside(b);
      var v := CodeOf(b, 0);
    } else if exists v: byte :: v < 64 && Nibl(v) == b {
      var v: byte :| v < 64 && Nibl(v) == b;
      NiblAllowed(v);
    }
  }

  /** What the controller's boot ROM does: search the table for a disk byte. */
  function FindNibl(b: byte, v: byte): Option<byte>
    requires v <= 64
    decreases 64 - v
  {
    if v == 64 then None
    else if Nibl(v) == b then Some(v)
    else FindNibl(b, v + 1)
  }

  function Denibl(b: byte): Option<byte> {
    FindNibl(b, 0)
  }

  lemma {:induction false} FindNiblFrom(v: byte, k: byte)
    requires k <= v < 64
    ensures FindNibl(Nibl(v), k) == Some(v)
    decreases 64 - k
  {
    hide Nibl;
    if k != v {
      NiblIncreasing(k, v);
      FindNiblFrom(v, k + 1);
    }
  }
}
