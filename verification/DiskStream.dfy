/**
 The bytes that pass under the head while one sector goes by
 (sw/src/disk.c:291-292, 414-491), and a reader that finds and decodes a
 sector the way the Disk II boot ROM does: hunt for the marks, undo the
 4-and-4 address, look up and unchain the data bytes, check both checksums.
*/
module DiskStream {
  import opened Bytes
  import opened DiskNibbles

  /** What an address field says. `sector` is the physical sector number. */
  datatype Address = Address(volume: byte, track: byte, sector: byte)

  datatype Found = Found(address: Address, data: Sector)

  // ---------------------------------------------------------------------
  //  Writer
  // ---------------------------------------------------------------------

  function Odd(d: byte): byte { (d >> 1) | 0xAA }
  function Even(d: byte): byte { d | 0xAA }

  function Parity(a: Address): byte { a.volume ^ a.track ^ a.sector }

  /** Byte i of `hbuf` once the address has been filled in. */
  function AddressByte(a: Address, i: nat): byte
    requires i < 16
  {
    if i < 2 then 0xFF
    else if i == 2 then 0xD5
    else if i == 3 then 0xAA
    else if i == 4 then 0x96
    else if i == 5 then Odd(a.volume)
    else if i == 6 then Even(a.volume)
    else if i == 7 then Odd(a.track)
    else if i == 8 then Even(a.track)
    else if i == 9 then Odd(a.sector)
    else if i == 10 then Even(a.sector)
    else if i == 11 then Odd(Parity(a))
    else if i == 12 then Even(Parity(a))
    else if i == 13 then 0xDE
    else if i == 14 then 0xAA
    else 0xEB
  }

  const DATA_PROLOGUE: seq<byte> := [0xFF, 0xD5, 0xAA, 0xAD]
  const DATA_EPILOGUE: seq<byte> := [0xDE, 0xAA, 0xEB, 0xFF]

  /** The k-th six-bit value sent: `nbuf2` backwards, then `nbuf1`. */
  function Six(n1: seq<byte>, n2: seq<byte>, k: nat): byte
    requires |n1| == 256 && |n2| == 86 && k < 342
  {
    if k < 86 then n2[85 - k] else n1[k - 86]
  }

  /** Each value is sent XORed with the one before it, and the last one again
      on its own as the checksum. */
  function Link(n1: seq<byte>, n2: seq<byte>, k: nat): byte
    requires |n1| == 256 && |n2| == 86 && k <= 342
  {
    if k == 0 then Six(n1, n2, 0)
    else if k < 342 then Six(n1, n2, k - 1) ^ Six(n1, n2, k)
    else Six(n1, n2, 341)
  }

  predicate SixBit(s: seq<byte>) {
    forall i :: 0 <= i < |s| ==> s[i] < 64
  }

  lemma XorSixBit(a: byte, b: byte)
    requires a < 64 && b < 64
    ensures a ^ b < 64
  {
  }

  lemma LinkSixBit(n1: seq<byte>, n2: seq<byte>, k: nat)
    requires |n1| == 256 && |n2| == 86 && k <= 342 && SixBit(n1) && SixBit(n2)
    ensures Link(n1, n2, k) < 64
  {
    if 0 < k < 342 {
      XorSixBit(Six(n1, n2, k - 1), Six(n1, n2, k));
    }
  }

  function Gcr(n1: seq<byte>, n2: seq<byte>): (r: seq<byte>)
    requires |n1| == 256 && |n2| == 86 && SixBit(n1) && SixBit(n2)
    ensures |r| == 343
  {
    seq(343, k requires 0 <= k < 343 => LinkSixBit(n1, n2, k); Nibl(Link(n1, n2, k)))
  }

  function LowTwoSixBit(a: byte, b: byte, c: byte): (n: byte)
    ensures n < 64
  {
    (Twist(a) << 4) | (Twist(b) << 2) | Twist(c)
  }

  lemma NibblizedSixBit(s: Sector)
    ensures SixBit(HighSix(s)) && SixBit(LowTwos(s))
  {
    forall x | 0 <= x < 86 ensures LowTwo(s, x) < 64 {
      assert LowTwo(s, x) == LowTwoSixBit(s[(257 - x) % 256], s[171 - x], s[85 - x]);
    }
  }

  /** Byte i of the 366 that make up one sector. */
  function StreamByte(a: Address, n1: seq<byte>, n2: seq<byte>, i: nat): byte
    requires |n1| == 256 && |n2| == 86 && SixBit(n1) && SixBit(n2)
    requires i < STREAM_SIZE
  {
    if i < 16 then AddressByte(a, i)
    else if i < 20 then DATA_PROLOGUE[i - 16]
    else if i < 363 then LinkSixBit(n1, n2, i - 20); Nibl(Link(n1, n2, i - 20))
    else DATA_EPILOGUE[i - 363]
  }

  function SectorStream(a: Address, s: Sector): (r: seq<byte>)
    ensures |r| == STREAM_SIZE
  {
    NibblizedSixBit(s);
    seq(STREAM_SIZE, i requires 0 <= i < STREAM_SIZE => StreamByte(a, HighSix(s), LowTwos(s), i))
  }

  // ---------------------------------------------------------------------
  //  Reader
  // ---------------------------------------------------------------------

  /** First index at or after i that holds 0xD5, or the length. */
  function Hunt(s: seq<byte>, i: nat): (k: nat)
    requires i <= |s|
    ensures i <= k <= |s|
    ensures k < |s| ==> s[k] == 0xD5
    ensures forall j :: i <= j < k ==> s[j] != 0xD5
    decreases |s| - i
  {
    if i == |s| || s[i] == 0xD5 then i else Hunt(s, i + 1)
  }

  /** A data byte from its 4-and-4 pair. */
  function Merge(odd: byte, even: byte): byte {
    ((odd << 1) | 1) & even
  }

  lemma MergeSplit(d: byte)
    ensures Merge(Odd(d), Even(d)) == d
  {
  }

  function Unlink(v: byte, prev: byte): byte {
    v ^ prev
  }

  /** Look up and unchain: every value is the looked-up byte XOR the value
      before it. Fails on a byte that is not in the table. */
  function Unchain(s: seq<byte>, prev: byte): (r: Option<seq<byte>>)
    ensures r.Some? ==> |r.value| == |s|
  {
    if s == [] then Some([])
    else
      match Denibl(s[0])
      case None => None
      case Some(v) =>
        match Unchain(s[1..], Unlink(v, prev))
        case None => None
        case Some(rest) => Some([Unlink(v, prev)] + rest)
  }

  /** The data field at `s`, which must begin right after D5 AA AD. */
  function ReadData(s: seq<byte>): Option<Sector>
    requires |s| >= 346
  {
    match Unchain(s[..343], 0)
    case None => None
    case Some(v) =>
      if v[342] != 0 || s[343..346] != [0xDE, 0xAA, 0xEB] then None
      else Some(RomSector(v[86..342], seq(86, x requires 0 <= x < 86 => v[85 - x])))
  }

  /** The address field at `s`, which must begin right after D5 AA 96. */
  function ReadAddress(s: seq<byte>): Option<Address>
    requires |s| >= 11
  {
    var a := Address(Merge(s[0], s[1]), Merge(s[2], s[3]), Merge(s[4], s[5]));
    if Merge(s[6], s[7]) != a.volume ^ a.track ^ a.sector || s[8..11] != [0xDE, 0xAA, 0xEB] then None else Some(a)
  }

  /** Hunt for an address field, then for its data field. */
  function ReadSector(s: seq<byte>): Option<Found> {
    var i := Hunt(s, 0);
    if i + 14 > |s| || s[i..i+3] != [0xD5, 0xAA, 0x96] then None
    else
      match ReadAddress(s[i+3..])
      case None => None
      case Some(a) =>
        var d := Hunt(s, i + 14);
        if d + 349 > |s| || s[d..d+3] != [0xD5, 0xAA, 0xAD] then None
        else
          match ReadData(s[d+3..])
          case None => None
          case Some(data) => Some(Found(a, data))
  }

  // ---------------------------------------------------------------------
  //  The reader undoes the writer
  // ---------------------------------------------------------------------

  /** What unchaining gives from value k on: the checksum comes out 0. */
  function Sent(n1: seq<byte>, n2: seq<byte>, k: nat): byte
    requires |n1| == 256 && |n2| == 86
  {
    if k < 342 then Six(n1, n2, k) else 0
  }

  function Before(n1: seq<byte>, n2: seq<byte>, k: nat): byte
    requires |n1| == 256 && |n2| == 86
  {
    if k == 0 then 0 else Sent(n1, n2, k - 1)
  }

  lemma XorBack(a: byte, b: byte)
    ensures (a ^ b) ^ a == b && a ^ a == 0 && a ^ 0 == a
  {
  }

  lemma {:induction false} LinkUnlinks(n1: seq<byte>, n2: seq<byte>, k: nat)
    requires |n1| == 256 && |n2| == 86 && k < 343
    ensures Unlink(Link(n1, n2, k), Before(n1, n2, k)) == Sent(n1, n2, k)
  {
    XorBack(Before(n1, n2, k), Sent(n1, n2, k));
    hide Six;
  }

  /** One byte of the chain. */
  lemma {:induction false} UnchainOne(n1: seq<byte>, n2: seq<byte>, k: nat)
    requires |n1| == 256 && |n2| == 86 && SixBit(n1) && SixBit(n2) && k < 343
    ensures var v := Denibl(Gcr(n1, n2)[k]);
      v.Some? && Unlink(v.value, Before(n1, n2, k)) == Sent(n1, n2, k)
  {
    LinkSixBit(n1, n2, k);
    FindNiblFrom(Link(n1, n2, k), 0);
    LinkUnlinks(n1, n2, k);
    hide Nibl, Six, Link, Unlink, Sent, Before, SixBit, FindNibl;
  }

  /** Byte i of g, looked up and unchained, is v[i]. */
  predicate Unlinks(g: seq<byte>, v: seq<byte>, i: nat)
    requires i < |g| == |v|
  {
    Denibl(g[i]).Some? && Unlink(Denibl(g[i]).value, Former(v, i)) == v[i]
  }

  function Former(v: seq<byte>, i: nat): byte
    requires i <= |v|
  {
    if i == 0 then 0 else v[i - 1]
  }

  /** Unchaining byte after byte. */
  lemma {:induction false} UnchainAll(g: seq<byte>, v: seq<byte>, k: nat)
    requires |g| == |v| && k <= |g|
    requires forall i :: 0 <= i < |g| ==> Unlinks(g, v, i)
    ensures Unchain(g[k..], Former(v, k)) == Some(v[k..])
    decreases |g| - k
  {
    hide Denibl, Unlink;
    if k < |g| {
      UnchainAll(g, v, k + 1);
      var s := g[k..];
      assert s[0] == g[k] && s[1..] == g[k + 1..];
      assert Unlinks(g, v, k) && Former(v, k + 1) == v[k];
      assert Unchain(s[1..], v[k]) == Some(v[k + 1..]);
      UnchainStep(s, Former(v, k));
      assert v[k..] == [v[k]] + v[k + 1..];
    } else {
      assert g[k..] == [] && v[k..] == [];
    }
  }

  lemma {:induction false} UnchainStep(s: seq<byte>, prev: byte)
    requires s != [] && Denibl(s[0]).Some? && Unchain(s[1..], Unlink(Denibl(s[0]).value, prev)).Some?
    ensures var v := Unlink(Denibl(s[0]).value, prev); Unchain(s, prev) == Some([v] + Unchain(s[1..], v).value)
  {
    hide Denibl, Unlink;
  }

  lemma {:induction false} UnchainGcr(n1: seq<byte>, n2: seq<byte>, k: nat)
    requires |n1| == 256 && |n2| == 86 && SixBit(n1) && SixBit(n2) && k <= 343
    ensures var r := Unchain(Gcr(n1, n2)[k..], Before(n1, n2, k));
      r.Some? && forall i :: 0 <= i < 343 - k ==> r.value[i] == Sent(n1, n2, k + i)
  {
    var v := seq(343, i requires 0 <= i < 343 => Sent(n1, n2, i));
    forall i | 0 <= i < 343
      ensures Unlinks(Gcr(n1, n2), v, i)
    {
      UnchainOne(n1, n2, i);
    }
    hide Gcr, Denibl, Sent, SixBit, Unchain, Unlinks, Unlink;
    UnchainAll(Gcr(n1, n2), v, k);
  }

  lemma ReadDataField(s: Sector, rest: seq<byte>)
    requires |rest| >= 346
    requires SixBit(HighSix(s)) && SixBit(LowTwos(s))
    requires rest[..343] == Gcr(HighSix(s), LowTwos(s)) && rest[343..346] == [0xDE, 0xAA, 0xEB]
    ensures ReadData(rest) == Some(s)
  {
    var n1, n2 := HighSix(s), LowTwos(s);
    UnchainGcr(n1, n2, 0);
    assert Gcr(n1, n2)[0..] == Gcr(n1, n2);
    var v := Unchain(rest[..343], 0).value;
    assert forall i :: 0 <= i < 343 ==> v[i] == Sent(n1, n2, 0 + i);
    assert forall i :: 0 <= i < 256 ==> v[86..342][i] == v[86 + i] == n1[i];
    assert v[86..342] == n1;
    assert seq(86, x requires 0 <= x < 86 => v[85 - x]) == n2;
    RomReadsNibblized(s);
  }

  // ---------------------------------------------------------------------
  //  What can and cannot appear on the disk
  // ---------------------------------------------------------------------

  lemma SplitReadable(d: byte)
    ensures Readable(Odd(d)) && Readable(Even(d)) && Odd(d) != 0xD5 && Even(d) != 0xD5
  {
  }

  lemma MarksReadable()
    ensures Readable(0xFF) && Readable(0xD5) && Readable(0xAA) && Readable(0x96) && Readable(0xDE) && Readable(0xEB)
  {
  }

  lemma AddressFieldBytes(a: Address, i: nat)
    requires i < 16
    ensures Readable(AddressByte(a, i)) && (AddressByte(a, i) == 0xD5 <==> i == 2)
  {
    MarksReadable();
    SplitReadable(a.volume);
    SplitReadable(a.track);
    SplitReadable(a.sector);
    SplitReadable(Parity(a));
    hide Readable, Odd, Even, Parity;
  }

  /** 0xD5 occurs exactly twice in a sector, as the first mark of the address
      and of the data field, and every byte is one the head can follow. */
  lemma SectorStreamBytes(a: Address, s: Sector, i: nat)
    requires i < STREAM_SIZE
    ensures Readable(SectorStream(a, s)[i])
    ensures SectorStream(a, s)[i] == 0xD5 <==> i == 2 || i == 17
  {
    NibblizedSixBit(s);
    if i < 16 {
      AddressFieldBytes(a, i);
    } else if 20 <= i < 363 {
      LinkSixBit(HighSix(s), LowTwos(s), i - 20);
      NiblReadable(Link(HighSix(s), LowTwos(s), i - 20));
    }
  }

  /** The stream of a sector, part by part. */
  lemma {:induction false} StreamParts(a: Address, s: Sector)
    ensures SixBit(HighSix(s)) && SixBit(LowTwos(s))
    ensures var t := SectorStream(a, s);
      && t[2..5] == [0xD5, 0xAA, 0x96] && t[17..20] == [0xD5, 0xAA, 0xAD]
      && (forall j :: 5 <= j < 16 ==> t[j] == AddressByte(a, j))
      && t[20..363] == Gcr(HighSix(s), LowTwos(s)) && t[363..366] == [0xDE, 0xAA, 0xEB]
  {
    NibblizedSixBit(s);
    hide HighSix, LowTwos, Nibl, Link, SixBit;
  }

  /** Where the marks of a stream behind sync bytes are found. */
  lemma {:induction false} HuntsMarks(gap: seq<byte>, t: seq<byte>, rest: seq<byte>)
    requires 0xD5 !in gap && |t| == STREAM_SIZE
    requires forall i :: 0 <= i < STREAM_SIZE ==> (t[i] == 0xD5 <==> i == 2 || i == 17)
    ensures var w, n := gap + t + rest, |gap|; Hunt(w, 0) == n + 2 && Hunt(w, n + 16) == n + 17
  {
    var w, n := gap + t + rest, |gap|;
    assert forall i :: 0 <= i < STREAM_SIZE ==> w[n + i] == t[i];
    assert w[n + 2] == t[2] && w[n + 17] == t[17] && w[n + 16] == t[16];
    forall j | 0 <= j < n + 2 ensures w[j] != 0xD5 {
      if j < n { assert w[j] == gap[j]; assert gap[j] in gap; } else { assert w[n + (j - n)] == t[j - n]; }
    }
  }

  lemma Slice(gap: seq<byte>, t: seq<byte>, rest: seq<byte>, i: nat, j: nat)
    requires i <= j <= |t|
    ensures var w, n := gap + t + rest, |gap|;
      |w| >= n + |t| && w[n + i..n + j] == t[i..j] && w[n + i..][..j - i] == t[i..j]
  {
  }

  /** A stream whose parts are where they should be. */
  lemma {:induction false} ReadsParts(w: seq<byte>, i: nat, a: Address, s: Sector)
    requires Hunt(w, 0) == i && i + 364 <= |w| && Hunt(w, i + 14) == i + 15
    requires w[i..i + 3] == [0xD5, 0xAA, 0x96] && w[i + 15..i + 18] == [0xD5, 0xAA, 0xAD]
    requires ReadAddress(w[i + 3..]) == Some(a) && ReadData(w[i + 18..]) == Some(s)
    ensures ReadSector(w) == Some(Found(a, s))
  {
    hide Hunt, ReadAddress, ReadData;
  }

  lemma {:induction false} AddressPart(a: Address, s: Sector, u: seq<byte>)
    requires |u| >= 11 && u[..11] == SectorStream(a, s)[5..16]
    ensures ReadAddress(u) == Some(a)
  {
    StreamParts(a, s);
    hide SectorStream, AddressByte, ReadAddress;
    forall i | 0 <= i < 11 ensures u[i] == AddressByte(a, 5 + i) {
      assert u[i] == u[..11][i] == SectorStream(a, s)[5..16][i] == SectorStream(a, s)[5 + i];
    }
    ReadAddressField(a, u);
  }

  lemma {:induction false} DataPart(a: Address, s: Sector, v: seq<byte>)
    requires |v| >= 346 && v[..346] == SectorStream(a, s)[20..366]
    ensures ReadData(v) == Some(s)
  {
    StreamParts(a, s);
    hide SectorStream, ReadData, Gcr, HighSix, LowTwos, SixBit;
    var t := SectorStream(a, s);
    assert v[..343] == v[..346][..343] == t[20..363];
    assert v[343..346] == v[..346][343..] == t[363..366];
    ReadDataField(s, v);
  }

  /** Whatever sync bytes come first, the reader recovers volume, track,
      physical sector and all 256 data bytes of the sector that follows. */
  lemma {:induction false} ReadSectorStream(gap: seq<byte>, a: Address, s: Sector, rest: seq<byte>)
    requires 0xD5 !in gap
    ensures ReadSector(gap + SectorStream(a, s) + rest) == Some(Found(a, s))
  {
    var t, n := SectorStream(a, s), |gap|;
    var w := gap + t + rest;
    forall i | 0 <= i < STREAM_SIZE ensures t[i] == 0xD5 <==> i == 2 || i == 17 {
      SectorStreamBytes(a, s, i);
    }
    HuntsMarks(gap, t, rest);
    StreamParts(a, s);
    hide *;
    Slice(gap, t, rest, 2, 5);
    Slice(gap, t, rest, 5, 16);
    Slice(gap, t, rest, 17, 20);
    Slice(gap, t, rest, 20, 366);
    AddressPart(a, s, w[n + 5..]);
    DataPart(a, s, w[n + 20..]);
    ReadsParts(w, n + 2, a, s);
  }

  lemma ReadAddressField(a: Address, rest: seq<byte>)
    requires |rest| >= 11 && forall i :: 0 <= i < 11 ==> rest[i] == AddressByte(a, 5 + i)
    ensures ReadAddress(rest) == Some(a)
  {
    MergeSplit(a.volume);
    MergeSplit(a.track);
    MergeSplit(a.sector);
    MergeSplit(Parity(a));
    assert rest[8..11] == [AddressByte(a, 13), AddressByte(a, 14), AddressByte(a, 15)];
  }
}
