/**
 The memory-mapped FAT12 volume of sw/src/fat.c: mounting, the packed
 allocation table and where clusters lie. Addresses are plain integers.
*/
module Fat12 {
  import opened Bytes

  type Memory = int -> Octet

  /** Sector, cluster and buffer size: one erase sector of the flash. */
  const SECTOR := 4096

  const DIRENT := 32

  /** `g_filesystem`. `nFatent` is a 32-bit unsigned number. */
  datatype Filesystem = Filesystem(volume: int, fat: int, rootdir: int, ino: int, nDirent: nat, nFatent: nat)

  function Align16(mem: Memory, p: int): nat { mem(p + 1) * 256 + mem(p) }

  /** Division of the C language. */
  function Trunc(a: int, b: nat): int
    requires b > 0
  {
    if a >= 0 then a / b else -(-a / b)
  }

  /** The cast from uint32_t to int. */
  function Signed(x: nat): int { if x < 0x8000_0000 then x else x - 0x1_0000_0000 }

  // ---------------------------------------------------------------------
  //  Boot sector
  // ---------------------------------------------------------------------

  function Reserved(mem: Memory, v: int): nat { Align16(mem, v + 14) }
  function FatSectors(mem: Memory, v: int): nat { mem(v + 16) * Align16(mem, v + 22) }
  function RootEntries(mem: Memory, v: int): nat { Align16(mem, v + 17) }
  function Sectors(mem: Memory, v: int): nat { Align16(mem, v + 19) }

  predicate IsVolume(mem: Memory, v: int) {
    && Align16(mem, v + 510) == 0xAA55
    && ((mem(v) == 0xEB && mem(v + 2) == 0x90) || mem(v) == 0xE9)
    && mem(v + 13) == 1
    && Align16(mem, v + 11) == SECTOR
  }

  function Mount(mem: Memory, v: int): Option<Filesystem> {
    if !IsVolume(mem, v) then None
    else
      var rootdir := v + (1 + FatSectors(mem, v)) * SECTOR;
      var ino := rootdir + RootEntries(mem, v) * DIRENT - 2 * SECTOR;
      Some(Filesystem(v, v + Reserved(mem, v) * SECTOR, rootdir, ino, RootEntries(mem, v),
                      (Sectors(mem, v) - Trunc(ino - v, SECTOR)) % 0x1_0000_0000))
  }

  // ---------------------------------------------------------------------
  //  Clusters
  // ---------------------------------------------------------------------

  /** None is the null pointer. */
  function LookupFat(fs: Filesystem, cluster: int): Option<int> {
    if cluster < 2 || cluster >= Signed(fs.nFatent) then None else Some(fs.ino + cluster * SECTOR)
  }

  function ClusterNumber(fs: Filesystem, addr: int): int {
    var cluster := Trunc(addr - fs.ino, SECTOR);
    if cluster < 2 || cluster >= Signed(fs.nFatent) then -1 else cluster
  }

  /** The number in two neighbouring bytes of the table. */
  function Entry(cluster: nat, low: Octet, high: Octet): nat {
    var pair := low + high * 256;
    if cluster % 2 == 1 then pair / 16 else pair % 0x1000
  }

  /** -1 when the cluster is not one of the volume. */
  function NextCluster(fs: Filesystem, mem: Memory, cluster: nat): int {
    if cluster < 2 || cluster >= fs.nFatent then -1
    else
      var pair := fs.fat + (cluster + cluster / 2);
      Entry(cluster, mem(pair), mem(pair + 1))
  }

  // ---------------------------------------------------------------------
  //  The packed table
  // ---------------------------------------------------------------------

  type Entry12 = x: nat | x < 0x1000

  /** Two entries in three bytes: section "FAT Data Structure" of the
      Microsoft FAT specification. */
  function PackPair(a: Entry12, b: Entry12): seq<Octet> {
    [a % 256, b % 16 * 16 + a / 256, b / 16]
  }

  function Packed(es: seq<Entry12>): seq<Octet> {
    if es == [] then []
    else if |es| == 1 then PackPair(es[0], 0)
    else PackPair(es[0], es[1]) + Packed(es[2..])
  }

  lemma {:induction false} EntryOfPair(a: Entry12, b: Entry12)
    ensures var t := PackPair(a, b); Entry(0, t[0], t[1]) == a && Entry(1, t[1], t[2]) == b
  {
    assert a % 256 + (b % 16 * 16 + a / 256) * 256 == b % 16 * 0x1000 + a;
    assert b % 16 * 16 + a / 256 + b / 16 * 256 == b * 16 + a / 256;
  }

  lemma {:induction false} PackedEntry(es: seq<Entry12>, c: nat)
    requires c < |es|
    ensures var k := c + c / 2;
      k + 1 < |Packed(es)| && Entry(c, Packed(es)[k], Packed(es)[k + 1]) == es[c]
    decreases |es|
  {
    if |es| == 1 {
      EntryOfPair(es[0], 0);
    } else if c < 2 {
      EntryOfPair(es[0], es[1]);
    } else {
      PackedEntry(es[2..], c - 2);
      assert c + c / 2 == 3 + (c - 2 + (c - 2) / 2);
    }
  }

  /** The table in memory is `es`, packed. */
  ghost predicate Holds(fs: Filesystem, mem: Memory, es: seq<Entry12>) {
    forall i :: 0 <= i < |Packed(es)| ==> mem(fs.fat + i) == Packed(es)[i]
  }

  /** Every entry is read back, and anything outside the volume is refused. */
  lemma {:induction false} NextClusterIsTheEntry(fs: Filesystem, mem: Memory, es: seq<Entry12>, c: nat)
    requires Holds(fs, mem, es) && fs.nFatent <= |es|
    ensures NextCluster(fs, mem, c) == if 2 <= c < fs.nFatent then es[c] else -1
  {
    if 2 <= c < fs.nFatent {
      PackedEntry(es, c);
      var k := c + c / 2;
      assert mem(fs.fat + k) == Packed(es)[k];
      assert mem(fs.fat + (k + 1)) == Packed(es)[k + 1];
    }
  }

  // ---------------------------------------------------------------------
  //  Geometry
  // ---------------------------------------------------------------------

  /** An address belongs to a cluster exactly when it lies in its sector. */
  lemma {:induction false} ClusterNumberInvertsLookup(fs: Filesystem, addr: int, c: nat)
    ensures ClusterNumber(fs, addr) == c
      <==> LookupFat(fs, c).Some? && LookupFat(fs, c).value <= addr < LookupFat(fs, c).value + SECTOR
  {
    var offset := addr - fs.ino;
    if offset >= 0 {
      assert offset / SECTOR == c <==> c * SECTOR <= offset < c * SECTOR + SECTOR;
    }
  }

  lemma {:induction false} ClustersAreDisjoint(fs: Filesystem, c: nat, d: nat)
    requires LookupFat(fs, c).Some? && LookupFat(fs, d).Some? && c < d
    ensures LookupFat(fs, c).value + SECTOR <= LookupFat(fs, d).value
  {
    assert (c + 1) * SECTOR <= d * SECTOR;
  }

  ghost predicate InsideVolume(fs: Filesystem, mem: Memory, c: nat)
    requires LookupFat(fs, c).Some?
  {
    LookupFat(fs, c).value + SECTOR <= fs.volume + Sectors(mem, fs.volume) * SECTOR
  }

  /** Clusters start where the root directory ends, after all metadata, and
      they all end inside the volume if and only if the root directory fills
      whole sectors, or there are no clusters, or (there is no table and the
      directory is smaller than a sector) the rounding happens to be towards
      the volume. */
  lemma {:induction false} DataRegion(mem: Memory, v: int)
    requires Mount(mem, v).Some?
    ensures var fs := Mount(mem, v).value;
      && fs.volume + SECTOR <= fs.rootdir <= fs.rootdir + fs.nDirent * DIRENT == fs.ino + 2 * SECTOR
      && (forall c: nat :: LookupFat(fs, c).Some? ==> LookupFat(fs, c).value >= fs.rootdir + fs.nDirent * DIRENT)
      && ((forall c: nat :: LookupFat(fs, c).Some? ==> InsideVolume(fs, mem, c))
          <==> fs.nDirent % 128 == 0 || Signed(fs.nFatent) <= 2 || (FatSectors(mem, v) == 0 && fs.nDirent < 128))
  {
    var fs := Mount(mem, v).value;
    var n := Signed(fs.nFatent);
    LastCluster(mem, v);
    if n > 2 {
      assert LookupFat(fs, n - 1).Some?;
      forall c: nat | LookupFat(fs, c).Some?
        ensures LookupFat(fs, c).value <= LookupFat(fs, n - 1).value
      {
        assert c * SECTOR <= (n - 1) * SECTOR;
      }
    }
  }

  lemma {:induction false} LastCluster(mem: Memory, v: int)
    requires Mount(mem, v).Some?
    ensures var fs := Mount(mem, v).value; var n := Signed(fs.nFatent);
      n > 2 ==> (InsideVolume(fs, mem, n - 1) <==> fs.nDirent % 128 == 0 || (FatSectors(mem, v) == 0 && fs.nDirent < 128))
  {
    var fs := Mount(mem, v).value;
    var used := fs.ino - v;
    FewSectors(mem, v);
    Truncated(used);
    UsedSectors(mem, v);
    hide Trunc, FatSectors, Sectors, Mount;
    var n := Signed(fs.nFatent);
    if n > 2 {
      assert InsideVolume(fs, mem, n - 1) <==> used + n * SECTOR <= Sectors(mem, v) * SECTOR;
    }
  }

  lemma {:induction false} Truncated(used: int)
    ensures used <= Trunc(used, SECTOR) * SECTOR <==> used < 0 || used % SECTOR == 0
  {
    if used >= 0 {
      assert used == used / SECTOR * SECTOR + used % SECTOR;
    } else {
      assert -used == -used / SECTOR * SECTOR + -used % SECTOR;
    }
  }

  /** What lies before cluster 0, less or more. */
  lemma {:induction false} UsedSectors(mem: Memory, v: int)
    requires Mount(mem, v).Some?
    ensures var fs := Mount(mem, v).value; var used := fs.ino - v;
      && fs.volume == v
      && (used < 0 <==> FatSectors(mem, v) == 0 && fs.nDirent < 128)
      && (used % SECTOR == 0 <==> fs.nDirent % 128 == 0)
  {
    var fs := Mount(mem, v).value;
    hide FatSectors, RootEntries, Sectors, Reserved, IsVolume, Trunc;
    BeforeClusters(FatSectors(mem, v), fs.nDirent, fs.ino - v);
  }

  lemma {:induction false} BeforeClusters(fats: nat, entries: nat, used: int)
    requires used + SECTOR == fats * SECTOR + entries * DIRENT
    ensures used < 0 <==> fats == 0 && entries < 128
    ensures used % SECTOR == 0 <==> entries % 128 == 0
  {
    var q, r := entries / 128, entries % 128;
    assert entries == q * 128 + r;
    assert used == (fats - 1 + q) * SECTOR + r * DIRENT;
    InSector(fats - 1 + q, r * DIRENT);
  }

  lemma {:induction false} InSector(k: int, r: nat)
    requires r < SECTOR
    ensures (k * SECTOR + r) % SECTOR == r
  {
  }

  /** Too small a size field cannot look like many clusters. */
  lemma {:induction false} FewSectors(mem: Memory, v: int)
    requires Mount(mem, v).Some?
    ensures var fs := Mount(mem, v).value;
      Signed(fs.nFatent) == Sectors(mem, v) - Trunc(fs.ino - v, SECTOR)
  {
    var fs := Mount(mem, v).value;
    var k := Sectors(mem, v) - Trunc(fs.ino - v, SECTOR);
    assert FatSectors(mem, v) <= 255 * 65535 by {
      Product(mem(v + 16), Align16(mem, v + 22));
    }
    SmallQuotient(FatSectors(mem, v), fs.nDirent, fs.ino - v);
    hide FatSectors, Trunc, IsVolume, Reserved, Sectors, RootEntries, Signed;
    assert 0 <= Sectors(mem, v) < 0x1_0000 by { SectorsAreFew(mem, v); }
    SignedSmall(k);
  }

  lemma {:induction false} SectorsAreFew(mem: Memory, v: int)
    ensures Sectors(mem, v) < 0x1_0000
  {
  }

  lemma {:induction false} SignedSmall(k: int)
    requires -0x8000_0000 <= k < 0x8000_0000
    ensures Signed(k % 0x1_0000_0000) == k
  {
  }

  lemma {:induction false} SmallQuotient(fats: nat, entries: nat, used: int)
    requires fats <= 255 * 65535 && entries < 65536 && used + SECTOR == fats * SECTOR + entries * DIRENT
    ensures -1 <= Trunc(used, SECTOR) <= 20_000_000
  {
    assert -SECTOR <= used <= 20_000_000 * SECTOR;
    QuotientBetween(used);
  }

  lemma {:induction false} QuotientBetween(used: int)
    requires -SECTOR <= used <= 20_000_000 * SECTOR
    ensures -1 <= Trunc(used, SECTOR) <= 20_000_000
  {
  }

  lemma {:induction false} Scaled(a: nat, c: nat, b: nat)
    requires a <= c
    ensures a * b <= c * b
  {
    assert c * b - a * b == (c - a) * b;
  }

  lemma {:induction false} Product(a: nat, b: nat)
    requires a <= 255 && b <= 65535
    ensures a * b <= 255 * 65535
  {
    Scaled(a, 255, b);
  }

  /** The table lies between the boot sector and the root directory if and
      only if one sector is reserved. */
  lemma {:induction false} TableIsClear(mem: Memory, v: int)
    requires Mount(mem, v).Some?
    ensures var fs := Mount(mem, v).value;
      fs.volume + SECTOR <= fs.fat && fs.fat + FatSectors(mem, v) * SECTOR <= fs.rootdir
      <==> Reserved(mem, v) == 1
  {
  }
}
