/**
 The boot sector and the directory entry field by field, as sw/include/fsfat.h
 and section "Boot Sector and BPB" of the Microsoft FAT specification have
 them; and that the program reads these fields.
*/
module FatLayout {
  import opened Bytes
  import opened Fat12
  import opened FatRoot
  import opened FatOpen

  type Number16 = n: nat | n < 0x1_0000

  /** Low byte first. */
  function Two(n: Number16): (r: seq<Octet>)
    ensures |r| == 2
  {
    [n % 256, n / 256]
  }

  datatype BootSector = BootSector(
    jump: seq<Octet>, maker: seq<Octet>, bytesPerSector: Number16, sectorsPerCluster: Octet, reserved: Number16,
    tables: Octet, rootEntries: Number16, sectors: Number16, media: Octet, sectorsPerTable: Number16,
    others: seq<Octet>, signature: Number16)

  predicate IsBoot(b: BootSector) {
    |b.jump| == 3 && |b.maker| == 8 && |b.others| == 486
  }

  function BootBytes(b: BootSector): seq<Octet> {
    b.jump + b.maker + Two(b.bytesPerSector) + [b.sectorsPerCluster] + Two(b.reserved) + [b.tables] + Two(b.rootEntries)
    + Two(b.sectors) + [b.media] + Two(b.sectorsPerTable) + b.others + Two(b.signature)
  }

  /** The bytes are in memory from an address on. */
  ghost predicate Stored(mem: Memory, at: int, bytes: seq<Octet>) {
    forall i :: 0 <= i < |bytes| ==> mem(at + i) == bytes[i]
  }

  lemma StoredAt(mem: Memory, at: int, bytes: seq<Octet>, i: nat)
    requires Stored(mem, at, bytes) && i < |bytes|
    ensures mem(at + i) == bytes[i]
  {
  }

  lemma TwoIsNumber(n: Number16)
    ensures var high: int := Two(n)[1]; high * 256 + Two(n)[0] == n
  {
  }

  lemma {:induction false} BootFields(mem: Memory, v: int, b: BootSector)
    requires IsBoot(b) && Stored(mem, v, BootBytes(b))
    ensures mem(v) == b.jump[0] && mem(v + 2) == b.jump[2] && mem(v + 13) == b.sectorsPerCluster && mem(v + 16) == b.tables
    ensures Align16(mem, v + 11) == b.bytesPerSector && Align16(mem, v + 14) == b.reserved
    ensures Align16(mem, v + 17) == b.rootEntries && Align16(mem, v + 19) == b.sectors
    ensures Align16(mem, v + 22) == b.sectorsPerTable && Align16(mem, v + 510) == b.signature
  {
    var s := BootBytes(b);
    StoredAt(mem, v, s, 0);
    StoredAt(mem, v, s, 2);
    StoredAt(mem, v, s, 11);
    StoredAt(mem, v, s, 12);
    StoredAt(mem, v, s, 13);
    StoredAt(mem, v, s, 14);
    StoredAt(mem, v, s, 15);
    StoredAt(mem, v, s, 16);
    StoredAt(mem, v, s, 17);
    StoredAt(mem, v, s, 18);
    StoredAt(mem, v, s, 19);
    StoredAt(mem, v, s, 20);
    StoredAt(mem, v, s, 22);
    StoredAt(mem, v, s, 23);
    StoredAt(mem, v, s, 510);
    StoredAt(mem, v, s, 511);
    TwoIsNumber(b.bytesPerSector);
    TwoIsNumber(b.reserved);
    TwoIsNumber(b.rootEntries);
    TwoIsNumber(b.sectors);
    TwoIsNumber(b.sectorsPerTable);
    TwoIsNumber(b.signature);
    hide Stored, Two;
    BootOffsets(b);
  }

  lemma {:induction false} BootOffsets(b: BootSector)
    requires IsBoot(b)
    ensures var s := BootBytes(b);
      && |s| == 512 && s[0] == b.jump[0] && s[2] == b.jump[2]
      && s[11] == Two(b.bytesPerSector)[0] && s[12] == Two(b.bytesPerSector)[1] && s[13] == b.sectorsPerCluster
      && s[14] == Two(b.reserved)[0] && s[15] == Two(b.reserved)[1] && s[16] == b.tables
      && s[17] == Two(b.rootEntries)[0] && s[18] == Two(b.rootEntries)[1]
      && s[19] == Two(b.sectors)[0] && s[20] == Two(b.sectors)[1]
      && s[22] == Two(b.sectorsPerTable)[0] && s[23] == Two(b.sectorsPerTable)[1]
      && s[510] == Two(b.signature)[0] && s[511] == Two(b.signature)[1]
  {
  }

  /** Mounting accepts a boot sector exactly with the signature, a jump, one
      sector a cluster and sectors of 4096 bytes; and places what it describes:
      the table behind the reserved sectors, the root directory behind one
      sector and all tables, and cluster 2 behind the root directory. If this
      fills whole sectors, every sector left is a cluster. */
  lemma {:induction false} MountReadsFields(mem: Memory, v: int, b: BootSector)
    requires IsBoot(b) && Stored(mem, v, BootBytes(b))
    ensures Mount(mem, v).Some? <==>
      && b.signature == 0xAA55 && b.sectorsPerCluster == 1 && b.bytesPerSector == 4096
      && ((b.jump[0] == 0xEB && b.jump[2] == 0x90) || b.jump[0] == 0xE9)
    ensures Mount(mem, v).Some? ==>
      var fs := Mount(mem, v).value;
      && fs.volume == v && fs.fat == v + b.reserved * 4096
      && fs.rootdir == v + 4096 + b.tables * b.sectorsPerTable * 4096
      && fs.nDirent == b.rootEntries && fs.ino + 2 * 4096 == fs.rootdir + b.rootEntries * 32
      && (b.rootEntries % 128 == 0 ==>
          Signed(fs.nFatent) - 2 == b.sectors - 1 - b.tables * b.sectorsPerTable - b.rootEntries / 128)
  {
    BootFields(mem, v, b);
    hide BootBytes, Stored, Align16;
    var tables := b.tables * b.sectorsPerTable;
    Distribute(tables);
    if Mount(mem, v).Some? {
      FewSectors(mem, v);
      if b.rootEntries % 128 == 0 {
        WholeSectors(tables, b.rootEntries, Mount(mem, v).value.ino - v);
      }
    }
    hide Trunc, Signed;
  }

  lemma {:induction false} WholeSectors(tables: nat, entries: nat, used: int)
    requires entries % 128 == 0 && used == 4096 + tables * 4096 + entries * 32 - 2 * 4096
    ensures Trunc(used, SECTOR) == tables + entries / 128 - 1
  {
    var n := tables + entries / 128 - 1;
    assert used == n * SECTOR;
    Multiple(n);
  }

  lemma Multiple(n: int)
    requires n >= -1
    ensures Trunc(n * SECTOR, SECTOR) == n
  {
  }

  lemma Distribute(n: int)
    ensures (1 + n) * 4096 == 4096 + n * 4096
  {
  }

  // ---------------------------------------------------------------------
  //  Directory entries
  // ---------------------------------------------------------------------

  datatype Attributes = Attributes(readOnly: bool, hidden: bool, system: bool, volume: bool, directory: bool, archive: bool)

  function Flag(b: bool, value: nat): nat { if b then value else 0 }

  function AttributeByte(a: Attributes): (o: Octet) {
    Flag(a.readOnly, 0x01) + Flag(a.hidden, 0x02) + Flag(a.system, 0x04) + Flag(a.volume, 0x08)
    + Flag(a.directory, 0x10) + Flag(a.archive, 0x20)
  }

  /** `others` has case flags, dates and permissions. */
  datatype DirEntry = DirEntry(name: seq<Octet>, attributes: Attributes, others: seq<Octet>, first: Number16, size: seq<Octet>)

  predicate IsEntry(e: DirEntry) {
    |e.name| == 11 && |e.others| == 14 && |e.size| == 4
  }

  function EntryBytes(e: DirEntry): seq<Octet> {
    e.name + [AttributeByte(e.attributes)] + e.others + Two(e.first) + e.size
  }

  lemma {:induction false} FlagsApart(a: Attributes)
    ensures AttributeByte(a) / 8 % 2 == 1 <==> a.volume
    ensures AttributeByte(a) / 16 % 2 == 1 <==> a.directory
  {
    var low := Flag(a.readOnly, 1) + Flag(a.hidden, 2) + Flag(a.system, 4);
    var v, d, h := Flag(a.volume, 1), Flag(a.directory, 1), Flag(a.archive, 1);
    assert AttributeByte(a) == low + 8 * (v + 2 * (d + 2 * h));
    assert AttributeByte(a) / 8 == v + 2 * (d + 2 * h);
    assert AttributeByte(a) / 16 == d + 2 * h;
  }

  /** The program reads name, kind and first cluster of an entry. */
  lemma {:induction false} EntryFields(mem: Memory, p: int, e: DirEntry)
    requires IsEntry(e) && Stored(mem, p, EntryBytes(e))
    ensures |EntryBytes(e)| == DIRENT
    ensures NameOf(mem, p) == e.name
    ensures IsLabel(mem, p) <==> e.attributes.volume
    ensures IsDirectory(mem, p) <==> e.attributes.directory
    ensures FirstCluster(mem, p) == e.first
  {
    var s := EntryBytes(e);
    EntryOffsets(e);
    FlagsApart(e.attributes);
    StoredAt(mem, p, s, 11);
    StoredAt(mem, p, s, 26);
    StoredAt(mem, p, s, 27);
    TwoIsNumber(e.first);
    hide AttributeByte, Two, EntryBytes;
    forall i | 0 <= i < 11 ensures NameOf(mem, p)[i] == e.name[i] {
      NameAt(mem, p, i);
      StoredAt(mem, p, s, i);
    }
  }

  lemma {:induction false} EntryOffsets(e: DirEntry)
    requires IsEntry(e)
    ensures var s := EntryBytes(e);
      && |s| == 32 && s[..11] == e.name && s[11] == AttributeByte(e.attributes)
      && s[26] == Two(e.first)[0] && s[27] == Two(e.first)[1]
  {
    hide AttributeByte, Two;
  }
}
