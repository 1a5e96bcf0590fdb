/** Opening a file by its path, and what can then be read from it. */
module FatOpen {
  import opened Bytes
  import opened Fat12
  import opened FatFile
  import opened FatChain
  import opened FatNames
  import opened FatRoot

  const OPEN_MAX := 6

  datatype Refusal = ENOENT | EISDIR | ENFILE

  datatype Opening = Opened(no: nat) | Refused(errno: Refusal)

  // ---------------------------------------------------------------------
  //  Entries and paths
  // ---------------------------------------------------------------------

  function FirstCluster(mem: Memory, p: int): nat { Align16(mem, p + 26) }

  /** e_directory. */
  predicate IsDirectory(mem: Memory, p: int) {
    mem(p + 11) / 16 % 2 == 1
  }

  /** A path without the separators it begins with. */
  function Bare(path: seq<Octet>): (rest: seq<Octet>)
    ensures |rest| <= |path|
  {
    if path != [] && Separates(path[0]) then Bare(path[1..]) else path
  }

  predicate PathEnds(path: seq<Octet>) {
    path == [] || path[0] == NUL
  }

  /** No separator up to the end. */
  predicate OneName(path: seq<Octet>) {
    PathEnds(path) || (!Separates(path[0]) && OneName(path[1..]))
  }

  /** `finddirent` for a path of at most one name. The root has no entry; the
      volume's boot sector stands for it. */
  function Find(fs: Filesystem, mem: Memory, path: seq<Octet>): Found {
    if Bare(path) != path && PathEnds(Bare(path)) then Entry(fs.volume)
    else Search(fs, mem, Munged(NOTHING, Bare(path)))
  }

  class FileTable {
    /** `_file`. The first three places are those of the console. */
    const file: array<File>

    ghost predicate Valid()
      reads this, file
    {
      file.Length == OPEN_MAX && forall i, j :: 0 <= i < j < file.Length ==> file[i] != file[j]
    }

    constructor ()
      ensures Valid() && fresh(file) && forall i :: 0 <= i < OPEN_MAX ==> fresh(file[i]) && !file[i].flash
    {
      var a := new File();
      var b := new File();
      var c := new File();
      var d := new File();
      var e := new File();
      var f := new File();
      file := new File[OPEN_MAX][a, b, c, d, e, f];
    }

    method SkipSeparators(path: seq<Octet>) returns (k: nat, root: bool)
      ensures k <= |path| && path[k..] == Bare(path)
      ensures root <==> Bare(path) != path && PathEnds(Bare(path))
    {
      k, root := 0, false;
      assert path[0..] == path;
      while k < |path| && Separates(path[k])
        invariant 0 <= k <= |path| && Bare(path[k..]) == Bare(path) && !root
        invariant k > 0 ==> !PathEnds(path[k..])
      {
        assert path[k..][1..] == path[k + 1..];
        k := k + 1;
        if k == |path| || path[k] == NUL {
          return k, true;
        }
      }
    }

    /** `fopen`. Why the file is not opened, in the order of the tests; or the
        first free place, with the file at the start of its first cluster.
        All other places stay as they are. */
    method Fopen(fs: Filesystem, mem: Memory, path: seq<Octet>) returns (r: Opening)
      requires Valid() && HasRoot(fs) && OneName(Bare(path))
      modifies set k | 0 <= k < file.Length :: file[k]
      ensures Valid()
      ensures var found := Find(fs, mem, path);
        match r
        case Opened(no) =>
          && found.Entry? && !IsDirectory(mem, found.addr) && !IsLabel(mem, found.addr)
          && 3 <= no < OPEN_MAX && !old(file[no].flash) && (forall k :: 3 <= k < no ==> old(file[k].flash))
          && file[no].flash && file[no].Abs() == Open(fs, FirstCluster(mem, found.addr))
        case Refused(ENOENT) => !found.Entry?
        case Refused(EISDIR) => found.Entry? && (IsDirectory(mem, found.addr) || IsLabel(mem, found.addr))
        case Refused(ENFILE) =>
          && found.Entry? && !IsDirectory(mem, found.addr) && !IsLabel(mem, found.addr)
          && forall k :: 3 <= k < OPEN_MAX ==> old(file[k].flash)
      ensures forall k :: 0 <= k < OPEN_MAX && (r.Refused? || k != r.no) ==>
        file[k].flash == old(file[k].flash) && file[k].Abs() == old(file[k].Abs())
    {
      hide Search, Munged, IsDirectory, IsLabel, Open;
      var k, root := SkipSeparators(path);
      var found := Entry(fs.volume);
      if !root {
        var filename := Munge(path[k..]);
        var dir := new Dir(fs);
        found := dir.ScanDir(fs, mem, filename[..11]);
      }
      if !found.Entry? {
        return Refused(ENOENT);
      }
      if IsDirectory(mem, found.addr) || IsLabel(mem, found.addr) {
        return Refused(EISDIR);
      }
      var no := 3;
      while no < OPEN_MAX
        invariant 3 <= no <= OPEN_MAX
        invariant forall i :: 3 <= i < no ==> file[i].flash
      {
        if !file[no].flash {
          break;
        }
        no := no + 1;
      }
      if no >= OPEN_MAX {
        return Refused(ENFILE);
      }
      file[no].Attach(fs, FirstCluster(mem, found.addr));
      r := Opened(no);
    }
  }

  // ---------------------------------------------------------------------
  //  From a printed name to the bytes of the file
  // ---------------------------------------------------------------------

  lemma {:induction false} BareOf(slashes: seq<Octet>, rest: seq<Octet>)
    requires forall i :: 0 <= i < |slashes| ==> Separates(slashes[i])
    requires rest != [] && !Separates(rest[0])
    ensures Bare(slashes + rest) == rest
  {
    if slashes == [] {
      assert slashes + rest == rest;
    } else {
      assert (slashes + rest)[1..] == slashes[1..] + rest;
      BareOf(slashes[1..], rest);
    }
  }

  lemma {:induction false} NoSeparators(path: seq<Octet>)
    requires forall i :: 0 <= i < |path| ==> !Separates(path[i])
    ensures OneName(path)
  {
    if path != [] {
      NoSeparators(path[1..]);
    }
  }

  lemma {:induction false} PrintedIsOneName(name: seq<Octet>, typed: seq<Octet>)
    requires |name| == 11 && AllPlain(name) && SameText(typed, Printed(name))
    ensures typed != [] && !Separates(typed[0]) && !PathEnds(typed) && OneName(typed)
  {
    var base := UpToSpace(name[..8]);
    Padded(name[..8]);
    assert forall i :: 0 <= i < |base| ==> base[i] == name[..8][i] == name[i];
    assert forall i :: 8 <= i < 11 ==> name[8..][i - 8] == name[i];
    forall i | 0 <= i < |typed| ensures !Separates(typed[i]) && typed[i] != NUL {
      assert SameLetter(typed[i], Printed(name)[i]);
    }
    NoSeparators(typed);
  }

  /** A name as the catalog prints it, typed in any mixture of cases after any
      number of separators, finds its entry, if the name is plain and solid and
      no other listed file or directory has it. Reading a file opened there
      gives, for every sequence of sizes, the clusters of the entry's chain from
      their start. */
  lemma {:induction false} PrintedNameReads(fs: Filesystem, mem: Memory, k: nat, slashes: seq<Octet>, typed: seq<Octet>,
                                            cs: seq<nat>, sizes: seq<nat>)
    requires k < Listed(fs, mem, 0) && !IsLabel(mem, EntryAt(fs, k))
    requires STAR !in NameOf(mem, EntryAt(fs, k)) && SameText(typed, Printed(NameOf(mem, EntryAt(fs, k))))
    requires AllPlain(NameOf(mem, EntryAt(fs, k))) && SolidBase(NameOf(mem, EntryAt(fs, k)))
    requires forall i: nat :: SameEntryName(fs, mem, i, k) ==> i == k
    requires Path(fs, mem, cs) && Ends(fs, Next(fs, mem, cs))
    requires cs[0] == FirstCluster(mem, EntryAt(fs, k)) < 0x8000
    requires forall i :: 0 <= i < |slashes| ==> Separates(slashes[i])
    ensures var path := slashes + typed;
      var found := Find(fs, mem, path);
      var total := |cs| * SECTOR;
      && OneName(Bare(path)) && found == Entry(EntryAt(fs, k))
      && |Contents(fs, mem, cs)| == total
      && Reads(fs, mem, Open(fs, FirstCluster(mem, found.addr)), sizes)
        == (true, Contents(fs, mem, cs)[..if Sum(sizes) <= total then Sum(sizes) else total])
  {
    hide NameOf, Printed, Munged, Search, Listed, IsLabel, AllPlain, SolidBase, Contents, Reads, Path, Next, Ends;
    PrintedIsOneName(NameOf(mem, EntryAt(fs, k)), typed);
    BareOf(slashes, typed);
    PrintedNameFindsEntry(fs, mem, k, typed);
    ReadsAreAPrefix(fs, mem, cs, sizes);
  }

  /** On every mounted volume a path of separators opens the root directory as
      a file: in the boot sector the byte of the attributes is the lower one of
      the sector size, 0, so that the number of heads is the first cluster. */
  lemma {:induction false} RootOpensAsFile(mem: Memory, v: int, slashes: seq<Octet>)
    requires Mount(mem, v).Some? && slashes != []
    requires forall i :: 0 <= i < |slashes| ==> Separates(slashes[i])
    ensures var fs := Mount(mem, v).value;
      && OneName(Bare(slashes)) && Find(fs, mem, slashes) == Entry(v)
      && !IsDirectory(mem, v) && !IsLabel(mem, v)
  {
    BareNothing(slashes);
    MountedHasRoot(mem, v);
    hide HasRoot, FatSectors, Sectors, Reserved, RootEntries, Trunc;
    assert mem(v + 12) * 256 + mem(v + 11) == SECTOR;
    assert mem(v + 11) == 0;
  }

  lemma {:induction false} BareNothing(slashes: seq<Octet>)
    requires forall i :: 0 <= i < |slashes| ==> Separates(slashes[i])
    ensures Bare(slashes) == []
  {
    if slashes != [] {
      BareNothing(slashes[1..]);
    }
  }
}
