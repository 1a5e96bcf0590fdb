/** Listing and searching the root directory of a mounted volume. */
module FatRoot {
  import opened Bytes
  import opened Fat12
  import opened FatNames

  datatype Found = Entry(addr: int) | NoEntry | TooMany

  /** The first byte of the name of a deleted file: section "FAT Directory
      Structure" of the Microsoft FAT specification. */
  const DELETED: Octet := 0xE5

  function NameOf(mem: Memory, p: int): (name: seq<Octet>)
    ensures |name| == 11
  {
    seq(11, i requires 0 <= i < 11 => mem(p + i))
  }

  /** e_volume: a label, or part of a long name. */
  predicate IsLabel(mem: Memory, p: int) {
    mem(p + 11) / 8 % 2 == 1
  }

  predicate Matches(pattern: seq<Octet>, name: seq<Octet>)
    requires |pattern| == 11 && |name| == 11
  {
    forall i :: 0 <= i < 11 ==> pattern[i] == name[i] || pattern[i] == STAR
  }

  /** The root directory ends where cluster 2 begins, as mounting leaves it. */
  predicate HasRoot(fs: Filesystem) {
    fs.rootdir + fs.nDirent * DIRENT == fs.ino + 2 * SECTOR
  }

  lemma {:induction false} MountedHasRoot(mem: Memory, v: int)
    requires Mount(mem, v).Some?
    ensures HasRoot(Mount(mem, v).value) && Mount(mem, v).value.volume == v
  {
    hide IsVolume, FatSectors, Sectors, Reserved, RootEntries, Trunc;
  }

  /** How many entries a walk can pass: the end of the directory is looked for
      at the end of a sector only, so of an empty one a whole sector is read. */
  function RootSize(fs: Filesystem): nat {
    if fs.nDirent == 0 then 128 else fs.nDirent
  }

  function EntryAt(fs: Filesystem, k: nat): int { fs.rootdir + k * DIRENT }

  /** Entries in front of the first one with an empty name; all, if there is
      none. */
  function Listed(fs: Filesystem, mem: Memory, k: nat): (n: nat)
    requires k <= RootSize(fs)
    ensures k <= n <= RootSize(fs)
    decreases RootSize(fs) - k
  {
    if k == RootSize(fs) || mem(EntryAt(fs, k)) == NUL then k else Listed(fs, mem, k + 1)
  }

  /** The search looks for entry k. */
  predicate Hit(fs: Filesystem, mem: Memory, pattern: seq<Octet>, k: nat)
    requires |pattern| == 11
  {
    !IsLabel(mem, EntryAt(fs, k)) && Matches(pattern, NameOf(mem, EntryAt(fs, k)))
  }

  /** How many of the first n entries are hits, and the last of them. */
  function Hits(fs: Filesystem, mem: Memory, pattern: seq<Octet>, n: nat): (nat, nat)
    requires |pattern| == 11
  {
    if n == 0 then (0, 0)
    else
      var (count, last) := Hits(fs, mem, pattern, n - 1);
      if Hit(fs, mem, pattern, n - 1) then (count + 1, n - 1) else (count, last)
  }

  function Search(fs: Filesystem, mem: Memory, pattern: seq<Octet>): Found
    requires |pattern| == 11
  {
    var (count, last) := Hits(fs, mem, pattern, Listed(fs, mem, 0));
    if count == 0 then NoEntry else if count == 1 then Entry(EntryAt(fs, last)) else TooMany
  }

  lemma ListedStep(fs: Filesystem, mem: Memory, k: nat)
    requires k <= RootSize(fs)
    ensures Listed(fs, mem, k)
      == if k == RootSize(fs) || mem(EntryAt(fs, k)) == NUL then k else Listed(fs, mem, k + 1)
  {
  }

  lemma HitsStep(fs: Filesystem, mem: Memory, pattern: seq<Octet>, k: nat)
    requires |pattern| == 11
    ensures Hits(fs, mem, pattern, 0) == (0, 0)
    ensures var (count, last) := Hits(fs, mem, pattern, k);
      Hits(fs, mem, pattern, k + 1)
      == if !IsLabel(mem, EntryAt(fs, k)) && Matches(pattern, NameOf(mem, EntryAt(fs, k))) then (count + 1, k) else (count, last)
  {
  }

  lemma NameAt(mem: Memory, p: int, i: nat)
    requires i < 11
    ensures NameOf(mem, p)[i] == mem(p + i)
  {
  }

  lemma MatchesFrom(pattern: seq<Octet>, name: seq<Octet>, i: nat)
    requires |pattern| == 11 && |name| == 11 && i <= 11
    requires forall j :: 0 <= j < i ==> pattern[j] == name[j] || pattern[j] == STAR
    ensures i == 11 ==> Matches(pattern, name)
    ensures i < 11 && pattern[i] != name[i] && pattern[i] != STAR ==> !Matches(pattern, name)
  {
  }

  /** A DIR over the root directory; None is the null pointer. */
  class Dir {
    var next: Option<int>

    /** `_opendir` with the volume as the entry. */
    constructor (fs: Filesystem)
      ensures next == Some(EntryAt(fs, 0))
    {
      next := Some(fs.rootdir);
    }

    /** k entries have been passed. */
    ghost predicate Passed(fs: Filesystem, k: nat)
      reads this
    {
      k <= RootSize(fs) && next == if k < RootSize(fs) then Some(EntryAt(fs, k)) else None
    }

    method ReadDir(fs: Filesystem, mem: Memory, ghost k: nat) returns (entry: Option<int>)
      requires HasRoot(fs) && Passed(fs, k)
      modifies this
      ensures Passed(fs, if k < RootSize(fs) then k + 1 else k)
      ensures entry == if k < RootSize(fs) && mem(EntryAt(fs, k)) != NUL then Some(EntryAt(fs, k)) else None
    {
      entry := next;
      if entry.Some? {
        var after := entry.value + DIRENT;
        next := Some(after);
        if (after - fs.ino) % SECTOR == 0 {
          if after >= fs.ino + 2 * SECTOR {
            next := None;
          }
        }
      }
      if mem(if entry.Some? then entry.value else 0) == NUL {
        entry := None;
      }
    }

    /** The only matching entry that is not a label. */
    method ScanDir(fs: Filesystem, mem: Memory, pattern: seq<Octet>) returns (r: Found)
      requires HasRoot(fs) && Passed(fs, 0) && |pattern| == 11
      modifies this
      ensures r == Search(fs, mem, pattern)
    {
      hide Listed, Hits, IsLabel, Matches, Hit, NameOf;
      var found, foundp := 0, 0;
      ghost var k := 0;
      HitsStep(fs, mem, pattern, 0);
      while true
        invariant Passed(fs, k) && Listed(fs, mem, 0) == Listed(fs, mem, k)
        invariant var (count, last) := Hits(fs, mem, pattern, k); found == count && (found > 0 ==> foundp == EntryAt(fs, last))
        decreases RootSize(fs) - k
      {
        ListedStep(fs, mem, k);
        HitsStep(fs, mem, pattern, k);
        var entry := ReadDir(fs, mem, k);
        if entry.None? {
          break;
        }
        k := k + 1;
        if IsLabel(mem, entry.value) {
          continue;
        }
        var i := 0;
        while i < 11
          invariant 0 <= i <= 11 && Passed(fs, k)
          invariant forall j :: 0 <= j < i ==> pattern[j] == NameOf(mem, entry.value)[j] || pattern[j] == STAR
        {
          NameAt(mem, entry.value, i);
          if pattern[i] != mem(entry.value + i) && pattern[i] != STAR {
            break;
          }
          i := i + 1;
        }
        MatchesFrom(pattern, NameOf(mem, entry.value), i);
        if i < 11 {
          continue;
        }
        foundp := entry.value;
        found := found + 1;
      }
      assert Listed(fs, mem, 0) == k;
      r := if found > 1 then TooMany else if found == 0 then NoEntry else Entry(foundp);
    }
  }

  // ---------------------------------------------------------------------
  //  What a search finds
  // ---------------------------------------------------------------------

  /** Entry k is listed and is a hit. */
  predicate ListedHit(fs: Filesystem, mem: Memory, pattern: seq<Octet>, k: nat)
    requires |pattern| == 11
  {
    k < Listed(fs, mem, 0) && Hit(fs, mem, pattern, k)
  }

  lemma {:induction false} CountHits(fs: Filesystem, mem: Memory, pattern: seq<Octet>, n: nat)
    requires |pattern| == 11
    ensures var (count, last) := Hits(fs, mem, pattern, n);
      && (count == 0 <==> forall i: nat :: i < n ==> !Hit(fs, mem, pattern, i))
      && (count > 0 ==> last < n && Hit(fs, mem, pattern, last))
      && (count == 1 ==> forall i: nat :: i < n && Hit(fs, mem, pattern, i) ==> i == last)
      && (count > 1 ==> exists i: nat :: i < last && Hit(fs, mem, pattern, i))
  {
    hide Hit;
    if n > 0 {
      CountHits(fs, mem, pattern, n - 1);
    }
  }

  /** An entry is found exactly when it is the only hit listed; no hit and
      several are told apart. */
  lemma {:induction false} SearchFindsTheOnlyHit(fs: Filesystem, mem: Memory, pattern: seq<Octet>, k: nat)
    requires |pattern| == 11
    ensures Search(fs, mem, pattern) == Entry(EntryAt(fs, k))
      <==> ListedHit(fs, mem, pattern, k) && forall i: nat :: ListedHit(fs, mem, pattern, i) ==> i == k
    ensures Search(fs, mem, pattern) == NoEntry <==> forall i: nat :: !ListedHit(fs, mem, pattern, i)
    ensures Search(fs, mem, pattern) == TooMany
      <==> exists i: nat, j: nat :: ListedHit(fs, mem, pattern, i) && ListedHit(fs, mem, pattern, j) && i < j
  {
    hide Hit;
    var n := Listed(fs, mem, 0);
    CountHits(fs, mem, pattern, n);
    var (count, last) := Hits(fs, mem, pattern, n);
    if count > 0 {
      assert ListedHit(fs, mem, pattern, last);
    }
    if count > 1 {
      var i: nat :| i < last && Hit(fs, mem, pattern, i);
      assert ListedHit(fs, mem, pattern, i);
    }
  }

  // ---------------------------------------------------------------------
  //  Deleted files
  // ---------------------------------------------------------------------

  /** Entries are told apart by their names' bytes only: one whose name begins
      with the mark of a deleted file is listed like any other. */
  lemma {:induction false} DeletedIsListed(fs: Filesystem, mem: Memory, k: nat)
    requires HasRoot(fs) && k < RootSize(fs) && mem(EntryAt(fs, k)) == DELETED
    requires forall i :: 0 <= i < k ==> mem(EntryAt(fs, i)) != NUL
    ensures k < Listed(fs, mem, 0)
    ensures !IsLabel(mem, EntryAt(fs, k)) ==> ListedHit(fs, mem, NameOf(mem, EntryAt(fs, k)), k)
  {
    ListedStops(fs, mem, 0);
  }

  predicate LiveHit(fs: Filesystem, mem: Memory, pattern: seq<Octet>, k: nat)
    requires |pattern| == 11
  {
    ListedHit(fs, mem, pattern, k) && mem(EntryAt(fs, k)) != DELETED
  }

  /** The search as it is meant: over the files that are there. */
  ghost function LiveSearch(fs: Filesystem, mem: Memory, pattern: seq<Octet>): Found
    requires |pattern| == 11
  {
    if exists i: nat, j: nat :: i < j && LiveHit(fs, mem, pattern, i) && LiveHit(fs, mem, pattern, j) then TooMany
    else if k: nat :| LiveHit(fs, mem, pattern, k) then Entry(EntryAt(fs, k))
    else NoEntry
  }

  /** Deleted entries leave a search as it is meant if and only if none of them
      is a hit, or there are several hits anyway. */
  lemma {:induction false} DeletedCount(fs: Filesystem, mem: Memory, pattern: seq<Octet>)
    requires |pattern| == 11
    ensures Search(fs, mem, pattern) == LiveSearch(fs, mem, pattern) <==>
      || (forall k: nat :: ListedHit(fs, mem, pattern, k) ==> LiveHit(fs, mem, pattern, k))
      || (exists i: nat, j: nat :: i < j && LiveHit(fs, mem, pattern, i) && LiveHit(fs, mem, pattern, j))
  {
    hide ListedHit;
    forall k: nat
      ensures Search(fs, mem, pattern) == Entry(EntryAt(fs, k))
        <==> ListedHit(fs, mem, pattern, k) && forall i: nat :: ListedHit(fs, mem, pattern, i) ==> i == k
    {
      SearchFindsTheOnlyHit(fs, mem, pattern, k);
    }
    SearchFindsTheOnlyHit(fs, mem, pattern, 0);
    hide Search;
    if exists i: nat, j: nat :: i < j && LiveHit(fs, mem, pattern, i) && LiveHit(fs, mem, pattern, j) {
      assert LiveSearch(fs, mem, pattern) == TooMany;
    }
  }

  /** A volume whose root directory holds one deleted entry of that name. */
  function OneDeleted(fs: Filesystem, name: seq<Octet>): Memory
    requires |name| == 11
  {
    (a: int) => if a == fs.rootdir then DELETED else if fs.rootdir < a < fs.rootdir + 11 then name[a - fs.rootdir] else 0
  }

  lemma {:induction false} OneIsListed(fs: Filesystem, name: seq<Octet>)
    requires |name| == 11
    ensures Listed(fs, OneDeleted(fs, name), 0) == 1
    ensures name[0] == STAR || name[0] == DELETED ==> ListedHit(fs, OneDeleted(fs, name), name, 0)
  {
    var mem := OneDeleted(fs, name);
    assert mem(EntryAt(fs, 0)) == DELETED && mem(EntryAt(fs, 1)) == NUL;
    ListedStep(fs, mem, 0);
    ListedStep(fs, mem, 1);
    assert !IsLabel(mem, EntryAt(fs, 0));
    forall i | 1 <= i < 11 ensures NameOf(mem, EntryAt(fs, 0))[i] == name[i] {
      NameAt(mem, EntryAt(fs, 0), i);
    }
    NameAt(mem, EntryAt(fs, 0), 0);
  }

  /** A pattern finds on every volume what it is meant to find, exactly if it
      begins with neither a star nor the mark itself. */
  lemma {:induction false} DeletedMatter(fs: Filesystem, pattern: seq<Octet>)
    requires |pattern| == 11
    ensures (forall mem: Memory :: Search(fs, mem, pattern) == LiveSearch(fs, mem, pattern))
      <==> pattern[0] != 42 && pattern[0] != 0xE5
  {
    hide Search, LiveSearch, Listed;
    if pattern[0] != STAR && pattern[0] != DELETED {
      forall mem: Memory ensures Search(fs, mem, pattern) == LiveSearch(fs, mem, pattern) {
        forall k: nat | ListedHit(fs, mem, pattern, k) ensures LiveHit(fs, mem, pattern, k) {
          NameAt(mem, EntryAt(fs, k), 0);
        }
        DeletedCount(fs, mem, pattern);
      }
    } else {
      var mem := OneDeleted(fs, pattern);
      OneIsListed(fs, pattern);
      DeletedCount(fs, mem, pattern);
      assert mem(EntryAt(fs, 0)) == DELETED;
      assert forall k: nat :: !LiveHit(fs, mem, pattern, k);
      assert Search(fs, mem, pattern) != LiveSearch(fs, mem, pattern);
    }
  }

  /** The listing stops at the first empty name or at the end. */
  lemma {:induction false} ListedStops(fs: Filesystem, mem: Memory, k: nat)
    requires k <= RootSize(fs)
    ensures var n := Listed(fs, mem, k);
      && (forall i :: k <= i < n ==> mem(EntryAt(fs, i)) != NUL)
      && (n < RootSize(fs) ==> mem(EntryAt(fs, n)) == NUL)
    decreases RootSize(fs) - k
  {
    if k < RootSize(fs) && mem(EntryAt(fs, k)) != NUL {
      ListedStops(fs, mem, k + 1);
    }
  }

  /** Entry i is a listed file or directory with the name of entry k. */
  predicate SameEntryName(fs: Filesystem, mem: Memory, i: nat, k: nat) {
    i < Listed(fs, mem, 0) && !IsLabel(mem, EntryAt(fs, i)) && NameOf(mem, EntryAt(fs, i)) == NameOf(mem, EntryAt(fs, k))
  }

  /** Typing what the catalog printed for an entry, in any mixture of cases,
      finds that entry if and only if its name is plain, its base has no space
      inside, and no other listed file or directory has the same name. A star is
      no name. */
  lemma {:induction false} PrintedNameFindsEntry(fs: Filesystem, mem: Memory, k: nat, typed: seq<Octet>)
    requires k < Listed(fs, mem, 0) && !IsLabel(mem, EntryAt(fs, k))
    requires STAR !in NameOf(mem, EntryAt(fs, k)) && SameText(typed, Printed(NameOf(mem, EntryAt(fs, k))))
    ensures var name := NameOf(mem, EntryAt(fs, k));
      Search(fs, mem, Munged(NOTHING, typed)) == Entry(EntryAt(fs, k))
      <==> AllPlain(name) && SolidBase(name) && forall i: nat :: SameEntryName(fs, mem, i, k) ==> i == k
  {
    var name := NameOf(mem, EntryAt(fs, k));
    var pattern := Munged(NOTHING, Printed(name));
    CaseMakesNoDifference(NOTHING, typed, Printed(name));
    PrintedNameRoundTrip(name);
    PrintedHasNoStar(name);
    NoStarsFit(name);
    SearchFindsTheOnlyHit(fs, mem, pattern, k);
    forall i: nat
      ensures Matches(pattern, NameOf(mem, EntryAt(fs, i))) <==> NameOf(mem, EntryAt(fs, i)) == pattern
    {
      SameName(pattern, NameOf(mem, EntryAt(fs, i)));
    }
    hide NameOf, Munged, Printed, AllPlain, SolidBase, Matches, Listed, IsLabel;
    if pattern == name {
      assert forall i: nat :: ListedHit(fs, mem, name, i) <==> SameEntryName(fs, mem, i, k);
    }
  }

  lemma {:induction false} SameName(pattern: seq<Octet>, name: seq<Octet>)
    requires |pattern| == 11 && |name| == 11 && STAR !in pattern
    ensures Matches(pattern, name) <==> name == pattern
  {
    assert forall i :: 0 <= i < 11 ==> pattern[i] in pattern;
  }
}
