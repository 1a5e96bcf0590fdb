/** What reading a file gives, for every chain and every sequence of sizes. */
module FatChain {
  import opened Bytes
  import opened Fat12
  import opened FatFile

  function Sector(fs: Filesystem, mem: Memory, c: nat): (data: seq<Octet>)
    ensures |data| == SECTOR
  {
    Copied(mem, fs.ino + c * SECTOR, SECTOR)
  }

  function Contents(fs: Filesystem, mem: Memory, cs: seq<nat>): (data: seq<Octet>)
    ensures |data| == |cs| * SECTOR
  {
    if cs == [] then [] else Sector(fs, mem, cs[0]) + Contents(fs, mem, cs[1..])
  }

  predicate IsCluster(fs: Filesystem, c: nat) {
    2 <= c < fs.nFatent < 0x8000_0000
  }

  /** Clusters, each the successor of the one before. A cluster may recur. */
  ghost predicate Path(fs: Filesystem, mem: Memory, cs: seq<nat>) {
    && cs != []
    && (forall i :: 0 <= i < |cs| ==> IsCluster(fs, cs[i]))
    && (forall i, j :: 0 <= i < j < |cs| && j == i + 1 ==> NextCluster(fs, mem, cs[i]) == cs[j])
  }

  function Next(fs: Filesystem, mem: Memory, cs: seq<nat>): int
    requires cs != []
  {
    NextCluster(fs, mem, cs[|cs| - 1])
  }

  /** The file stands in cluster k of the path. */
  predicate At(fs: Filesystem, f: State, cs: seq<nat>, k: nat) {
    && k < |cs| && f.loc == cs[k]
    && f.buffer == fs.ino + cs[k] * SECTOR
    && 0 <= f.head <= f.tail == SECTOR
  }

  function Offset(f: State, k: nat): int { k * SECTOR + f.head }

  lemma {:induction false} SectorOfContents(fs: Filesystem, mem: Memory, cs: seq<nat>, k: nat)
    requires k < |cs|
    ensures 0 <= k * SECTOR <= (k + 1) * SECTOR <= |Contents(fs, mem, cs)|
    ensures Contents(fs, mem, cs)[k * SECTOR..(k + 1) * SECTOR] == Sector(fs, mem, cs[k])
  {
    if k > 0 {
      SectorOfContents(fs, mem, cs[1..], k - 1);
      var c := Contents(fs, mem, cs);
      assert c[SECTOR..] == Contents(fs, mem, cs[1..]);
      assert c[k * SECTOR..(k + 1) * SECTOR] == c[SECTOR..][(k - 1) * SECTOR..k * SECTOR];
    }
  }

  /** Bytes of the buffer are bytes of the file. */
  lemma {:induction false} BufferIsContents(fs: Filesystem, mem: Memory, f: State, cs: seq<nat>, k: nat, n: nat)
    requires At(fs, f, cs, k) && f.head + n <= SECTOR
    ensures 0 <= Offset(f, k) <= Offset(f, k) + n <= |Contents(fs, mem, cs)|
    ensures Copied(mem, f.buffer + f.head, n) == Contents(fs, mem, cs)[Offset(f, k)..Offset(f, k) + n]
  {
    SectorOfContents(fs, mem, cs, k);
    var s := Sector(fs, mem, cs[k]);
    assert Copied(mem, f.buffer + f.head, n) == s[f.head..f.head + n];
    SliceOfSlice(Contents(fs, mem, cs), k * SECTOR, (k + 1) * SECTOR, f.head, f.head + n);
  }

  lemma SliceOfSlice(c: seq<Octet>, a: nat, b: nat, x: nat, y: nat)
    requires a <= b <= |c| && x <= y <= b - a
    ensures c[a..b][x..y] == c[a + x..a + y]
  {
    var s, t := c[a..b][x..y], c[a + x..a + y];
    assert |s| == |t| && forall i :: 0 <= i < |s| ==> s[i] == t[i];
  }

  lemma Joined(c: seq<Octet>, a: nat, b: nat, e: nat)
    requires a <= b <= e <= |c|
    ensures c[a..b] + c[b..e] == c[a..e] && c[e..|c|] == c[e..]
  {
  }

  lemma PathStep(fs: Filesystem, mem: Memory, cs: seq<nat>, k: nat)
    requires Path(fs, mem, cs) && k + 1 < |cs|
    ensures NextCluster(fs, mem, cs[k]) == cs[k + 1] && IsCluster(fs, cs[k + 1]) && !Outside(fs, cs[k + 1])
  {
  }

  /** The outcome (o, g) of reading count bytes from offset p of c, where
      `end` says whether an end mark follows. */
  predicate Delivered(c: seq<Octet>, p: nat, count: nat, end: bool, f: State, o: Outcome, g: State) {
    && p <= |c|
    && (p + count <= |c| ==> o == Done(c[p..p + count]) && g.eof == f.eof && g.err == f.err)
    && (p + count > |c| && end ==> o == Done(c[p..]) && g.eof && g.err == f.err)
    && (p + count > |c| && !end ==> o == Failed(c[p..], EBADF) && g.err && g.eof == f.eof)
  }

  lemma {:induction false} DeliveredMore(c: seq<Octet>, p: nat, n: nat, count: nat, end: bool, f: State, h: State,
                                        o: Outcome, g: State)
    requires n <= count && p + n <= |c| && Delivered(c, p + n, count - n, end, h, o, g)
    requires f.eof == h.eof && f.err == h.err
    ensures Delivered(c, p, count, end, f, Prepend(c[p..p + n], o), g)
  {
    var e := if p + count <= |c| then p + count else |c|;
    Joined(c, p, p + n, e);
  }

  /** One read: the bytes from here on, as many as asked for or as there are.
      It is short only at the end of the path; what follows there decides
      between end of file and failure. */
  lemma {:induction false} ReadFollowsPath(fs: Filesystem, mem: Memory, f: State, cs: seq<nat>, k: nat, count: nat)
    returns (j: nat)
    requires Path(fs, mem, cs) && At(fs, f, cs, k)
    requires Outside(fs, Next(fs, mem, cs)) || Offset(f, k) + count <= |cs| * SECTOR
    ensures var c, p, (o, g) := Contents(fs, mem, cs), Offset(f, k), Reading(fs, mem, f, count);
      && p >= 0 && Delivered(c, p, count, EndMark(Next(fs, mem, cs)), f, o, g)
      && At(fs, g, cs, j) && Offset(g, j) == if p + count <= |c| then p + count else |c|
    decreases |cs| - k
  {
    hide Contents, Copied, EndMark, NextCluster, Reading, Path, Delivered;
    var c, p, end := Contents(fs, mem, cs), Offset(f, k), EndMark(Next(fs, mem, cs));
    ReadingUnrolled(fs, mem, f, count);
    var n := if SECTOR - f.head > count then count else SECTOR - f.head;
    var moved := f.(head := f.head + n);
    BufferIsContents(fs, mem, f, cs, k, n);
    j := k;
    if n < count && k + 1 < |cs| {
      PathStep(fs, mem, cs, k);
      var h := Refilled(fs, moved, cs[k + 1]);
      j := ReadFollowsPath(fs, mem, h, cs, k + 1, count - n);
      var (o, g) := Reading(fs, mem, h, count - n);
      DeliveredMore(c, p, n, count, end, f, h, o, g);
    } else {
      DeliveredLast(c, p, n, count, end, f, moved);
    }
  }

  lemma {:induction false} DeliveredLast(c: seq<Octet>, p: nat, n: nat, count: nat, end: bool, f: State, g: State)
    requires n <= count && p + n <= |c| && g.eof == f.eof && g.err == f.err
    ensures n == count ==> Delivered(c, p, count, end, f, Done(c[p..p + n]), g)
    ensures n < count && p + n == |c| && end ==> Delivered(c, p, count, end, f, Done(c[p..p + n]), g.(eof := true))
    ensures n < count && p + n == |c| && !end ==>
      Delivered(c, p, count, end, f, Failed(c[p..p + n], EBADF), g.(err := true))
  {
    Joined(c, p, p, p + n);
  }

  // ---------------------------------------------------------------------
  //  Whole runs
  // ---------------------------------------------------------------------

  function Sum(sizes: seq<nat>): nat {
    if sizes == [] then 0 else sizes[0] + Sum(sizes[1..])
  }

  /** One call after another; whether all succeeded, and all they gave. */
  function Reads(fs: Filesystem, mem: Memory, f: State, sizes: seq<nat>): (bool, seq<Octet>)
    decreases |sizes|
  {
    if sizes == [] then (true, [])
    else
      var (o, g) := Reading(fs, mem, f, sizes[0]);
      var (ok, data) := Reads(fs, mem, g, sizes[1..]);
      (o.Done? && ok, o.data + data)
  }

  /** The file after these calls. */
  function AfterReads(fs: Filesystem, mem: Memory, f: State, sizes: seq<nat>): State
    decreases |sizes|
  {
    if sizes == [] then f else AfterReads(fs, mem, Reading(fs, mem, f, sizes[0]).1, sizes[1..])
  }

  /** A value that ends a chain of this volume: no cluster of it, and one of the
      last eight of twelve bits (or the refusal of a number that is no cluster). */
  predicate Ends(fs: Filesystem, next: int) {
    (next < 2 || fs.nFatent <= next) && (next == -1 || 0xFF8 <= next <= 0xFFF)
  }

  lemma EndsIsMark(fs: Filesystem, next: int)
    requires -1 <= next <= 0xFFF
    ensures Ends(fs, next) <==> Outside(fs, next) && EndMark(next)
  {
  }

  lemma {:induction false} NextIsTwelveBits(fs: Filesystem, mem: Memory, c: nat)
    ensures -1 <= NextCluster(fs, mem, c) <= 0xFFF
  {
    if 2 <= c < fs.nFatent {
      var pair := fs.fat + (c + c / 2);
      SixteenBits(mem(pair), mem(pair + 1));
    }
  }

  lemma SixteenBits(low: Octet, high: Octet)
    ensures var high1: int := high; 0 <= low + high1 * 256 < 0x1_0000
  {
  }

  /** One read of a chain that ends: the next bytes, and whether the end is seen. */
  lemma {:induction false} ReadOfChain(fs: Filesystem, mem: Memory, f: State, cs: seq<nat>, k: nat, count: nat) returns (j: nat)
    requires Path(fs, mem, cs) && At(fs, f, cs, k) && Ends(fs, Next(fs, mem, cs))
    ensures var c, p, (o, g) := Contents(fs, mem, cs), Offset(f, k), Reading(fs, mem, f, count);
      && At(fs, g, cs, j) && 0 <= p <= Offset(g, j) <= |c|
      && Offset(g, j) == (if p + count <= |c| then p + count else |c|)
      && o == Done(c[p..Offset(g, j)]) && g.err == f.err && (g.eof <==> f.eof || p + count > |c|)
  {
    NextIsTwelveBits(fs, mem, cs[|cs| - 1]);
    EndsIsMark(fs, Next(fs, mem, cs));
    hide Ends, Contents, EndMark, NextCluster, Reading, Outside, Path;
    j := ReadFollowsPath(fs, mem, f, cs, k, count);
  }

  lemma {:induction false} ReadsFollowPath(fs: Filesystem, mem: Memory, f: State, cs: seq<nat>, k: nat, sizes: seq<nat>)
    requires Path(fs, mem, cs) && At(fs, f, cs, k) && Ends(fs, Next(fs, mem, cs))
    ensures var c, p := Contents(fs, mem, cs), Offset(f, k);
      && 0 <= p <= |c|
      && Reads(fs, mem, f, sizes) == (true, c[p..if p + Sum(sizes) <= |c| then p + Sum(sizes) else |c|])
      && var z := AfterReads(fs, mem, f, sizes);
         z.err == f.err && (z.eof <==> f.eof || p + Sum(sizes) > |c|)
    decreases |sizes|
  {
    hide Ends, Contents, Reading, Path, At, Offset, Next;
    var c, p := Contents(fs, mem, cs), Offset(f, k);
    if sizes == [] {
      var _ := ReadOfChain(fs, mem, f, cs, k, 0);
      assert Sum(sizes) == 0 && c[p..p + 0] == [];
    } else {
      var j := ReadOfChain(fs, mem, f, cs, k, sizes[0]);
      var (o, g) := Reading(fs, mem, f, sizes[0]);
      ReadsFollowPath(fs, mem, g, cs, j, sizes[1..]);
      var q := Offset(g, j);
      assert Sum(sizes) == sizes[0] + Sum(sizes[1..]);
      var end := if q + Sum(sizes[1..]) <= |c| then q + Sum(sizes[1..]) else |c|;
      Joined(c, p, q, end);
    }
  }

  /** However a file is read, the pieces are a prefix of its clusters: all of
      them once enough is asked for. The end is seen exactly when more is asked
      for than there is, and no error. (FAT12 has no cluster beyond 0xFF5.) */
  lemma {:induction false} ReadsAreAPrefix(fs: Filesystem, mem: Memory, cs: seq<nat>, sizes: seq<nat>)
    requires Path(fs, mem, cs) && Ends(fs, Next(fs, mem, cs)) && cs[0] < 0x8000
    ensures var total := |cs| * SECTOR;
      |Contents(fs, mem, cs)| == total &&
      Reads(fs, mem, Open(fs, cs[0]), sizes)
        == (true, Contents(fs, mem, cs)[..if Sum(sizes) <= total then Sum(sizes) else total])
    ensures var z := AfterReads(fs, mem, Open(fs, cs[0]), sizes);
      !z.err && (z.eof <==> Sum(sizes) > |cs| * SECTOR)
  {
    assert IsCluster(fs, cs[0]);
    ReadsFollowPath(fs, mem, Open(fs, cs[0]), cs, 0, sizes);
  }

  /** The bytes of c from p on, starting over at the end of c. */
  ghost predicate Around(data: seq<Octet>, c: seq<Octet>, p: nat) {
    c != [] && forall i :: 0 <= i < |data| ==> data[i] == c[Wrap(p + i, |c|)]
  }

  /** i, counted round n. */
  function Wrap(i: nat, n: nat): (r: nat)
    requires n > 0
    ensures r < n && (i < n ==> r == i)
  {
    if i < n then i else Wrap(i - n, n)
  }

  lemma {:induction false} AroundJoins(a: seq<Octet>, b: seq<Octet>, c: seq<Octet>, p: nat, q: nat)
    requires c != [] && p + |a| <= |c| && a == c[p..p + |a|]
    requires Around(b, c, q) && q == (if p + |a| < |c| then p + |a| else 0)
    ensures Around(a + b, c, p)
  {
    var data := a + b;
    forall i | 0 <= i < |data|
      ensures data[i] == c[Wrap(p + i, |c|)]
    {
      AroundAt(a, b, c, p, q, i);
    }
  }

  lemma {:induction false} AroundAt(a: seq<Octet>, b: seq<Octet>, c: seq<Octet>, p: nat, q: nat, i: nat)
    requires c != [] && p + |a| <= |c| && a == c[p..p + |a|] && i < |a| + |b|
    requires Around(b, c, q) && q == (if p + |a| < |c| then p + |a| else 0)
    ensures (a + b)[i] == c[Wrap(p + i, |c|)]
  {
    if i >= |a| {
      assert (a + b)[i] == b[i - |a|] == c[Wrap(q + (i - |a|), |c|)];
    }
  }

  /** On a cyclic table every read succeeds in full, round and round. */
  lemma {:induction false} CyclicRead(fs: Filesystem, mem: Memory, f: State, cs: seq<nat>, k: nat, count: nat)
    requires Path(fs, mem, cs) && Next(fs, mem, cs) == cs[0] && At(fs, f, cs, k)
    ensures var c, p, (o, g) := Contents(fs, mem, cs), Offset(f, k), Reading(fs, mem, f, count);
      && o.Done? && |o.data| == count && g.eof == f.eof && g.err == f.err
      && p >= 0 && Around(o.data, c, p)
    decreases count, if f.head == SECTOR then 1 else 0
  {
    hide Contents, Copied, EndMark, NextCluster, Reading, Around;
    var c, p := Contents(fs, mem, cs), Offset(f, k);
    ReadingUnrolled(fs, mem, f, count);
    var n := if SECTOR - f.head > count then count else SECTOR - f.head;
    BufferIsContents(fs, mem, f, cs, k, n);
    var q := if p + n < |c| then p + n else 0;
    var data := c[p..p + n];
    if n < count {
      var m := if k + 1 < |cs| then k + 1 else 0;
      assert NextCluster(fs, mem, cs[k]) == cs[m];
      assert IsCluster(fs, cs[m]);
      var h := Refilled(fs, f.(head := f.head + n), cs[m]);
      CyclicRead(fs, mem, h, cs, m, count - n);
      assert Offset(h, m) == q;
      AroundJoins(data, Reading(fs, mem, h, count - n).0.data, c, p, q);
    } else {
      NothingAround(c, q);
      AroundJoins(data, [], c, p, q);
      assert data + [] == data;
    }
  }

  lemma NothingAround(c: seq<Octet>, q: nat)
    requires c != []
    ensures Around([], c, q)
  {
  }

  /** A file without a cluster is not empty: what is at address 0 is read, one
      sector of it, and only then the end is seen. */
  lemma {:induction false} EmptyFile(fs: Filesystem, mem: Memory, first: nat, count: nat)
    requires fs.nFatent < 0x8000_0000 && LookupFat(fs, Short(first)).None?
    ensures var n := if count <= SECTOR then count else SECTOR; var (o, g) := Reading(fs, mem, Open(fs, first), count);
      && o == Done(Copied(mem, 0, n)) && (g.eof <==> count > SECTOR)
      && NextCluster(fs, mem, g.loc) == -1
  {
    ReadingUnrolled(fs, mem, Open(fs, first), count);
  }
}
