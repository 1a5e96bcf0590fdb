/** Reading an open file of sw/src/fat.c along its cluster chain. */
module FatFile {
  import opened Bytes
  import opened Fat12

  datatype Errno = EBADF | EINVAL

  /** The fields of FILE that `read` uses. */
  datatype State = State(loc: nat, buffer: int, head: int, tail: int, eof: bool, err: bool)

  /** What a call leaves in the caller's buffer, and how it returns: with the
      number of bytes, or with -1. */
  datatype Outcome = Done(data: seq<Octet>) | Failed(data: seq<Octet>, errno: Errno)

  /** `_loc` is a short, widened to 32 bits again when the table is read. */
  function Short(x: nat): int {
    if x % 0x1_0000 < 0x8000 then x % 0x1_0000 else x % 0x1_0000 - 0x1_0000
  }

  /** `fopen` once the entry is found; a null buffer is address 0. */
  function Open(fs: Filesystem, first: nat): State {
    State(Short(first) % 0x1_0000_0000, Address(LookupFat(fs, Short(first))), 0, SECTOR, false, false)
  }

  function Address(p: Option<int>): int { if p.Some? then p.value else 0 }

  /** n bytes from an address on. */
  function Copied(mem: Memory, from: int, n: nat): (data: seq<Octet>)
    ensures |data| == n
  {
    seq(n, i requires 0 <= i < n => mem(from + i))
  }

  /** A FAT value that is not a cluster of the volume. */
  predicate Outside(fs: Filesystem, next: int) {
    next < 2 || next >= fs.nFatent
  }

  /** The mask 0xFF8 over a C integer; -1 has all bits set. */
  predicate EndMark(next: int) {
    next % 0x1000 / 8 == 0x1FF
  }

  function Refilled(fs: Filesystem, f: State, next: nat): State {
    State(next, Address(LookupFat(fs, next)), 0, SECTOR, f.eof, f.err)
  }

  function Prepend(data: seq<Octet>, o: Outcome): Outcome {
    if o.Done? then Done(data + o.data) else Failed(data + o.data, o.errno)
  }

  /** What `read` does. */
  function Reading(fs: Filesystem, mem: Memory, f: State, count: nat): (Outcome, State)
    decreases count, if f.head == f.tail then 1 else 0
  {
    if count == 0 then (Done([]), f)
    else if f.tail < f.head then (Failed([], EINVAL), f.(err := true))
    else
      var n := if f.tail - f.head > count then count else f.tail - f.head;
      var data := Copied(mem, f.buffer + f.head, n);
      var g := f.(head := f.head + n);
      if n == count then (Done(data), g)
      else
        var next := NextCluster(fs, mem, f.loc);
        if Outside(fs, next) then
          if EndMark(next) then (Done(data), g.(eof := true)) else (Failed(data, EBADF), g.(err := true))
        else
          var (o, h) := Reading(fs, mem, Refilled(fs, g, next), count - n);
          (Prepend(data, o), h)
  }

  function Splice(to: seq<Octet>, at: nat, data: seq<Octet>): seq<Octet>
    requires at + |data| <= |to|
  {
    to[..at] + data + to[at + |data|..]
  }

  /** The buffer starts with data and is otherwise as before. */
  predicate Fronted(to: seq<Octet>, data: seq<Octet>, before: seq<Octet>) {
    |data| <= |before| && to == data + before[|data|..]
  }

  /** What the buffer can give, up to count bytes. */
  predicate Available(mem: Memory, f: State, count: nat, data: seq<Octet>)
    requires f.head <= f.tail
  {
    data == Copied(mem, f.buffer + f.head, if f.tail - f.head > count then count else f.tail - f.head)
  }

  class File {
    var flash: bool
    var loc: nat
    var buffer: int
    var head: int
    var tail: int
    var eof: bool
    var err: bool

    ghost function Abs(): State
      reads this
    {
      State(loc, buffer, head, tail, eof, err)
    }

    /** A place in the table of files that no device has. */
    constructor ()
      ensures !flash
    {
      flash, loc, buffer, head, tail, eof, err := false, 0, 0, 0, 0, false, false;
    }

    /** `fopen` after the directory entry and a place for the file are found. */
    method Attach(fs: Filesystem, first: nat)
      modifies this
      ensures flash && Abs() == Open(fs, first)
    {
      flash, loc, head, tail, eof, err := true, Short(first) % 0x1_0000_0000, 0, SECTOR, false, false;
      var p := LookupFat(fs, Short(first));
      buffer := if p.Some? then p.value else 0;
    }

    method Close()
      modifies this
      ensures !flash && Abs() == old(Abs())
    {
      flash := false;
    }

    /** `memcpy`. */
    static method Copy(mem: Memory, from: int, to: array<Octet>, at: nat, n: nat)
      requires at + n <= to.Length
      modifies to
      ensures to[..] == Splice(old(to[..]), at, Copied(mem, from, n))
    {
      var k := 0;
      while k < n
        invariant 0 <= k <= n
        invariant forall j :: 0 <= j < to.Length ==>
          to[j] == if at <= j < at + k then mem(from + (j - at)) else old(to[j])
      {
        to[at + k] := mem(from + k);
        k := k + 1;
      }
    }

    /** Copies what the buffer still has, at most count bytes. */
    method Drain(mem: Memory, to: array<Octet>, at: nat, count: nat, ghost f: State)
      returns (n: nat, ghost data: seq<Octet>)
      requires f == Abs() && head <= tail && at + count <= to.Length
      modifies this`head, to
      ensures Abs() == f.(head := f.head + n)
      ensures Available(mem, f, count, data) && |data| == n
      ensures to[..] == Splice(old(to[..]), at, data)
    {
      n := tail - head;
      if n > count {
        n := count;
      }
      data := Copied(mem, buffer + head, n);
      Copy(mem, buffer + head, to, at, n);
      head := head + n;
    }

    /** Points the buffer at the next cluster. */
    method Fill(fs: Filesystem, clust: nat, ghost f: State)
      requires f == Abs()
      modifies this
      ensures flash == old(flash) && Abs() == Refilled(fs, f, clust)
    {
      loc := clust;
      var p := LookupFat(fs, clust);
      buffer := if p.Some? then p.value else 0;
      head := 0;
      tail := SECTOR;
    }

    /** A file that is not open for the flash is refused. Otherwise bytes are
        put in `to` and counted. `errno` is what the call assigns to it: also
        when a read ends because the file has no cluster of the volume. */
    method Read(fs: Filesystem, mem: Memory, to: array<Octet>, size: nat)
      returns (ret: int, errno: Option<Errno>)
      requires size <= to.Length && size < 0x8000_0000
      modifies this, to
      ensures flash == old(flash)
      ensures !old(flash) ==> ret == -1 && errno == Some(EBADF) && Abs() == old(Abs()) && to[..] == old(to[..])
      ensures old(flash) ==>
        var (o, g) := Reading(fs, mem, old(Abs()), size);
        && Abs() == g
        && |o.data| <= size
        && Fronted(to[..], o.data, old(to[..]))
        && ret == (if o.Done? then |o.data| else -1)
        && errno ==
             if o.Failed? then Some(o.errno)
             else if |o.data| < size && NextCluster(fs, mem, g.loc) == -1 then Some(EBADF)
             else None
    {
      if !flash {
        return -1, Some(EBADF);
      }
      hide Reading, Copied, NextCluster, Outside, EndMark, Refilled, Prepend, Fronted, Splice, Available;
      var count: nat, bytesRead: nat := size, 0;
      ghost var (o, g) := Reading(fs, mem, Abs(), size);
      ghost var done: seq<Octet> := [];
      PrependNothing(o);
      FrontedStarts(to[..]);
      while count > 0
        invariant count + bytesRead == size && bytesRead == |done|
        invariant flash
        invariant Fronted(to[..], done, old(to[..]))
        invariant Prepend(done, Reading(fs, mem, Abs(), count).0) == o && Reading(fs, mem, Abs(), count).1 == g
        decreases count, if head == tail then 1 else 0
      {
        ghost var f, t0 := Abs(), to[..];
        ReadingUnrolled(fs, mem, f, count);
        if tail - head < 0 {
          err := true;
          PrependFailed(done, EINVAL);
          return -1, Some(EINVAL);
        }
        var n, data := Drain(mem, to, bytesRead, count, f);
        Placed(old(to[..]), done, data, bytesRead, t0, to[..]);
        Pass(fs, mem, f, count, data, done, o, g);
        bytesRead := bytesRead + n;
        count := count - n;
        done := done + data;
        if count > 0 {
          var clust := NextCluster(fs, mem, loc);
          if Outside(fs, clust) {
            if EndMark(clust) {
              eof := true;
              return bytesRead, if clust == -1 then Some(EBADF) else None;
            }
            err := true;
            return -1, Some(EBADF);
          }
          Fill(fs, clust, f.(head := f.head + n));
        }
      }
      NothingLeft(fs, mem, Abs(), done);
      ret, errno := bytesRead, None;
    }
  }

  /** One pass of the loop in front of what is still to be read. */
  lemma {:induction false} Pass(fs: Filesystem, mem: Memory, f: State, count: nat, data: seq<Octet>, done: seq<Octet>,
                               o: Outcome, g: State)
    requires 0 < count && f.head <= f.tail && Available(mem, f, count, data)
    requires Prepend(done, Reading(fs, mem, f, count).0) == o && Reading(fs, mem, f, count).1 == g
    ensures var n, next, h := |data|, NextCluster(fs, mem, f.loc), f.(head := f.head + |data|);
      && n <= count && (n == 0 ==> f.head == f.tail)
      && (n == count ==> Prepend(done + data, Reading(fs, mem, h, 0).0) == o && Reading(fs, mem, h, 0).1 == g)
      && (n < count && Outside(fs, next) && EndMark(next) ==> o == Done(done + data) && g == h.(eof := true))
      && (n < count && Outside(fs, next) && !EndMark(next) ==> o == Failed(done + data, EBADF) && g == h.(err := true))
      && (n < count && !Outside(fs, next) ==>
          && next >= 0
          && Refilled(fs, h, next).head == 0 && Refilled(fs, h, next).tail == SECTOR
          && var r := Reading(fs, mem, Refilled(fs, h, next), count - n);
             Prepend(done + data, r.0) == o && r.1 == g)
  {
    hide Reading, NextCluster, Copied, EndMark, Prepend;
    var n, next, h := |data|, NextCluster(fs, mem, f.loc), f.(head := f.head + |data|);
    ReadingUnrolled(fs, mem, f, count);
    NothingLeft(fs, mem, h, done + data);
    PrependEnds(done, data);
    if n < count && !Outside(fs, next) {
      Regroup(done, data, Reading(fs, mem, Refilled(fs, h, next), count - n).0);
    }
  }

  lemma NothingLeft(fs: Filesystem, mem: Memory, f: State, done: seq<Octet>)
    ensures Reading(fs, mem, f, 0).1 == f && Prepend(done, Reading(fs, mem, f, 0).0) == Done(done)
  {
    assert done + [] == done;
  }

  /** One pass of the loop, by cases. */
  lemma {:induction false} ReadingUnrolled(fs: Filesystem, mem: Memory, f: State, count: nat)
    ensures var r := Reading(fs, mem, f, count);
      var n := if f.tail - f.head > count then count else f.tail - f.head;
      var g := f.(head := f.head + n);
      var next := NextCluster(fs, mem, f.loc);
      && (count == 0 ==> r == (Done([]), f))
      && (count > 0 && f.tail < f.head ==> r == (Failed([], EINVAL), f.(err := true)))
      && (count > 0 && f.tail >= f.head ==>
          var data := Copied(mem, f.buffer + f.head, n);
          && (n == count ==> r == (Done(data), g))
          && (n < count && Outside(fs, next) ==>
              r == if EndMark(next) then (Done(data), g.(eof := true)) else (Failed(data, EBADF), g.(err := true)))
          && (n < count && !Outside(fs, next) ==>
              var s := Reading(fs, mem, Refilled(fs, g, next), count - n);
              r == (Prepend(data, s.0), s.1)))
  {
    hide NextCluster, Copied, EndMark, Prepend;
  }

  lemma FrontedStarts(to: seq<Octet>)
    ensures Fronted(to, [], to)
  {
  }

  lemma Placed(to: seq<Octet>, done: seq<Octet>, data: seq<Octet>, at: nat, before: seq<Octet>,
               after: seq<Octet>)
    requires at == |done| && |done| + |data| <= |to| == |before| && Fronted(before, done, to)
    requires after == Splice(before, at, data)
    ensures Fronted(after, done + data, to)
  {
  }

  lemma PrependNothing(o: Outcome)
    ensures Prepend([], o) == o
  {
    assert [] + o.data == o.data;
  }

  lemma PrependFailed(a: seq<Octet>, errno: Errno)
    ensures Prepend(a, Failed([], errno)) == Failed(a, errno)
  {
    assert a + [] == a;
  }

  lemma PrependEnds(a: seq<Octet>, data: seq<Octet>)
    ensures Prepend(a, Done(data)) == Done(a + data) && Prepend(a, Failed(data, EBADF)) == Failed(a + data, EBADF)
  {
  }

  lemma Regroup(a: seq<Octet>, b: seq<Octet>, o: Outcome)
    ensures Prepend(a, Prepend(b, o)) == Prepend(a + b, o)
  {
    assert a + (b + o.data) == a + b + o.data;
  }
}
