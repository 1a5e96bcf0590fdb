/** The words pushed over a run are the accesses of the run, compressed. */
module VideoRuns {
  import opened Bytes
  import opened VideoFifo

  // ---------------------------------------------------------------------
  //  Reference: accesses to words
  // ---------------------------------------------------------------------

  datatype Access = R(pos: Pos) | W(pos: Pos, code: byte)

  /** A write, and whether it moves a character one line up. */
  datatype Mark = Mark(pos: Pos, code: byte, scrolls: bool)

  function Plain(m: Mark): Word { Word(m.code, false, false, m.pos) }
  function Start(m: Mark): Word { Word(m.code, true, false, m.pos) }
  function End(m: Mark): Word { Word(m.code, false, true, m.pos) }

  /** Writes that scroll, from the front. */
  function RunLength(ms: seq<Mark>): (n: nat)
    ensures n <= |ms|
  {
    if ms == [] || !ms[0].scrolls then 0 else 1 + RunLength(ms[1..])
  }

  /** The run is all scrolling, and what follows it is not. */
  lemma {:induction false} RunIsMaximal(ms: seq<Mark>)
    ensures forall i :: 0 <= i < RunLength(ms) ==> ms[i].scrolls
    ensures RunLength(ms) < |ms| ==> !ms[RunLength(ms)].scrolls
  {
    if ms != [] && ms[0].scrolls {
      RunIsMaximal(ms[1..]);
    }
  }

  /** An ordinary write is a word; a maximal run of scrolling writes is one
      start word at its first position and, once it is over, one end word at
      its last. */
  function FirstWords(ms: seq<Mark>): seq<Word>
    requires ms != []
  {
    if !ms[0].scrolls then [Plain(ms[0])]
    else if RunLength(ms) < |ms| then [Start(ms[0]), End(ms[RunLength(ms) - 1])]
    else [Start(ms[0])]
  }

  function Cut(ms: seq<Mark>): (n: nat)
    requires ms != []
    ensures 0 < n <= |ms|
  {
    if ms[0].scrolls then RunLength(ms) else 1
  }

  function Compress(ms: seq<Mark>): seq<Word>
    decreases |ms|
  {
    if ms == [] then [] else FirstWords(ms) + Compress(ms[Cut(ms)..])
  }

  /** Positions read since the last write. */
  function Since(acc: seq<Access>): seq<Pos> {
    if acc == [] then []
    else
      var n := |acc| - 1;
      match acc[n]
      case R(p) => Since(acc[..n]) + [p]
      case W(_, _) => []
  }

  /** The read that counts: the first one; within a scroll, a later one
      replaces it unless it reads where the scroll will write next. */
  function Counts(seen: seq<Pos>, scrolling: bool, last: Pos): Option<Pos> {
    if seen == [] then None
    else
      var n := |seen| - 1;
      var before := Counts(seen[..n], scrolling, last);
      if before.None? || (scrolling && !Follows(seen[n], last)) then Some(seen[n]) else before
  }

  function Marks(acc: seq<Access>): seq<Mark> {
    if acc == [] then []
    else
      var n := |acc| - 1;
      var before := Marks(acc[..n]);
      match acc[n]
      case R(_) => before
      case W(p, c) => before + [Mark(p, c, Moves(before, Since(acc[..n]), p))]
  }

  predicate Scrolling(ms: seq<Mark>) {
    ms != [] && ms[|ms| - 1].scrolls
  }

  function Last(ms: seq<Mark>): Pos {
    if ms == [] then RESET.prev else ms[|ms| - 1].pos
  }

  /** The write at p moves up the character read below it. */
  predicate Moves(before: seq<Mark>, seen: seq<Pos>, p: Pos) {
    var r := Counts(seen, Scrolling(before), Last(before));
    r.Some? && Above(p, r.value)
  }

  // ---------------------------------------------------------------------
  //  Runs
  // ---------------------------------------------------------------------

  function After(t: seq<Input>): Registers {
    if t == [] then RESET else Step(After(t[..|t| - 1]), t[|t| - 1])
  }

  function Pushed(t: seq<Input>): seq<Word> {
    if t == [] then [] else Pushed(t[..|t| - 1]) + Taken(After(t[..|t| - 1]), t[|t| - 1])
  }

  function Accesses(t: seq<Input>): seq<Access> {
    if t == [] then []
    else
      var i := t[|t| - 1];
      Accesses(t[..|t| - 1])
      + (if Reads(i) then [R(ToScreen(i.addr))] else if Writes(i) then [W(ToScreen(i.addr), i.dout)] else [])
  }

  /** The run ends with a write that ends a scroll: the write before it moved a
      character up, this one does not. */
  predicate EndsScroll(t: seq<Input>) {
    && t != [] && Writes(t[|t| - 1])
    && Scrolling(Marks(Accesses(t[..|t| - 1]))) && !Scrolling(Marks(Accesses(t)))
  }

  /** The word of that write, which follows a clock later. */
  function Owed(t: seq<Input>): seq<Word> {
    if EndsScroll(t) then [Word(t[|t| - 1].dout, false, false, ToScreen(t[|t| - 1].addr))] else []
  }

  /** Words that are not pushed. The word of a write that ends a scroll meets a
      full FIFO, or takes the place of the word of a write in the clock after. */
  function Lost(t: seq<Input>): nat {
    if t == [] then 0
    else
      var i := t[|t| - 1];
      Lost(t[..|t| - 1]) + (if EndsScroll(t[..|t| - 1]) && (!i.writable || Writes(i)) then 1 else 0)
  }

  /** No frame-buffer write in the clock after another, and room for the second
      word of every scroll end. */
  ghost predicate Roomy(t: seq<Input>) {
    && (forall k, m :: 0 <= k < m < |t| && m == k + 1 ==> !(Writes(t[k]) && Writes(t[m])))
    && (forall k :: 0 <= k < |t| && EndsScroll(t[..k]) ==> t[k].writable)
  }

  /** The word the registers hold for the next clock. */
  function Waiting(s: Registers): seq<Word> {
    if s.pushSave then [Word(s.prevChar, false, false, s.prev)] else []
  }

  // ---------------------------------------------------------------------
  //  Proof
  // ---------------------------------------------------------------------

  /** What one more write adds to the compressed stream. */
  function Adds(ms: seq<Mark>, m: Mark): seq<Word> {
    if m.scrolls then (if Scrolling(ms) then [] else [Start(m)])
    else if Scrolling(ms) then [End(ms[|ms| - 1]), Plain(m)]
    else [Plain(m)]
  }

  lemma {:induction false} RunGrows(ms: seq<Mark>, m: Mark)
    ensures RunLength(ms + [m]) == if RunLength(ms) < |ms| || !m.scrolls then RunLength(ms) else |ms| + 1
    decreases |ms|
  {
    var all := ms + [m];
    if ms == [] {
      assert all[1..] == [];
    } else if ms[0].scrolls {
      assert all[1..] == ms[1..] + [m];
      RunGrows(ms[1..], m);
    }
  }

  lemma {:induction false} AddsToTail(ms: seq<Mark>, m: Mark, k: nat)
    requires k < |ms| || (k == |ms| && !Scrolling(ms))
    ensures Adds(ms[k..], m) == Adds(ms, m)
  {
    hide Plain, Start, End;
  }

  /** ms is one run, which m continues or ends. */
  lemma {:induction false} OpenGrows(ms: seq<Mark>, m: Mark)
    requires ms != [] && ms[0].scrolls && RunLength(ms) == |ms|
    ensures Compress(ms) == [Start(ms[0])] && Compress(ms + [m]) == [Start(ms[0])] + Adds(ms, m)
  {
    hide Plain, Start, End, RunLength;
    RunGrows(ms, m);
    LastScrolls(ms);
    var all, n := ms + [m], |ms|;
    assert ms[n..] == [] && all[n..] == [m] && all[n + 1..] == [] && [m][1..] == [];
  }

  lemma {:induction false} LastScrolls(ms: seq<Mark>)
    requires ms != [] && RunLength(ms) == |ms|
    ensures Scrolling(ms)
  {
    RunIsMaximal(ms);
  }

  lemma {:induction false} FirstStays(ms: seq<Mark>, m: Mark)
    requires ms != [] && !(ms[0].scrolls && RunLength(ms) == |ms|)
    ensures FirstWords(ms + [m]) == FirstWords(ms) && Cut(ms + [m]) == Cut(ms)
    ensures (ms + [m])[Cut(ms)..] == ms[Cut(ms)..] + [m]
  {
    hide Plain, Start, End, RunLength;
    RunGrows(ms, m);
  }

  lemma {:induction false} CompressGrows(ms: seq<Mark>, m: Mark)
    ensures Compress(ms + [m]) == Compress(ms) + Adds(ms, m)
    decreases |ms|
  {
    if ms == [] {
      assert [m][1..] == [] && ms + [m] == [m];
    } else {
      hide Plain, Start, End, FirstWords, Cut, Adds, RunLength;
      if ms[0].scrolls && RunLength(ms) == |ms| {
        OpenGrows(ms, m);
      } else {
        CutInside(ms);
        FirstStays(ms, m);
        CompressGrows(ms[Cut(ms)..], m);
        AddsToTail(ms, m, Cut(ms));
      }
    }
  }

  lemma {:induction false} CutInside(ms: seq<Mark>)
    requires ms != [] && !(ms[0].scrolls && RunLength(ms) == |ms|)
    ensures Cut(ms) < |ms| || (Cut(ms) == |ms| && !Scrolling(ms))
  {
  }

  /** The registers are the reference's view of the accesses so far. */
  ghost predicate Agrees(s: Registers, acc: seq<Access>) {
    var ms := Marks(acc);
    var r := Counts(Since(acc), Scrolling(ms), Last(ms));
    && (s.scrollActive <==> Scrolling(ms))
    && s.prev == Last(ms)
    && (ms != [] ==> s.prevChar == ms[|ms| - 1].code)
    && (s.scrollRead <==> r.Some?) && (r.Some? ==> s.read == r.value)
    && !s.prevStart && !(s.pushSave && s.scrollActive)
  }

  lemma {:induction false} ReadAgrees(s: Registers, i: Input, acc: seq<Access>)
    requires Agrees(s, acc) && Reads(i)
    ensures Agrees(Step(s, i), acc + [R(ToScreen(i.addr))])
  {
    var more := acc + [R(ToScreen(i.addr))];
    assert more[..|acc|] == acc;
    var seen := Since(more);
    assert seen == Since(acc) + [ToScreen(i.addr)] && seen[..|seen| - 1] == Since(acc);
  }

  lemma {:induction false} WriteAgrees(s: Registers, i: Input, acc: seq<Access>)
    requires Agrees(s, acc) && Writes(i)
    ensures var m := Mark(ToScreen(i.addr), i.dout, ScrollWrite(s, i));
      && Marks(acc + [W(m.pos, m.code)]) == Marks(acc) + [m]
      && Agrees(Step(s, i), acc + [W(m.pos, m.code)])
      && (!s.pushSave ==> Taken(s, i) + Waiting(Step(s, i)) == Adds(Marks(acc), m))
      && (s.pushSave ==> Taken(s, i) == Waiting(s) && Waiting(Step(s, i)) == [] && |Adds(Marks(acc), m)| == 1)
  {
    var more := acc + [W(ToScreen(i.addr), i.dout)];
    assert more[..|acc|] == acc;
  }

  lemma {:induction false} WriteAdds(s: Registers, i: Input, acc: seq<Access>)
    requires Agrees(s, acc) && Writes(i)
    ensures var more := acc + [W(ToScreen(i.addr), i.dout)];
      && (!s.pushSave ==> Compress(Marks(more)) == Compress(Marks(acc)) + Taken(s, i) + Waiting(Step(s, i)))
      && (s.pushSave ==>
          && Taken(s, i) == Waiting(s) && Waiting(Step(s, i)) == []
          && |Compress(Marks(more))| == |Compress(Marks(acc))| + 1)
  {
    hide Compress, Step, Taken;
    WriteAgrees(s, i, acc);
    CompressGrows(Marks(acc), Mark(ToScreen(i.addr), i.dout, ScrollWrite(s, i)));
  }

  lemma {:induction false} QuietAgrees(s: Registers, i: Input, acc: seq<Access>)
    requires Agrees(s, acc) && !Writes(i)
    ensures Taken(s, i) == if i.writable then Waiting(s) else []
    ensures Waiting(Step(s, i)) == []
    ensures !Reads(i) ==> Agrees(Step(s, i), acc)
  {
  }

  lemma {:induction false} RegistersAgree(t: seq<Input>)
    ensures Agrees(After(t), Accesses(t))
    decreases |t|
  {
    if t != [] {
      hide Agrees, Step, Writes, Reads;
      var n := |t| - 1;
      var i, s, acc := t[n], After(t[..n]), Accesses(t[..n]);
      RegistersAgree(t[..n]);
      if Writes(i) {
        OnlyWrites(i);
        WriteAgrees(s, i, acc);
      } else if Reads(i) {
        ReadAgrees(s, i, acc);
      } else {
        QuietAgrees(s, i, acc);
        assert Accesses(t) == acc;
      }
    } else {
      NothingAgrees();
    }
  }

  lemma NothingAgrees()
    ensures Agrees(RESET, [])
  {
  }

  /** The register that delays a word is set exactly after a write that ends a
      scroll, and the word it delays is that of the write. */
  lemma {:induction false} SaveIsScrollEnd(t: seq<Input>)
    ensures After(t).pushSave <==> EndsScroll(t)
    ensures Waiting(After(t)) == Owed(t)
  {
    if t != [] {
      hide Accesses, Marks, Counts, ToScreen, Above, Scrolling;
      RegistersAgree(t[..|t| - 1]);
      RegistersAgree(t);
    }
  }

  /** What one clock adds to the run. */
  lemma Grows(t: seq<Input>, i: Input)
    ensures var s := After(t);
      && After(t + [i]) == Step(s, i)
      && Pushed(t + [i]) == Pushed(t) + Taken(s, i)
      && Lost(t + [i]) == Lost(t) + (if s.pushSave && (!i.writable || Writes(i)) then 1 else 0)
      && Accesses(t + [i])
        == Accesses(t) + (if Reads(i) then [R(ToScreen(i.addr))] else if Writes(i) then [W(ToScreen(i.addr), i.dout)] else [])
  {
    hide Step, Taken, Writes, Reads, EndsScroll;
    assert (t + [i])[..|t|] == t;
    SaveIsScrollEnd(t);
  }

  lemma ReadKeepsMarks(acc: seq<Access>, p: Pos)
    ensures Marks(acc + [R(p)]) == Marks(acc)
  {
    assert (acc + [R(p)])[..|acc|] == acc;
  }

  /** The words pushed and still to be pushed are c, but for those lost. */
  predicate Exact(pushed: seq<Word>, waiting: seq<Word>, lost: nat, c: seq<Word>) {
    && |pushed| + |waiting| + lost == |c|
    && (lost == 0 <==> pushed + waiting == c)
  }

  lemma ExactWrite(p: seq<Word>, taken: seq<Word>, waiting: seq<Word>, lost: nat, c: seq<Word>, more: seq<Word>)
    requires Exact(p, [], lost, c) && more == c + taken + waiting
    ensures Exact(p + taken, waiting, lost, more)
  {
    assert p + [] == p;
    assert c[..|c|] == c && (c + (taken + waiting))[..|c|] == c;
    assert p + taken + waiting == p + (taken + waiting) && more == c + (taken + waiting);
    if p + taken + waiting == more && |p| == |c| {
      assert p == more[..|p|];
    }
  }

  lemma ExactQuiet(p: seq<Word>, waiting: seq<Word>, taken: seq<Word>, lost: nat, room: bool, c: seq<Word>)
    requires Exact(p, waiting, lost, c) && |waiting| <= 1 && taken == if room then waiting else []
    ensures Exact(p + taken, [], lost + (if waiting != [] && !room then 1 else 0), c)
  {
    assert p + taken + [] == p + taken;
  }

  predicate Compressed(t: seq<Input>) {
    Exact(Pushed(t), Waiting(After(t)), Lost(t), Compress(Marks(Accesses(t))))
  }

  lemma ExactOverrun(p: seq<Word>, waiting: seq<Word>, lost: nat, c: seq<Word>, more: seq<Word>)
    requires Exact(p, waiting, lost, c) && |more| == |c| + 1
    ensures Exact(p + waiting, [], lost + 1, more)
  {
  }

  lemma {:induction false} WriteCompressed(t: seq<Input>, i: Input)
    requires Compressed(t) && Agrees(After(t), Accesses(t)) && Writes(i)
    ensures Compressed(t + [i])
  {
    hide Compress, Marks, Agrees, Step, Taken, Exact, After, Pushed, Lost, Accesses, ToScreen, Writes;
    var s, acc := After(t), Accesses(t);
    Grows(t, i);
    OnlyWrites(i);
    WriteAdds(s, i, acc);
    var m := W(ToScreen(i.addr), i.dout);
    if s.pushSave {
      ExactOverrun(Pushed(t), Waiting(s), Lost(t), Compress(Marks(acc)), Compress(Marks(acc + [m])));
    } else {
      ExactWrite(Pushed(t), Taken(s, i), Waiting(Step(s, i)), Lost(t), Compress(Marks(acc)), Compress(Marks(acc + [m])));
    }
  }

  lemma {:induction false} QuietCompressed(t: seq<Input>, i: Input)
    requires Compressed(t) && Agrees(After(t), Accesses(t)) && !Writes(i)
    ensures Compressed(t + [i])
  {
    hide Compress, Marks, Agrees, Step, Taken, Exact, After, Pushed, Lost, Accesses, ToScreen, Writes, Reads;
    var s, acc := After(t), Accesses(t);
    Grows(t, i);
    QuietAgrees(s, i, acc);
    ExactQuiet(Pushed(t), Waiting(s), Taken(s, i), Lost(t), i.writable, Compress(Marks(acc)));
    ReadKeepsMarks(acc, ToScreen(i.addr));
    assert acc + [] == acc;
  }

  lemma OnlyWrites(i: Input)
    requires Writes(i)
    ensures !Reads(i)
  {
  }

  lemma {:induction false} AlwaysCompressed(t: seq<Input>)
    ensures Compressed(t)
    decreases |t|
  {
    if t != [] {
      hide Compressed, Agrees, Step, Accesses, Writes;
      var n := |t| - 1;
      AlwaysCompressed(t[..n]);
      RegistersAgree(t[..n]);
      assert t == t[..n] + [t[n]];
      if Writes(t[n]) {
        WriteCompressed(t[..n], t[n]);
      } else {
        QuietCompressed(t[..n], t[n]);
      }
    }
  }

  /** On every trace: the stream is the compressed accesses if and only if no
      word was lost; every loss shortens it by one. */
  lemma {:induction false} StreamIsCompressed(t: seq<Input>)
    ensures |Pushed(t)| + |Owed(t)| + Lost(t) == |Compress(Marks(Accesses(t)))|
    ensures Lost(t) == 0 <==> Pushed(t) + Owed(t) == Compress(Marks(Accesses(t)))
  {
    hide Pushed, Waiting, Owed, After, Lost, Compress, Marks, Accesses;
    AlwaysCompressed(t);
    SaveIsScrollEnd(t);
  }

  /** Nothing is lost if frame-buffer writes are never in adjacent clocks and
      the FIFO has two places at each scroll end. */
  lemma {:induction false} NothingLost(t: seq<Input>)
    requires Roomy(t)
    ensures Lost(t) == 0
    decreases |t|
  {
    if t != [] {
      RoomyBefore(t);
      NothingLost(t[..|t| - 1]);
      hide Roomy, Writes, Accesses, Marks;
    }
  }

  lemma {:induction false} RoomyBefore(t: seq<Input>)
    requires Roomy(t) && t != []
    ensures Roomy(t[..|t| - 1])
    ensures |t| > 1 && Writes(t[|t| - 2]) ==> !Writes(t[|t| - 1])
    ensures EndsScroll(t[..|t| - 1]) ==> t[|t| - 1].writable
  {
    hide Writes, EndsScroll;
    var n := |t| - 1;
    var u := t[..n];
    assert forall k :: 0 <= k < n ==> u[..k] == t[..k];
  }
}
