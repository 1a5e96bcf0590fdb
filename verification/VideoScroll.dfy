/**
 What the host is told when the 6502 scrolls the text screen: two words, told
 of the bus alone.
*/
module VideoScroll {
  import opened Bytes
  import opened VideoFifo
  import R = VideoRuns

  // ---------------------------------------------------------------------
  //  The bus
  // ---------------------------------------------------------------------

  /** An access of the processor to the frame buffer. */
  datatype Op = Load(addr: nat) | Store(addr: nat, code: byte)

  predicate IsFrameBuffer(addr: nat) {
    0x400 <= addr < 0x800 || 0x8400 <= addr < 0x8800
  }

  /** A clock in which the processor does not move or is elsewhere. */
  predicate Quiet(i: Input) {
    i.addr < 0x1_0000 && (!i.clkEn || !i.writable || !IsFrameBuffer(i.addr))
  }

  predicate Shows(i: Input, op: Op) {
    && i.clkEn && i.writable && i.addr == op.addr && IsFrameBuffer(i.addr)
    && match op
       case Load(_) => !i.wren
       case Store(_, code) => i.wren && i.dout == code
  }

  /** The accesses on the bus, any number of quiet clocks between them. */
  predicate Performs(t: seq<Input>, ops: seq<Op>)
    decreases |t|
  {
    if t == [] then ops == []
    else if Quiet(t[0]) then Performs(t[1..], ops)
    else ops != [] && Shows(t[0], ops[0]) && Performs(t[1..], ops[1..])
  }

  /** The words pushed from some registers on. */
  function Words(s: Registers, t: seq<Input>): seq<Word>
    decreases |t|
  {
    if t == [] then [] else Taken(s, t[0]) + Words(Step(s, t[0]), t[1..])
  }

  function Then(s: Registers, t: seq<Input>): Registers
    decreases |t|
  {
    if t == [] then s else Then(Step(s, t[0]), t[1..])
  }

  // ---------------------------------------------------------------------
  //  The scroll
  // ---------------------------------------------------------------------

  /** Cell k of a scroll whose first row is top: from right to left, downwards. */
  function Column(k: nat): nat { 39 - k % 40 }
  function Row(top: nat, k: nat): nat { top + k / 40 }

  function Cell(top: nat, k: nat): nat { ScreenAddress(Column(k), Row(top, k)) }

  /** A character is loaded from one row below and stored; the store reads its
      place before it writes it. */
  function MoveUp(top: nat, k: nat, code: byte): seq<Op> {
    [Load(ScreenAddress(Column(k), Row(top, k) + 1)), Load(Cell(top, k)), Store(Cell(top, k), code)]
  }

  function ScrollOps(top: nat, codes: seq<byte>, k: nat): seq<Op>
    requires k <= |codes|
    decreases |codes| - k
  {
    if k == |codes| then [] else MoveUp(top, k, codes[k]) + ScrollOps(top, codes, k + 1)
  }

  /** No scroll is on, no read is remembered, nothing is owed. */
  predicate Settled(s: Registers) {
    !s.scrollActive && !s.scrollRead && !s.pushSave && !s.prevStart
  }

  /** k cells have been moved, the last one with this character. */
  predicate Moving(s: Registers, top: nat, k: nat, code: byte) {
    && k > 0 && s.scrollActive && !s.scrollRead && !s.pushSave && !s.prevStart
    && s.prev == Pos(Column(k - 1), Row(top, k - 1)) && s.prevChar == code
  }

  lemma {:induction false} QuietDoesNothing(s: Registers, i: Input)
    requires Quiet(i) && !s.pushSave
    ensures Step(s, i) == s && Taken(s, i) == []
  {
    SelectedAddresses(i.addr);
  }

  lemma {:induction false} IsAccess(i: Input, op: Op)
    requires Shows(i, op) && i.addr < 0x1_0000
    ensures op.Load? ==> Reads(i) && !Writes(i)
    ensures op.Store? ==> Writes(i) && !Reads(i) && i.dout == op.code
    ensures i.writable
  {
    SelectedAddresses(i.addr);
  }

  /** The quiet clocks in front of the next access, and this access. */
  lemma {:induction false} NextOp(s: Registers, t: seq<Input>, ops: seq<Op>) returns (i: Input, u: seq<Input>)
    requires Performs(t, ops) && ops != [] && !s.pushSave
    ensures Shows(i, ops[0]) && Performs(u, ops[1..]) && |u| < |t|
    ensures Words(s, t) == Taken(s, i) + Words(Step(s, i), u) && Then(s, t) == Then(Step(s, i), u)
    decreases |t|
  {
    hide Step, Taken;
    if Quiet(t[0]) {
      QuietDoesNothing(s, t[0]);
      i, u := NextOp(s, t[1..], ops);
    } else {
      i, u := t[0], t[1..];
    }
  }

  lemma CellIsInside(top: nat, k: nat)
    requires Row(top, k) < 23
    ensures Column(k) < 40 && Cell(top, k) < 0x800
    ensures ToScreen(Cell(top, k)) == Pos(Column(k), Row(top, k))
    ensures ToScreen(ScreenAddress(Column(k), Row(top, k) + 1)) == Pos(Column(k), Row(top, k) + 1)
    ensures ScreenAddress(Column(k), Row(top, k) + 1) < 0x800
  {
    hide ToScreen, Selects;
    ScreenPosition(Column(k), Row(top, k));
    ScreenPosition(Column(k), Row(top, k) + 1);
  }

  /** The next cell lies to the left, or at the right end of the next row. */
  lemma NextCell(top: nat, k: nat)
    requires k > 0
    ensures (Column(k) + 1 == Column(k - 1) && Row(top, k) == Row(top, k - 1))
      || (Column(k) == 39 && Column(k - 1) == 0 && Row(top, k) == Row(top, k - 1) + 1)
  {
  }

  /** The three accesses that move one cell. */
  lemma {:induction false} CellMoves(s: Registers, a: Input, b: Input, c: Input, top: nat, k: nat, code: byte)
    requires Row(top, k) < 23 && (if k == 0 then Settled(s) else exists before :: Moving(s, top, k, before))
    requires Shows(a, MoveUp(top, k, code)[0]) && Shows(b, MoveUp(top, k, code)[1]) && Shows(c, MoveUp(top, k, code)[2])
    ensures Moving(Step(Step(Step(s, a), b), c), top, k + 1, code)
    ensures Taken(s, a) == [] && Taken(Step(s, a), b) == []
    ensures Taken(Step(Step(s, a), b), c) ==
      if k == 0 then [Word(code, true, false, Pos(Column(0), Row(top, 0)))] else []
  {
    CellIsInside(top, k);
    IsAccess(a, MoveUp(top, k, code)[0]);
    IsAccess(b, MoveUp(top, k, code)[1]);
    IsAccess(c, MoveUp(top, k, code)[2]);
    if k > 0 {
      NextCell(top, k);
    }
    hide ToScreen, ScreenAddress, Selects, Column, Row, IsFrameBuffer;
  }

  lemma {:induction false} OpsOf(top: nat, codes: seq<byte>, k: nat)
    requires k < |codes|
    ensures var ops := ScrollOps(top, codes, k);
      && |ops| >= 3 && ops[..3] == MoveUp(top, k, codes[k]) && ops[1..][1..][1..] == ScrollOps(top, codes, k + 1)
  {
    hide MoveUp;
    assert |MoveUp(top, k, codes[k])| == 3 by { ThreeOps(top, k, codes[k]); }
  }

  lemma ThreeOps(top: nat, k: nat, code: byte)
    ensures |MoveUp(top, k, code)| == 3
  {
  }

  predicate Ready(s: Registers, top: nat, codes: seq<byte>, k: nat)
    requires k <= |codes|
  {
    if k == 0 then Settled(s) else Moving(s, top, k, codes[k - 1])
  }

  function StartWord(top: nat, codes: seq<byte>): Word
    requires codes != []
  {
    Word(codes[0], true, false, Pos(39, top))
  }

  /** Cell after cell: only the first one pushes a word. */
  lemma {:induction false} CellsMove(s: Registers, t: seq<Input>, top: nat, codes: seq<byte>, k: nat, rest: seq<Op>)
    returns (z: Registers, u: seq<Input>)
    requires k <= |codes| && codes != [] && Row(top, |codes| - 1) < 23 && Ready(s, top, codes, k)
    requires Performs(t, ScrollOps(top, codes, k) + rest)
    ensures Performs(u, rest) && Ready(z, top, codes, |codes|)
    ensures Words(s, t) == (if k == 0 then [StartWord(top, codes)] else []) + Words(z, u) && Then(s, t) == Then(z, u)
    decreases |codes| - k
  {
    hide Step, Taken, MoveUp, Shows, Quiet, Performs, Words, Then;
    if k == |codes| {
      assert ScrollOps(top, codes, k) + rest == rest;
      z, u := s, t;
    } else {
      RowsGrow(top, k, |codes| - 1);
      OpsOf(top, codes, k);
      var ops := ScrollOps(top, codes, k) + rest;
      assert ops[1..][1..][1..] == ScrollOps(top, codes, k + 1) + rest;
      ReadyIsQuiet(s, top, codes, k);
      var a, u1 := NextOp(s, t, ops);
      assert ops[..3] == MoveUp(top, k, codes[k]) && ops[1] == ops[1..][0] && ops[2] == ops[1..][1..][0];
      LoadOwesNothing(s, a, ops[0], top, k, codes[k]);
      var b, u2 := NextOp(Step(s, a), u1, ops[1..]);
      LoadOwesNothing(Step(s, a), b, ops[1], top, k, codes[k]);
      var c, u3 := NextOp(Step(Step(s, a), b), u2, ops[1..][1..]);
      CellMoves(s, a, b, c, top, k, codes[k]);
      z, u := CellsMove(Step(Step(Step(s, a), b), c), u3, top, codes, k + 1, rest);
      Gathered(Words(s, t), Taken(s, a), Taken(Step(s, a), b), Taken(Step(Step(s, a), b), c), Words(z, u));
    }
  }

  lemma Gathered(all: seq<Word>, a: seq<Word>, b: seq<Word>, c: seq<Word>, rest: seq<Word>)
    requires all == a + (b + (c + rest)) && a == [] && b == []
    ensures all == c + rest
  {
  }

  lemma RowsGrow(top: nat, k: nat, n: nat)
    requires k <= n
    ensures Row(top, k) <= Row(top, n) && Row(top, 0) == top && Column(0) == 39
  {
  }

  lemma ReadyIsQuiet(s: Registers, top: nat, codes: seq<byte>, k: nat)
    requires k < |codes| && Ready(s, top, codes, k)
    ensures !s.pushSave
    ensures k == 0 ==> Settled(s)
    ensures k > 0 ==> exists before :: Moving(s, top, k, before)
  {
  }

  lemma {:induction false} LoadOwesNothing(s: Registers, i: Input, op: Op, top: nat, k: nat, code: byte)
    requires !s.pushSave && Shows(i, op) && (op == MoveUp(top, k, code)[0] || op == MoveUp(top, k, code)[1])
    ensures !Step(s, i).pushSave
  {
    hide ToScreen, Selects, Above, Follows;
    IsLoad(i, op);
  }

  lemma IsLoad(i: Input, op: Op)
    requires Shows(i, op) && op.Load?
    ensures !Writes(i)
  {
  }

  lemma {:induction false} WordsJoin(s: Registers, t: seq<Input>, u: seq<Input>)
    ensures Words(s, t + u) == Words(s, t) + Words(Then(s, t), u)
    decreases |t|
  {
    hide Step, Taken;
    if t == [] {
      assert t + u == u;
    } else {
      assert (t + u)[1..] == t[1..] + u;
      WordsJoin(Step(s, t[0]), t[1..], u);
    }
  }

  /** The store that ends the scroll, right after it or after reading its own
      place, and the clock behind it. */
  lemma {:induction false} ScrollEnds(s: Registers, w: Input, after: Input, top: nat, n: nat, last: byte, h: nat, v: nat, code: byte)
    requires n > 0 && s.scrollActive && !s.pushSave && !s.prevStart
    requires s.prev == Pos(Column(n - 1), Row(top, n - 1)) && s.prevChar == last
    requires s.scrollRead ==> s.read == Pos(h, v)
    requires h < 40 && v < 24 && Shows(w, Store(ScreenAddress(h, v), code)) && Quiet(after) && after.writable
    ensures Taken(s, w) == [Word(last, false, true, Pos(Column(n - 1), Row(top, n - 1)))]
    ensures Taken(Step(s, w), after) == [Word(code, false, false, Pos(h, v))]
  {
    ScreenPosition(h, v);
    IsAccess(w, Store(ScreenAddress(h, v), code));
    SelectedAddresses(after.addr);
    hide ToScreen, ScreenAddress, Column, Row;
  }

  /** The bus of a scroll: the cells, perhaps a read of the place to be written
      next, quiet clocks anywhere. */
  predicate Scrolls(t: seq<Input>, top: nat, codes: seq<byte>, dummy: bool, h: nat, v: nat) {
    Performs(t, ScrollOps(top, codes, 0) + if dummy then [Load(ScreenAddress(h, v))] else [])
  }

  /** Only quiet clocks. */
  lemma {:induction false} NothingPerformed(s: Registers, t: seq<Input>)
    requires Performs(t, []) && !s.pushSave
    ensures Words(s, t) == [] && Then(s, t) == s
    decreases |t|
  {
    hide Step, Taken;
    if t != [] {
      QuietDoesNothing(s, t[0]);
      NothingPerformed(s, t[1..]);
    }
  }

  /** What the scroll leaves: its start word, and registers that wait for its
      end. */
  lemma {:induction false} ScrollLeaves(s: Registers, t: seq<Input>, top: nat, codes: seq<byte>, dummy: bool, h: nat, v: nat)
    requires Settled(s) && codes != [] && Row(top, |codes| - 1) < 23 && h < 40 && v < 24
    requires Scrolls(t, top, codes, dummy, h, v)
    ensures Words(s, t) == [StartWord(top, codes)]
    ensures var z := Then(s, t); var n := |codes|;
      && z.scrollActive && !z.pushSave && !z.prevStart
      && z.prev == Pos(Column(n - 1), Row(top, n - 1)) && z.prevChar == codes[n - 1]
      && (z.scrollRead ==> z.read == Pos(h, v))
  {
    var rest := if dummy then [Load(ScreenAddress(h, v))] else [];
    var z, u := CellsMove(s, t, top, codes, 0, rest);
    if dummy {
      var i, x := NextOp(z, u, rest);
      assert rest[1..] == [];
      DummyRead(z, i, h, v);
      NothingPerformed(Step(z, i), x);
    } else {
      NothingPerformed(z, u);
    }
  }

  lemma {:induction false} DummyRead(s: Registers, i: Input, h: nat, v: nat)
    requires h < 40 && v < 24 && Shows(i, Load(ScreenAddress(h, v)))
    requires s.scrollActive && !s.scrollRead && !s.pushSave
    ensures Taken(s, i) == [] && Step(s, i) == s.(scrollRead := true, read := Pos(h, v))
  {
    ScreenPosition(h, v);
    IsAccess(i, Load(ScreenAddress(h, v)));
    hide ToScreen, ScreenAddress;
  }

  /** Any scroll, of any rows and characters, from any registers without a
      scroll or a remembered read, with any pauses. The host is told its first
      place, with the character stored there; with the next other store, its
      last place; and, a clock later, that store. */
  lemma {:induction false} ScrollIsTwoWords(s: Registers, t: seq<Input>, w: Input, after: Input, top: nat, codes: seq<byte>,
                                            dummy: bool, h: nat, v: nat, code: byte)
    requires Settled(s) && codes != [] && top + (|codes| - 1) / 40 < 23 && h < 40 && v < 24
    requires Scrolls(t, top, codes, dummy, h, v)
    requires Shows(w, Store(ScreenAddress(h, v), code)) && Quiet(after) && after.writable
    ensures var n := |codes| - 1;
      Words(s, t + [w, after]) == [
        Word(codes[0], true, false, Pos(39, top)),
        Word(codes[n], false, true, Pos(39 - n % 40, top + n / 40)),
        Word(code, false, false, Pos(h, v))]
  {
    hide Step, Taken, Scrolls, Quiet, Shows, ScreenAddress;
    var n := |codes|;
    ScrollLeaves(s, t, top, codes, dummy, h, v);
    var z := Then(s, t);
    ScrollEnds(z, w, after, top, n, codes[n - 1], h, v, code);
    WordsJoin(s, t, [w, after]);
    assert [w, after][1..] == [after] && [after][1..] == [];
    assert Words(Step(Step(z, w), after), []) == [];
    assert Words(Step(z, w), [after]) == Taken(Step(z, w), after);
  }

  // ---------------------------------------------------------------------
  //  On a trace
  // ---------------------------------------------------------------------

  lemma {:induction false} PushedJoins(t: seq<Input>, u: seq<Input>)
    ensures R.Pushed(t + u) == R.Pushed(t) + Words(R.After(t), u) && R.After(t + u) == Then(R.After(t), u)
    decreases |u|
  {
    hide Step, Taken;
    if u == [] {
      assert t + u == t;
    } else {
      var t1 := t + [u[0]];
      assert t1[..|t1| - 1] == t && t1 + u[1..] == t + u;
      PushedJoins(t1, u[1..]);
    }
  }

  /** After any trace, two stores with nothing between them but quiet clocks,
      and one quiet clock, no scroll is on. */
  lemma {:induction false} TwoStoresSettle(t: seq<Input>, u: seq<Input>, a: nat, b: nat, c: byte, d: byte, after: Input)
    requires Performs(u, [Store(a, c), Store(b, d)]) && Quiet(after)
    ensures Settled(R.After(t + u + [after]))
  {
    PushedJoins(t, u);
    PushedJoins(t + u, [after]);
    R.RegistersAgree(t);
    hide R.After, R.Pushed;
    var s := R.After(t);
    assert !s.prevStart;
    StoresSettle(s, u, a, b, c, d);
    var z := Then(s, u);
    assert [after][1..] == [];
    assert Then(z, [after]) == Step(z, after);
    QuietSettles(z, after);
  }

  lemma {:induction false} QuietSettles(s: Registers, i: Input)
    requires Quiet(i) && !s.scrollActive && !s.scrollRead && !s.prevStart
    ensures Settled(Step(s, i))
  {
    SelectedAddresses(i.addr);
  }

  /** A store forgets what was read. */
  lemma {:induction false} StoresSettle(s: Registers, u: seq<Input>, a: nat, b: nat, c: byte, d: byte)
    requires Performs(u, [Store(a, c), Store(b, d)]) && !s.prevStart
    ensures var z := Then(s, u); !z.scrollActive && !z.scrollRead && !z.prevStart
    decreases |u|
  {
    hide ToScreen, Above, Follows;
    var ops := [Store(a, c), Store(b, d)];
    assert ops[1..] == [Store(b, d)];
    SelectedAddresses(u[0].addr);
    if Quiet(u[0]) {
      StoresSettle(Step(s, u[0]), u[1..], a, b, c, d);
    } else {
      StoreSettles(Step(s, u[0]), u[1..], b, d);
    }
  }

  lemma {:induction false} StoreSettles(s: Registers, u: seq<Input>, b: nat, d: byte)
    requires Performs(u, [Store(b, d)]) && !s.prevStart && !s.scrollRead
    ensures var z := Then(s, u); !z.scrollActive && !z.scrollRead && !z.prevStart
    decreases |u|
  {
    hide ToScreen, Above, Follows;
    assert [Store(b, d)][1..] == [];
    SelectedAddresses(u[0].addr);
    if Quiet(u[0]) {
      StoreSettles(Step(s, u[0]), u[1..], b, d);
    } else {
      StaysSettled(Step(s, u[0]), u[1..]);
    }
  }

  lemma {:induction false} StaysSettled(s: Registers, u: seq<Input>)
    requires Performs(u, []) && !s.scrollActive && !s.scrollRead && !s.prevStart
    ensures var z := Then(s, u); !z.scrollActive && !z.scrollRead && !z.prevStart
    decreases |u|
  {
    hide ToScreen, Above, Follows;
    if u != [] {
      SelectedAddresses(u[0].addr);
      StaysSettled(Step(s, u[0]), u[1..]);
    }
  }

  /** The same in the stream of a whole trace. */
  lemma {:induction false} ScrollInStream(before: seq<Input>, t: seq<Input>, w: Input, after: Input, top: nat, codes: seq<byte>,
                                          dummy: bool, h: nat, v: nat, code: byte)
    requires Settled(R.After(before)) && codes != [] && top + (|codes| - 1) / 40 < 23 && h < 40 && v < 24
    requires Scrolls(t, top, codes, dummy, h, v)
    requires Shows(w, Store(ScreenAddress(h, v), code)) && Quiet(after) && after.writable
    ensures var n := |codes| - 1;
      R.Pushed(before + (t + [w, after])) == R.Pushed(before) + [
        Word(codes[0], true, false, Pos(39, top)),
        Word(codes[n], false, true, Pos(39 - n % 40, top + n / 40)),
        Word(code, false, false, Pos(h, v))]
  {
    hide Scrolls, Quiet, Shows, R.Pushed, R.After, Words;
    PushedJoins(before, t + [w, after]);
    ScrollIsTwoWords(R.After(before), t, w, after, top, codes, dummy, h, v, code);
  }
}
