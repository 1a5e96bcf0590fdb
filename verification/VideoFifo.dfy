/**
 The text-mode video output of hw/rtl/apple2.py: frame-buffer accesses of the
 6502 are turned into screen positions, scrolling is recognised, and what is
 left is pushed into the display FIFO. One `Clock` is one system clock.
*/
module VideoFifo {
  import opened Bytes

  datatype Pos = Pos(h: nat, v: nat)

  /** A FIFO entry: character, flags, position. */
  datatype Word = Word(code: byte, start: bool, end: bool, pos: Pos)

  /** The wires of one clock: the CPU enable, room in the FIFO, the bus. */
  datatype Input = Input(clkEn: bool, writable: bool, addr: nat, wren: bool, dout: byte)

  datatype Registers = Registers(
    scrollActive: bool, scrollRead: bool, read: Pos, prev: Pos, prevChar: byte, prevStart: bool, pushSave: bool)

  const RESET := Registers(false, false, Pos(0, 0), Pos(0, 0), 0, false, false)

  // ---------------------------------------------------------------------
  //  Combinational logic
  // ---------------------------------------------------------------------

  /** Bits 10 to 14 of the address are 00001; bit 15 is not looked at. */
  predicate Selects(addr: nat) {
    addr / 0x400 % 32 == 1
  }

  /** Row and column of a frame-buffer address. */
  function ToScreen(addr: nat): Pos {
    var segment, triple := addr / 128 % 8, addr % 128;
    if triple >= 80 then Pos(triple - 80, segment + 16)
    else if triple >= 40 then Pos(triple - 40, segment + 8)
    else Pos(triple, segment)
  }

  /** The processor only moves when the FIFO has room. */
  predicate Active(i: Input) { i.clkEn && i.writable }
  predicate Reads(i: Input) { Active(i) && Selects(i.addr) && !i.wren }
  predicate Writes(i: Input) { Active(i) && Selects(i.addr) && i.wren }

  /** p lies directly above q. */
  predicate Above(p: Pos, q: Pos) {
    p.h == q.h && p.v + 1 == q.v
  }

  /** p is what a scroll, going right to left and down, writes after q. */
  predicate Follows(p: Pos, q: Pos) {
    (p.h + 1 == q.h && p.v == q.v) || (p.h == 39 && q.h == 0 && p.v == q.v + 1)
  }

  predicate ScrollWrite(s: Registers, i: Input) {
    s.scrollRead && Writes(i) && Above(ToScreen(i.addr), s.read)
  }

  predicate ScrollStart(s: Registers, i: Input) { ScrollWrite(s, i) && !s.scrollActive }
  predicate ScrollEnd(s: Registers, i: Input) { s.scrollActive && Writes(i) && !ScrollWrite(s, i) }
  predicate PushSaving(s: Registers, i: Input) { ScrollEnd(s, i) && !s.pushSave }

  predicate Pushes(s: Registers, i: Input) {
    s.pushSave || ScrollStart(s, i) || ScrollEnd(s, i) || (Writes(i) && !s.scrollActive)
  }

  /** The word on the FIFO's input. */
  function Din(s: Registers, i: Input): Word {
    if s.pushSave then Word(s.prevChar, s.prevStart, ScrollEnd(s, i), s.prev)
    else if PushSaving(s, i) then Word(s.prevChar, ScrollStart(s, i), ScrollEnd(s, i), s.prev)
    else Word(i.dout, ScrollStart(s, i), ScrollEnd(s, i), ToScreen(i.addr))
  }

  // ---------------------------------------------------------------------
  //  The clock
  // ---------------------------------------------------------------------

  /** A read is remembered unless one already is and this is taken for the
      dummy read of a store. */
  predicate Remembers(s: Registers, p: Pos) {
    !(s.scrollRead && (Follows(p, s.prev) || !s.scrollActive))
  }

  function Step(s: Registers, i: Input): Registers {
    var p := ToScreen(i.addr);
    var take := Reads(i) && Remembers(s, p);
    Registers(
      if ScrollEnd(s, i) then false else s.scrollActive || ScrollStart(s, i),
      if Writes(i) then false else s.scrollRead || take,
      if take then p else s.read,
      if Writes(i) then p else s.prev,
      if Writes(i) then i.dout else s.prevChar,
      if ScrollEnd(s, i) then ScrollStart(s, i) else s.prevStart,
      !s.pushSave && ScrollEnd(s, i))
  }

  /** What the FIFO takes in: it ignores a push when it is full. */
  function Taken(s: Registers, i: Input): seq<Word> {
    if Pushes(s, i) && i.writable then [Din(s, i)] else []
  }

  class VideoDriver {
    var scrollActive: bool
    var scrollRead: bool
    var read: Pos
    var prev: Pos
    var prevChar: byte
    var prevStart: bool
    var pushSave: bool
    var fifo: seq<Word>

    ghost function Abs(): Registers
      reads this
    {
      Registers(scrollActive, scrollRead, read, prev, prevChar, prevStart, pushSave)
    }

    constructor ()
      ensures Abs() == RESET && fifo == []
    {
      scrollActive, scrollRead, read, prev, prevChar := false, false, Pos(0, 0), Pos(0, 0), 0;
      prevStart, pushSave, fifo := false, false, [];
    }

    /** The synchronous block. Every right-hand side is the value before the
        clock; of two assignments to a register the later one counts. */
    method Clock(i: Input)
      modifies this
      ensures Abs() == Step(old(Abs()), i)
      ensures fifo == old(fifo) + Taken(old(Abs()), i)
    {
      var p := ToScreen(i.addr);
      var fbR, fbW := Reads(i), Writes(i);
      var sequential, active := Follows(p, prev), scrollActive;
      var valid := scrollRead && fbW && Above(p, read);
      var start, end := valid && !active, active && fbW && !valid;
      var saving := end && !pushSave;
      var save := pushSave;
      if save || start || end || (fbW && !active) {
        if i.writable {
          if save {
            fifo := fifo + [Word(prevChar, prevStart, end, prev)];
          } else if saving {
            fifo := fifo + [Word(prevChar, start, end, prev)];
          } else {
            fifo := fifo + [Word(i.dout, start, end, p)];
          }
        }
      }
      if start {
        scrollActive := true;
      }
      if end {
        pushSave := true;
        scrollActive := false;
        prevStart := start;
      }
      if fbR {
        if scrollRead && (sequential || !active) {
        } else {
          scrollRead := true;
          read := p;
        }
      }
      if fbW {
        scrollRead := false;
        prev := p;
        prevChar := i.dout;
      }
      if save {
        pushSave := false;
      }
    }
  }

  // ---------------------------------------------------------------------
  //  Addresses
  // ---------------------------------------------------------------------

  /** Where row v, column h of the text screen is kept. */
  function ScreenAddress(h: nat, v: nat): nat {
    0x400 + 128 * (v % 8) + 40 * (v / 8) + h
  }

  /** The conversion undoes the screen layout... */
  lemma ScreenPosition(h: nat, v: nat)
    requires h < 40 && v < 24
    ensures Selects(ScreenAddress(h, v)) && ToScreen(ScreenAddress(h, v)) == Pos(h, v)
  {
    var a := ScreenAddress(h, v);
    assert a == 0x400 + 128 * (v % 8) + (40 * (v / 8) + h);
    assert a / 128 == 8 + v % 8 && a % 128 == 40 * (v / 8) + h;
  }

  /** ... and every address of the page outside the eight-byte holes is one
      screen position. */
  lemma ScreenAddressOf(a: nat)
    requires 0x400 <= a < 0x800 && a % 128 < 120
    ensures var p := ToScreen(a); p.h < 40 && p.v < 24 && ScreenAddress(p.h, p.v) == a
  {
    var segment, triple := a / 128 % 8, a % 128;
    assert a == 0x400 + 128 * segment + triple;
  }

  /** The frame buffer is not all that is selected: 0x8400-0x87FF is too. */
  lemma SelectedAddresses(a: nat)
    requires a < 0x10000
    ensures Selects(a) <==> 0x400 <= a < 0x800 || 0x8400 <= a < 0x8800
  {
  }
}
