/**
 The pseudo dual-ported memory of hw/rtl/pdpspram.py: one single-port RAM
 shared by the 6502, which always gets its clock, and a Wishbone master, which
 gets the others. One call of `Clock` is one edge of the memory clock; the
 memory reads before it writes.
*/
module Spram {
  import opened Bytes

  const SIZE := 65536

  type Memory = m: seq<byte> | |m| == SIZE witness seq(SIZE, _ => 0)
  type Word = w: seq<byte> | |w| == 4 witness [0, 0, 0, 0]

  /** A Wishbone request: `stb` and `cyc` are asserted while it is present. The
      address wires have some value even when there is none. */
  datatype Request = Idle(adr: nat) | Request(adr: nat, we: bool, sel: seq<bool>, datW: Word)

  /** The wires coming in during one clock. */
  datatype Input = Input(access: bool, addr: nat, wren: bool, din: byte, bus: Request)

  predicate Proper(i: Input) {
    i.addr < SIZE && (i.bus.Request? ==> |i.bus.sel| == 4)
  }

  /** Registers and memory. `dout` is the memory's output register. */
  datatype State = State(
    mem: Memory, dout: Word, readShift: nat, holdEn: bool, hold: byte, accessWb: bool, ack: bool)

  predicate Shaped(s: State) {
    s.readShift < 4
  }

  // ---------------------------------------------------------------------
  //  Combinational logic
  // ---------------------------------------------------------------------

  /** The word address on the memory's port. */
  function Port(i: Input): (a: nat)
    requires Proper(i)
    ensures a < SIZE / 4
  {
    if i.access then i.addr / 4
    else i.bus.adr % 16384
  }

  function WordAt(m: Memory, a: nat): Word
    requires a < SIZE / 4
  {
    [m[4 * a], m[4 * a + 1], m[4 * a + 2], m[4 * a + 3]]
  }

  /** Whether lane k of the addressed word is written, and with what. */
  predicate WritesLane(i: Input, k: nat)
    requires Proper(i) && k < 4
  {
    if i.access then i.wren && k == i.addr % 4
    else i.bus.Request? && i.bus.we && i.bus.sel[k]
  }

  function LaneData(i: Input, k: nat): byte
    requires Proper(i) && k < 4
  {
    if i.access then i.din
    else if i.bus.Request? then i.bus.datW[k]
    else 0
  }

  function LaneAfter(m: Memory, i: Input, k: nat): byte
    requires Proper(i) && k < 4
  {
    if WritesLane(i, k) then LaneData(i, k) else m[4 * Port(i) + k]
  }

  /** Memory after the clock. */
  function Written(m: Memory, i: Input): Memory
    requires Proper(i)
  {
    var a := Port(i);
    m[4 * a := LaneAfter(m, i, 0)][4 * a + 1 := LaneAfter(m, i, 1)][4 * a + 2 := LaneAfter(m, i, 2)][4 * a + 3 := LaneAfter(m, i, 3)]
  }

  /** The byte the 6502 sees. */
  function Dout6502(s: State): byte
    requires Shaped(s)
  {
    if s.holdEn then s.dout[s.readShift] else s.hold
  }

  // ---------------------------------------------------------------------
  //  The clock
  // ---------------------------------------------------------------------

  function Step(s: State, i: Input): (r: State)
    requires Shaped(s) && Proper(i)
    ensures Shaped(r)
  {
    State(
      Written(s.mem, i),
      WordAt(s.mem, Port(i)),
      i.addr % 4,
      i.access,
      if s.holdEn then s.dout[s.readShift] else s.hold,
      if i.access then s.accessWb else i.bus.Request? && !s.accessWb,
      !i.access && s.accessWb && i.bus.Request?)
  }

  class PdpSpram {
    const mem: array<byte>
    var dout: Word
    var readShift: nat
    var holdEn: bool
    var hold: byte
    var accessWb: bool
    var ack: bool

    ghost predicate Valid()
      reads this
    {
      mem.Length == SIZE && readShift < 4
    }

    ghost function Abs(): (s: State)
      reads this, mem
      requires Valid()
      ensures Shaped(s)
    {
      State(mem[..], dout, readShift, holdEn, hold, accessWb, ack)
    }

    constructor (mem: array<byte>)
      requires mem.Length == SIZE
      ensures Valid() && this.mem == mem && !ack && !accessWb && !holdEn
    {
      this.mem := mem;
      dout, readShift, holdEn, hold, accessWb, ack := [0, 0, 0, 0], 0, false, 0, false, false;
    }

    /** One write port access: the old word comes out, the selected lanes go in. */
    method Access(i: Input) returns (old4: Word)
      requires Valid() && Proper(i)
      modifies mem
      ensures old4 == WordAt(old(mem[..]), Port(i)) && mem[..] == Written(old(mem[..]), i)
    {
      var a := Port(i);
      old4 := [mem[4 * a], mem[4 * a + 1], mem[4 * a + 2], mem[4 * a + 3]];
      for k := 0 to 4
        invariant forall n :: 0 <= n < SIZE && !(4 * a <= n < 4 * a + k) ==> mem[n] == old(mem[n])
        invariant forall j :: 0 <= j < k ==> mem[4 * a + j] == LaneAfter(old(mem[..]), i, j)
      {
        if WritesLane(i, k) {
          mem[4 * a + k] := LaneData(i, k);
        }
      }
      assert mem[..] == Written(old(mem[..]), i);
    }

    /** The synchronous block, after the combinational one has settled. */
    method Clock(i: Input)
      requires Valid() && Proper(i)
      modifies this, mem
      ensures Valid() && Abs() == Step(old(Abs()), i)
    {
      var transparent := dout[readShift];
      var out := Access(i);
      readShift := i.addr % 4;
      if holdEn {
        hold := transparent;
      }
      holdEn := i.access;
      dout := out;
      if i.access {
        ack := false;
      } else {
        ack := accessWb && i.bus.Request?;
        accessWb := i.bus.Request? && !accessWb;
      }
    }
  }

  // ---------------------------------------------------------------------
  //  Runs
  // ---------------------------------------------------------------------

  type Trace = t: seq<Input> | forall k :: 0 <= k < |t| ==> Proper(t[k])

  /** The state before clock n of the trace. */
  function At(s: State, t: Trace, n: nat): (r: State)
    requires Shaped(s) && n <= |t|
    ensures Shaped(r)
  {
    if n == 0 then s else Step(At(s, t, n - 1), t[n - 1])
  }

  /** A byte of memory changes at a clock only if that clock writes it. */
  lemma WriteIsExact(m: Memory, i: Input, n: nat)
    requires Proper(i) && n < SIZE
    ensures Written(m, i)[n] == if n / 4 == Port(i) && WritesLane(i, n % 4) then LaneData(i, n % 4) else m[n]
  {
    assert n == 4 * (n / 4) + n % 4;
  }

  lemma AtStep(s: State, t: Trace, n: nat)
    requires Shaped(s) && n < |t|
    ensures At(s, t, n + 1) == Step(At(s, t, n), t[n])
  {
  }

  // --- the 6502's view -------------------------------------------------

  lemma OwnLane(m: Memory, a: nat)
    requires a < SIZE
    ensures WordAt(m, a / 4)[a % 4] == m[a]
  {
    assert a == 4 * (a / 4) + a % 4;
  }

  /** After its own access the 6502 sees the byte it addressed; after any
      other clock it goes on seeing what it saw. */
  lemma ShownNext(s: State, i: Input)
    requires Shaped(s) && Proper(i)
    ensures Dout6502(Step(s, i)) == if i.access then s.mem[i.addr] else Dout6502(s)
  {
    hide Written;
    if i.access {
      OwnLane(s.mem, i.addr);
    }
  }

  lemma ShownAtNext(s: State, t: Trace, n: nat)
    requires Shaped(s) && n < |t|
    ensures Dout6502(At(s, t, n + 1)) == if t[n].access then At(s, t, n).mem[t[n].addr] else Dout6502(At(s, t, n))
  {
    hide Step;
    AtStep(s, t, n);
    ShownNext(At(s, t, n), t[n]);
  }

  lemma {:induction false} ShownSince(s: State, t: Trace, i: nat, j: nat)
    requires Shaped(s) && i <= j < |t| && t[i].access
    requires forall k :: i < k <= j ==> !t[k].access
    ensures Dout6502(At(s, t, j + 1)) == At(s, t, i).mem[t[i].addr]
    decreases j
  {
    hide *;
    ShownAtNext(s, t, j);
    if i < j {
      ShownSince(s, t, i, j - 1);
    }
  }

  /** From the clock after a 6502 access until its next one, whatever Wishbone
      does meanwhile, the byte shown to the 6502 is the byte that was at its
      address when it had the memory; and what it wrote is there. */
  lemma {:induction false} Sees6502(s: State, t: Trace, i: nat, j: nat)
    requires Shaped(s) && i < j <= |t| && t[i].access
    requires forall k :: i < k < j ==> !t[k].access
    ensures Dout6502(At(s, t, j)) == At(s, t, i).mem[t[i].addr]
    ensures t[i].wren ==> At(s, t, i + 1).mem == At(s, t, i).mem[t[i].addr := t[i].din]
    ensures !t[i].wren ==> At(s, t, i + 1).mem == At(s, t, i).mem
  {
    hide At, Dout6502, Written, Step, WordAt, WritesLane;
    ShownSince(s, t, i, j - 1);
    AtStep(s, t, i);
    StepWrites(At(s, t, i), t[i]);
    WriteOf6502(At(s, t, i).mem, t[i]);
  }

  lemma StepWrites(s: State, i: Input)
    requires Shaped(s) && Proper(i)
    ensures Step(s, i).mem == Written(s.mem, i)
  {
    hide Written, WordAt;
  }

  lemma {:induction false} WriteOf6502(m: Memory, i: Input)
    requires Proper(i) && i.access
    ensures Written(m, i) == if i.wren then m[i.addr := i.din] else m
  {
    forall n | 0 <= n < SIZE ensures Written(m, i)[n] == if n == i.addr && i.wren then i.din else m[n] {
      WriteIsExact(m, i, n);
    }
  }

  // --- the Wishbone's view ---------------------------------------------

  /** No acknowledge while an access is still open. */
  predicate Sound(s: State) {
    Shaped(s) && (s.ack ==> !s.accessWb)
  }

  lemma {:induction false} StaysSound(s: State, t: Trace, n: nat)
    requires Sound(s) && n <= |t|
    ensures Sound(At(s, t, n))
  {
    if n > 0 {
      StaysSound(s, t, n - 1);
    }
  }

  /** A request, once made, is held until it is acknowledged. */
  ghost predicate Holds(s: State, t: Trace)
    requires Shaped(s)
  {
    forall k :: 0 < k < |t| ==> HeldAt(s, t, k)
  }

  predicate HeldAt(s: State, t: Trace, k: nat)
    requires Shaped(s) && 0 < k < |t|
  {
    t[k - 1].bus.Request? && !At(s, t, k - 1).ack ==> t[k].bus == t[k - 1].bus
  }

  /** An acknowledge lasts one clock. */
  lemma AckIsShort(s: State, t: Trace, n: nat)
    requires Sound(s) && n < |t| && At(s, t, n).ack
    ensures !At(s, t, n + 1).ack
  {
    StaysSound(s, t, n);
  }

  /** When a request is acknowledged it is still there, it had the memory at
      the clock before, and what is on the data wires is its word: for a read
      the word as it is in memory now, for a write the new bytes are in. */
  lemma {:induction false} AckMeansDone(s: State, t: Trace, n: nat)
    requires Sound(s) && Holds(s, t) && 0 < n < |t| && At(s, t, n).ack
    ensures t[n].bus.Request? && t[n - 1].bus == t[n].bus && !t[n - 1].access
    ensures var q, now := t[n].bus, At(s, t, n);
      var a := q.adr % 16384;
      && now.dout == WordAt(At(s, t, n - 1).mem, a)
      && (!q.we ==> now.dout == WordAt(now.mem, a))
      && (q.we ==> forall k :: 0 <= k < 4 && q.sel[k] ==> WordAt(now.mem, a)[k] == q.datW[k])
  {
    hide At, Written, WordAt, Step, Port, Holds, HeldAt, Proper, Dout6502;
    StaysSound(s, t, n - 1);
    AtStep(s, t, n - 1);
    AckCame(At(s, t, n - 1), t[n - 1]);
    StaysHeld(s, t, n);
    RequestServed(At(s, t, n - 1).mem, t[n - 1]);
  }

  lemma StaysHeld(s: State, t: Trace, n: nat)
    requires Shaped(s) && Holds(s, t) && 0 < n < |t|
    ensures t[n - 1].bus.Request? && !At(s, t, n - 1).ack ==> t[n].bus == t[n - 1].bus
  {
    hide At;
    assert HeldAt(s, t, n);
  }

  /** The clock that raises the acknowledge. */
  lemma {:induction false} AckCame(s: State, i: Input)
    requires Sound(s) && Proper(i) && Step(s, i).ack
    ensures !i.access && i.bus.Request? && !s.ack
    ensures Step(s, i).dout == WordAt(s.mem, i.bus.adr % 16384) && Step(s, i).mem == Written(s.mem, i)
  {
    hide Written, WordAt;
  }

  /** The word requested, after the clock it had the memory. */
  lemma {:induction false} RequestServed(m: Memory, i: Input)
    requires Proper(i) && !i.access && i.bus.Request?
    ensures var a := i.bus.adr % 16384;
      && (!i.bus.we ==> WordAt(Written(m, i), a) == WordAt(m, a))
      && (i.bus.we ==> forall k :: 0 <= k < 4 && i.bus.sel[k] ==> WordAt(Written(m, i), a)[k] == i.bus.datW[k])
  {
    WordWritten(m, i);
    hide Written, WordAt;
  }

  /** The word a clock has access to, before and after. */
  lemma {:induction false} WordWritten(m: Memory, i: Input)
    requires Proper(i)
    ensures forall k :: 0 <= k < 4 ==> WordAt(Written(m, i), Port(i))[k] == LaneAfter(m, i, k)
    ensures (forall k :: 0 <= k < 4 ==> !WritesLane(i, k)) ==> Written(m, i) == m
  {
    var a := Port(i);
    forall k | 0 <= k < 4 ensures WordAt(Written(m, i), a)[k] == LaneAfter(m, i, k) {
      WriteIsExact(m, i, 4 * a + k);
    }
    if forall k :: 0 <= k < 4 ==> !WritesLane(i, k) {
      forall n | 0 <= n < SIZE ensures Written(m, i)[n] == m[n] {
        WriteIsExact(m, i, n);
      }
    }
  }

  /** The Wishbone side of one clock. */
  lemma BusNext(s: State, t: Trace, i: nat)
    requires Sound(s) && Holds(s, t) && i < |t|
    ensures Shaped(s)
    ensures At(s, t, i).accessWb ==> !At(s, t, i).ack
    ensures At(s, t, i + 1).ack == (!t[i].access && At(s, t, i).accessWb && t[i].bus.Request?)
    ensures At(s, t, i + 1).accessWb ==
      if t[i].access then At(s, t, i).accessWb else t[i].bus.Request? && !At(s, t, i).accessWb
    ensures i + 1 < |t| && t[i].bus.Request? && !At(s, t, i).ack ==> t[i + 1].bus == t[i].bus
  {
    StaysSound(s, t, i);
    AtStep(s, t, i);
    hide At;
    hide Written;
    hide WordAt;
    assert i + 1 < |t| ==> HeldAt(s, t, i + 1);
  }

  /** An open access is acknowledged after the next clock the 6502 leaves. */
  lemma {:induction false} OpenAccessAcks(s: State, t: Trace, i: nat, b: nat) returns (n: nat)
    requires Sound(s) && Holds(s, t) && i <= b < |t| && !t[b].access
    requires t[i].bus.Request? && At(s, t, i).accessWb
    ensures i < n <= b + 1 && At(s, t, n).ack
    decreases b - i
  {
    hide *;
    BusNext(s, t, i);
    if !t[i].access {
      n := i + 1;
    } else {
      n := OpenAccessAcks(s, t, i + 1, b);
    }
  }

  /** Two clocks not taken by the 6502 are enough: a request that is held is
      acknowledged by the clock after the second of them. */
  lemma {:induction false} AckComes(s: State, t: Trace, i: nat, a: nat, b: nat) returns (n: nat)
    requires Sound(s) && Holds(s, t) && i <= a < b < |t| && !t[a].access && !t[b].access
    requires t[i].bus.Request? && !At(s, t, i).ack
    ensures i < n <= b + 1 && At(s, t, n).ack
    decreases b - i
  {
    hide *;
    BusNext(s, t, i);
    if At(s, t, i).accessWb {
      n := OpenAccessAcks(s, t, i, a);
    } else if t[i].access {
      n := AckComes(s, t, i + 1, a, b);
    } else {
      n := OpenAccessAcks(s, t, i + 1, if i < a then a else b);
    }
  }
}
