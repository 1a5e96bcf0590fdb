/** The transmit task of sw/src/morse.c: one call each time its timer ends. */
module MorseSend {
  import opened Bytes
  import opened Morse

  datatype Phase = IDLE | START | STOP | CHARACTER | SPACE

  /** `morse_state`, `current_pattern`, `current_bit`, `morse_on`. */
  datatype Sender = Sender(phase: Phase, pattern: byte, bit: byte, on: bool)

  const RESET := Sender(IDLE, 0, 0, false)

  /** The light, on or off, for a number of units. */
  datatype Pulse = Pulse(on: bool, units: nat)

  /** The pattern for a character taken from the output stream; 0 is none. */
  function Coded(code: nat): byte {
    if code == 13 || code == 10 then END_CODE
    else if code == 0 then 0
    else MorseHw(((if code > 96 then code - 32 else code) - 32) % 64)
  }

  /** The highest bit of p at or below b. */
  function HighBit(p: byte, b: byte): byte
    decreases b
  {
    if b == 0 || p & b != 0 then b else HighBit(p, b >> 1)
  }

  /** A dah or a dit. */
  function Length(p: byte, bit: byte): nat {
    if p & bit != 0 then 3 else 1
  }

  function Lit(p: byte, bit: byte): Pulse { Pulse(true, Length(p, bit)) }

  /** The call will look for a character. */
  predicate Dequeues(s: Sender) {
    s.phase == IDLE || (!s.on && s.bit >> 1 == 0)
  }

  /** The call sends the first signal of pattern p. */
  function FirstSignal(phase: Phase, p: byte): (Sender, seq<Pulse>) {
    var bit := HighBit(p, 0x80) >> 1;
    (Sender(phase, p, bit, true), [Lit(p, bit)])
  }

  /** One call, where next is the pattern dequeued if one is looked for. */
  function Call(s: Sender, next: byte): (Sender, seq<Pulse>) {
    if s.phase == IDLE then
      if next == 0 then (s.(pattern := 0), [])
      else if next == SPACE_CODE then (Sender(START, START_CODE, 0x0F, false), [Pulse(false, 1)])
      else (Sender(CHARACTER, next, HighBit(next, 0x80), false), [Pulse(false, 1)])
    else if s.on then
      if s.bit != 1 then (s.(on := false), [Pulse(false, SYMBOL_SPACE)])
      else if s.phase == START then (s.(on := false, phase := SPACE), [Pulse(false, WORD_SPACE)])
      else if s.phase == STOP then (s.(on := false, phase := IDLE), [Pulse(false, WORD_SPACE)])
      else (s.(on := false), [Pulse(false, LETTER_SPACE)])
    else
      var bit := s.bit >> 1;
      if bit != 0 then (s.(bit := bit, on := true), [Lit(s.pattern, bit)])
      else if next == 0 then
        if s.phase == SPACE then FirstSignal(STOP, END_CODE)
        else (s.(bit := 0, pattern := 0), [Pulse(false, 2 * WORD_SPACE + 1)])
      else if next == SPACE_CODE then
        if s.phase == SPACE then FirstSignal(START, START_CODE)
        else (Sender(SPACE, SPACE_CODE, 0, false), [Pulse(false, WORD_SPACE - LETTER_SPACE)])
      else FirstSignal(s.phase, next)
  }

  class Transmitter {
    var phase: Phase
    var pattern: byte
    var bit: byte
    var on: bool
    /** The characters printed and not yet sent. */
    var stdout: seq<nat>
    /** The light so far. */
    var light: seq<Pulse>

    ghost function Abs(): Sender
      reads this
    {
      Sender(phase, pattern, bit, on)
    }

    constructor ()
      ensures Abs() == RESET && stdout == [] && light == []
    {
      phase, pattern, bit, on, stdout, light := IDLE, 0, 0, false, [], [];
    }

    method Dequeue() returns (pattern: byte)
      modifies this`stdout
      ensures pattern == (if old(stdout) == [] then 0 else Coded(old(stdout)[0]))
      ensures stdout == if old(stdout) == [] then [] else old(stdout)[1..]
    {
      hide MorseHw;
      var code: int := 0;
      if stdout != [] {
        code := stdout[0];
        stdout := stdout[1..];
      }
      pattern := 0;
      if code == 13 || code == 10 {
        pattern := END_CODE;
      } else if code != 0 {
        if code > 96 {
          code := code - 32;
        }
        pattern := MorseHw((code - 32) % 64);
      }
    }

    method SetMorse(lit: bool, units: nat)
      modifies this`on, this`light
      ensures on == lit && light == old(light) + [Pulse(lit, units)]
    {
      on := lit;
      light := light + [Pulse(lit, units)];
    }

    method StartBit()
      requires pattern != 0
      modifies this`bit
      ensures bit == HighBit(pattern, 0x80)
    {
      bit := 0x80;
      while pattern & bit == 0
        invariant bit != 0 && pattern & (bit | (bit - 1)) == pattern && bit & (bit - 1) == 0
        invariant HighBit(pattern, bit) == HighBit(pattern, 0x80)
        decreases bit
      {
        bit := bit >> 1;
      }
    }

    /** A character is taken exactly when the call looks for one. */
    method TransmitTask()
      modifies this
      ensures var next := if old(stdout) == [] then 0 else Coded(old(stdout)[0]);
        var (s, pulses) := Call(old(Abs()), next);
        Abs() == s && light == old(light) + pulses
      ensures stdout == if Dequeues(old(Abs())) && old(stdout) != [] then old(stdout)[1..] else old(stdout)
    {
      hide Length, HighBit, Coded;
      if phase == IDLE {
        pattern := Dequeue();
        if pattern == 0 {
          return;
        }
        phase := CHARACTER;
        if pattern == SPACE_CODE {
          phase := START;
          pattern := START_CODE;
          bit := 0x10 - 1;
        } else {
          StartBit();
        }
        SetMorse(false, 1);
        return;
      }
      if on {
        var t := SYMBOL_SPACE;
        if bit == 1 {
          t := LETTER_SPACE;
          if phase == START {
            t := WORD_SPACE;
            phase := SPACE;
          } else if phase == STOP {
            t := WORD_SPACE;
            phase := IDLE;
          }
        }
        SetMorse(false, t);
        return;
      }
      bit := bit >> 1;
      if bit != 0 {
        SetMorse(true, Length(pattern, bit));
        return;
      }
      pattern := Dequeue();
      if pattern == 0 {
        if phase == SPACE {
          phase := STOP;
          pattern := END_CODE;
        } else {
          light := light + [Pulse(on, 2 * WORD_SPACE + 1)];
          return;
        }
      }
      if pattern == SPACE_CODE {
        if phase == SPACE {
          phase := START;
          pattern := START_CODE;
        } else {
          phase := SPACE;
          SetMorse(false, WORD_SPACE - LETTER_SPACE);
          return;
        }
      }
      StartBit();
      bit := bit >> 1;
      SetMorse(true, Length(pattern, bit));
    }
  }
}
