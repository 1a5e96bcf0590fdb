/**
 The Morse transmitter of sw/src/morse.c, which blinks what is printed, and
 the lookup that turns a keyed pattern back into a character.
*/
module Morse {
  import opened Bytes

  const START_CODE: byte := 0x35
  const END_CODE: byte := 0x45
  const SPACE_CODE: byte := 0x01

  const SYMBOL_SPACE := 1
  const LETTER_SPACE := 3
  const WORD_SPACE := 7

  function Pick(k: nat, a: byte, b: byte, c: byte, d: byte, e: byte, f: byte, g: byte, h: byte): byte {
    if k == 0 then a else if k == 1 then b else if k == 2 then c else if k == 3 then d
    else if k == 4 then e else if k == 5 then f else if k == 6 then g else h
  }

  /** `morse_hw`: a start bit, then 0 for a dit and 1 for a dah. The first 64
      patterns are those of the characters from space on. */
  function MorseHw(i: nat): byte
    requires i < 72
  {
    if i < 8 then Pick(i, 0x01, 0x6b, 0x52, 0x3b, 0x26, 0x2c, 0x28, 0x5e)
    else if i < 16 then Pick(i - 8, 0x36, 0x6d, 0x2d, 0x2a, 0x73, 0x61, 0x55, 0x32)
    else if i < 24 then Pick(i - 16, 0x3f, 0x2f, 0x27, 0x23, 0x21, 0x20, 0x30, 0x38)
    else if i < 32 then Pick(i - 24, 0x3c, 0x3e, 0x78, 0x6a, 0x29, 0x31, 0x3a, 0x4c)
    else if i < 40 then Pick(i - 32, 0x5a, 0x05, 0x18, 0x1a, 0x0c, 0x02, 0x12, 0x0e)
    else if i < 48 then Pick(i - 40, 0x10, 0x04, 0x17, 0x0d, 0x14, 0x07, 0x06, 0x0f)
    else if i < 56 then Pick(i - 48, 0x16, 0x1d, 0x0a, 0x08, 0x03, 0x09, 0x11, 0x0b)
    else if i < 64 then Pick(i - 56, 0x19, 0x1b, 0x1c, 0x1e, 0x88, 0x34, 0x1f, 0x4d)
    else Pick(i - 64, 0x13, 0x15, 0x22, 0x24, 0x25, 0x35, 0x45, 0x00)
  }

  const NONPRINTABLE := 64

  /** First place in the table, from i on, of a pattern. */
  function Find(pattern: byte, i: nat): Option<nat>
    requires i < 72
    decreases 72 - i
  {
    if MorseHw(i) == 0 then None
    else if MorseHw(i) == pattern then Some(i)
    else if i == 71 then None
    else Find(pattern, i + 1)
  }

  /** What `morse_input` types: a character, or one of the special keys. */
  datatype Key = Character(code: nat) | Special(index: nat)

  function KeyAt(i: nat): Key {
    if i >= NONPRINTABLE then Special(i - NONPRINTABLE) else Character(i + 32)
  }

  method MorseInput(pattern: byte) returns (key: Option<Key>)
    ensures key == if Find(pattern, 0).Some? then Some(KeyAt(Find(pattern, 0).value)) else None
  {
    TableEnds();
    var i := 0;
    while MorseHw(i) != 0
      invariant 0 <= i < 72 && Find(pattern, 0) == Find(pattern, i)
      decreases 72 - i
    {
      if pattern == MorseHw(i) {
        if i >= NONPRINTABLE {
          return Some(Special(i - NONPRINTABLE));
        }
        return Some(Character(i + 32));
      }
      i := i + 1;
    }
    key := None;
  }

  lemma TableEnds()
    ensures MorseHw(71) == 0
  {
  }

  function At(k: byte, a: nat, b: nat, c: nat, d: nat, e: nat, f: nat, g: nat, h: nat): nat {
    if k == 0 then a else if k == 1 then b else if k == 2 then c else if k == 3 then d
    else if k == 4 then e else if k == 5 then f else if k == 6 then g else h
  }

  /** The table the other way round: the place of a pattern, 64 if none. */
  function Place(pattern: byte): nat {
    var row, k := pattern >> 3, pattern & 7;
    if row == 0 then At(k, 64, 0, 37, 52, 41, 33, 46, 45)
    else if row == 1 then At(k, 51, 53, 50, 55, 36, 43, 39, 47)
    else if row == 2 then At(k, 40, 54, 38, 64, 44, 64, 48, 42)
    else if row == 3 then At(k, 34, 56, 35, 57, 58, 49, 59, 62)
    else if row == 4 then At(k, 21, 20, 64, 19, 64, 64, 4, 18)
    else if row == 5 then At(k, 6, 28, 11, 64, 5, 10, 64, 17)
    else if row == 6 then At(k, 22, 29, 15, 64, 61, 64, 8, 64)
    else if row == 7 then At(k, 23, 64, 30, 3, 24, 64, 25, 16)
    else if row == 9 then At(k, 64, 64, 64, 64, 31, 63, 64, 64)
    else if row == 10 then At(k, 64, 64, 2, 64, 64, 14, 64, 64)
    else if row == 11 then At(k, 64, 64, 32, 64, 64, 64, 7, 64)
    else if row == 12 then At(k, 64, 13, 64, 64, 64, 64, 64, 64)
    else if row == 13 then At(k, 64, 64, 27, 1, 64, 9, 64, 64)
    else if row == 14 then At(k, 64, 64, 64, 12, 64, 64, 64, 64)
    else if row == 15 then At(k, 26, 64, 64, 64, 64, 64, 64, 64)
    else if row == 17 then At(k, 60, 64, 64, 64, 64, 64, 64, 64)
    else 64
  }

  lemma {:induction false} PlaceOfSigns(i: nat)
    requires 0 <= i < 16
    ensures Place(MorseHw(i)) == i
  {
  }

  lemma {:induction false} PlaceOfDigits(i: nat)
    requires 16 <= i < 32
    ensures Place(MorseHw(i)) == i
  {
  }

  lemma {:induction false} PlaceOfFirstLetters(i: nat)
    requires 32 <= i < 48
    ensures Place(MorseHw(i)) == i
  {
  }

  lemma {:induction false} PlaceOfLastLetters(i: nat)
    requires 48 <= i < 64
    ensures Place(MorseHw(i)) == i
  {
  }

  lemma {:induction false} PlaceOf(i: nat)
    requires i < 64
    ensures Place(MorseHw(i)) == i
  {
    hide Place, MorseHw;
    if i < 16 {
      PlaceOfSigns(i);
    } else if i < 32 {
      PlaceOfDigits(i);
    } else if i < 48 {
      PlaceOfFirstLetters(i);
    } else {
      PlaceOfLastLetters(i);
    }
  }

  /** No two characters have the same pattern. */
  lemma {:induction false} PatternsDiffer(i: nat, j: nat)
    requires j < i < 64
    ensures MorseHw(i) != MorseHw(j) && MorseHw(j) != 0
  {
    hide MorseHw, Place;
    PlaceOf(i);
    PlaceOf(j);
    NotZero(j);
  }

  lemma {:induction false} FindReaches(i: nat, j: nat)
    requires j <= i < 64
    ensures Find(MorseHw(i), j) == Some(i)
    decreases i - j
  {
    hide MorseHw;
    if j < i {
      PatternsDiffer(i, j);
      FindReaches(i, j + 1);
    } else {
      NotZero(i);
    }
  }

  lemma NotZero(i: nat)
    requires i < 64
    ensures MorseHw(i) != 0
  {
  }
}
