/** Decimal numbers, printed by sw/src/stdio.c and read as people read them. */
module Decimal {
  import opened Bytes
  import opened Stdio

  function DigitValue(c: Octet): Option<nat> {
    if 48 <= c <= 57 then Some(c - 48) else None
  }

  /** The number a text begins with, after n has been read. */
  function ReadDigits(s: seq<Octet>, n: nat): nat
    decreases |s|
  {
    if s == [] || DigitValue(s[0]).None? then n else ReadDigits(s[1..], 10 * n + DigitValue(s[0]).value)
  }

  /** Blanks, perhaps a minus, and digits. */
  function Read(s: seq<Octet>): int
    decreases |s|
  {
    if s == [] then 0
    else if s[0] == 32 then Read(s[1..])
    else if s[0] == 45 then 0 - ReadDigits(s[1..], 0)
    else ReadDigits(s, 0)
  }

  predicate AllDigits(s: seq<Octet>) {
    forall i :: 0 <= i < |s| ==> DigitValue(s[i]).Some?
  }

  lemma {:induction false} ReadJoin(s: seq<Octet>, t: seq<Octet>, n: nat)
    requires AllDigits(s)
    ensures ReadDigits(s + t, n) == ReadDigits(t, ReadDigits(s, n))
    decreases |s|
  {
    if s == [] {
      assert s + t == t;
    } else {
      assert (s + t)[1..] == s[1..] + t;
      ReadJoin(s[1..], t, 10 * n + DigitValue(s[0]).value);
    }
  }

  /** The digits of a number are read as the number. */
  lemma {:induction false} ReadsDigits(u: nat, letters: Octet)
    requires letters == 65 || letters == 97
    ensures AllDigits(Digits(u, 10, letters)) && ReadDigits(Digits(u, 10, letters), 0) == u
    ensures u > 0 ==> Digits(u, 10, letters) != []
    decreases u
  {
    if u > 0 {
      var q, t := u / 10, u % 10;
      ReadsDigits(q, letters);
      ReadJoin(Digits(q, 10, letters), [Digit(t, letters)], 0);
      assert [Digit(t, letters)][1..] == [];
    }
  }

  lemma {:induction false} ZerosInFront(n: int, s: seq<Octet>)
    ensures AllDigits(Repeat(ZERO, n)) && ReadDigits(Repeat(ZERO, n) + s, 0) == ReadDigits(s, 0)
    decreases n
  {
    if n > 0 {
      ZerosInFront(n - 1, s);
      assert (Repeat(ZERO, n) + s)[1..] == Repeat(ZERO, n - 1) + s;
    } else {
      assert Repeat(ZERO, n) + s == s;
    }
  }

  lemma {:induction false} BlanksInFront(n: int, s: seq<Octet>)
    ensures Read(Repeat(BLANK, n) + s) == Read(s)
    decreases n
  {
    if n > 0 {
      BlanksInFront(n - 1, s);
      assert (Repeat(BLANK, n) + s)[1..] == Repeat(BLANK, n - 1) + s;
    } else {
      assert Repeat(BLANK, n) + s == s;
    }
  }

  /** Zeros behind a number multiply it. */
  lemma {:induction false} ZerosBehind(v: nat, n: nat)
    ensures ReadDigits(Repeat(ZERO, n), v) == v * Power(n)
    decreases n
  {
    if n > 0 {
      assert Repeat(ZERO, n)[1..] == Repeat(ZERO, n - 1);
      ZerosBehind(10 * v, n - 1);
      Reorder(v, Power(n - 1));
    }
  }

  lemma Reorder(v: nat, p: nat)
    ensures 10 * v * p == v * (10 * p)
  {
  }

  lemma {:induction false} PowerGrows(n: nat)
    ensures Power(n) >= 1 && (n > 0 ==> Power(n) >= 10)
  {
    if n > 0 {
      PowerGrows(n - 1);
    }
  }

  lemma Multiplied(v: nat, p: nat)
    requires v > 0 && p >= 10
    ensures v * p != v
  {
  }

  lemma {:induction false} BlanksBehind(n: nat, v: nat)
    ensures ReadDigits(Repeat(BLANK, n), v) == v
  {
  }

  /** What padding does to digits that have been read as v. */
  lemma {:induction false} PaddedDigits(s: seq<Octet>, v: nat, width: int, pad: Pad)
    requires AllDigits(s) && s != [] && ReadDigits(s, 0) == v
    ensures var t := Justified(s, width, pad);
      && |t| == (if width > |s| then width else |s|)
      && (pad.zero || pad.right ==>
          ReadDigits(t, 0) == if pad.zero && pad.right && width > |s| then v * Power(width - |s|) else v)
      && (!pad.zero ==> Read(t) == v)
      && (pad.zero || pad.right ==> t != [] && DigitValue(t[0]).Some?)
  {
    var n := width - |s|;
    hide Power;
    if pad.right {
      ReadJoin(s, Repeat(if width > 0 && pad.zero then ZERO else BLANK, n), 0);
      if n > 0 {
        ZerosBehind(v, n);
        BlanksBehind(n, v);
      }
    } else if pad.zero && width > 0 {
      ZerosInFront(n, s);
    } else {
      BlanksInFront(n, s);
      assert Repeat(BLANK, if pad.zero then n else 0) == [];
    }
  }

  /** How a number is printed without a width. */
  function Plain(i: int, sign: bool, letters: Octet): seq<Octet>
    requires (letters == 65 || letters == 97) && -0x8000_0000 <= i < 0x8000_0000
  {
    Number(i, 10, sign, 0, Pad(false, false), letters)
  }

  lemma {:induction false} JustifiedBlank(s: seq<Octet>)
    ensures Justified(s, 0, Pad(false, false)) == s
  {
  }

  /** A negative number, padded. */
  lemma {:induction false} PaddedNegative(s: seq<Octet>, v: nat, width: int, pad: Pad)
    requires AllDigits(s) && s != [] && ReadDigits(s, 0) == v > 0
    ensures var t := if width != 0 && pad.zero then [45] + Justified(s, width - 1, pad) else Justified([45] + s, width, pad);
      && |t| == (if width > |s| + 1 then width else |s| + 1)
      && (Read(t) == 0 - v <==> width <= |s| + 1 || !(pad.right && pad.zero))
  {
    var n := width - 1 - |s|;
    if width != 0 && pad.zero {
      PaddedDigits(s, v, width - 1, pad);
      assert ([45] + Justified(s, width - 1, pad))[1..] == Justified(s, width - 1, pad);
      if n > 0 {
        PowerGrows(n);
        Multiplied(v, Power(n));
      }
    } else {
      var m := [45] + s;
      assert m[1..] == s;
      if pad.right {
        var padding := Repeat(BLANK, n);
        assert (m + padding)[1..] == s + padding;
        ReadJoin(s, padding, 0);
        if n > 0 {
          BlanksBehind(n, v);
        }
      } else {
        BlanksInFront(n, m);
        assert pad.zero ==> Repeat(ZERO, n) == [] == Repeat(BLANK, n);
      }
    }
  }

  /** Every C integer, printed with `%d` or `%u` in any width and padding, is as
      wide as asked for or as it needs, and reads as itself, or as its unsigned
      word, if and only if it is 0, fills the width, or has no zeros behind. */
  lemma {:induction false} DecimalRoundTrip(i: int, sign: bool, width: int, pad: Pad, letters: Octet)
    requires (letters == 65 || letters == 97) && -0x8000_0000 <= i < 0x8000_0000
    ensures var t, w := Number(i, 10, sign, width, pad, letters), |Plain(i, sign, letters)|;
      && |t| == (if width > w then width else w)
      && (Read(t) == (if sign then i else i % 0x1_0000_0000) <==> i == 0 || width <= w || !(pad.right && pad.zero))
  {
    hide Digits, Justified, Read, ReadDigits, Power;
    if i == 0 {
      JustifiedBlank([ZERO]);
      PaddedZero(width, pad);
    } else if sign && i < 0 {
      ReadsDigits(-i, letters);
      PaddedNegative(Digits(-i, 10, letters), -i, width, pad);
      JustifiedBlank([MINUS] + Digits(-i, 10, letters));
    } else {
      var u := i % WORD;
      var s := Digits(u, 10, letters);
      ReadsDigits(u, letters);
      PaddedPositive(s, u, width, pad);
      JustifiedBlank(s);
    }
  }

  lemma {:induction false} PaddedZero(width: int, pad: Pad)
    ensures var t := Justified([ZERO], width, pad); |t| == (if width > 1 then width else 1) && Read(t) == 0
  {
    assert ReadDigits([ZERO], 0) == 0 by { assert [ZERO][1..] == []; }
    hide Justified, Read, Power;
    PaddedDigits([ZERO], 0, width, pad);
    FirstDigit(Justified([ZERO], width, pad));
  }

  lemma {:induction false} PaddedPositive(s: seq<Octet>, u: nat, width: int, pad: Pad)
    requires AllDigits(s) && s != [] && ReadDigits(s, 0) == u > 0
    ensures var t := Justified(s, width, pad);
      && |t| == (if width > |s| then width else |s|)
      && (Read(t) == u <==> width <= |s| || !(pad.right && pad.zero))
  {
    hide Justified, Read, ReadDigits, Power;
    PaddedDigits(s, u, width, pad);
    FirstDigit(Justified(s, width, pad));
    if width > |s| {
      PowerGrows(width - |s|);
      Multiplied(u, Power(width - |s|));
    }
  }

  lemma FirstDigit(t: seq<Octet>)
    ensures t != [] && DigitValue(t[0]).Some? ==> Read(t) == ReadDigits(t, 0)
  {
  }
}
