/**
 The character rings of sw/src/stdio.c, number formatting into them, and the
 hexadecimal reader of sw/src/cli.c.
*/
module Stdio {
  import opened Bytes

  const EOF: int := -1

  // ---------------------------------------------------------------------
  //  Text of a number
  // ---------------------------------------------------------------------

  const WORD := 0x1_0000_0000
  const ZERO: Octet := 48
  const BLANK: Octet := 32
  const MINUS: Octet := 45
  const PRINT_BUF_LEN := 12

  /** The two bits of `pad`; a clear `right` aligns to the right. */
  datatype Pad = Pad(right: bool, zero: bool)

  function Repeat(c: Octet, n: int): (s: seq<Octet>)
    ensures |s| == if n > 0 then n else 0
    decreases n
  {
    if n <= 0 then [] else [c] + Repeat(c, n - 1)
  }

  /** What `format_s` prints. */
  function Justified(s: seq<Octet>, width: int, pad: Pad): seq<Octet> {
    var padding := Repeat(if width > 0 && pad.zero then ZERO else BLANK, width - |s|);
    if pad.right then s + padding else padding + s
  }

  predicate Base(b: nat) { b == 10 || b == 16 }

  function Digit(t: nat, letters: Octet): Octet
    requires t < 16 && letters <= 200
  {
    if t >= 10 then t + (letters - ZERO - 10) + ZERO else t + ZERO
  }

  function Over(u: nat, b: nat): nat
    requires Base(b)
  {
    u / b
  }

  function Rest(u: nat, b: nat): (t: nat)
    requires Base(b)
    ensures t < b
  {
    u % b
  }

  /** The digits of u, none for 0. */
  function Digits(u: nat, b: nat, letters: Octet): seq<Octet>
    requires Base(b) && (letters == 65 || letters == 97)
    decreases u
  {
    if u == 0 then [] else Digits(Over(u, b), b, letters) + [Digit(Rest(u, b), letters)]
  }

  /** What `format_n` prints for a C integer. */
  function Number(i: int, b: nat, sign: bool, width: int, pad: Pad, letters: Octet): seq<Octet>
    requires Base(b) && (letters == 65 || letters == 97) && -0x8000_0000 <= i < 0x8000_0000
  {
    if i == 0 then Justified([ZERO], width, pad)
    else if sign && b == 10 && i < 0 then
      if width != 0 && pad.zero then [MINUS] + Justified(Digits(-i, b, letters), width - 1, pad)
      else Justified([MINUS] + Digits(-i, b, letters), width, pad)
    else Justified(Digits(i % WORD, b, letters), width, pad)
  }

  // ---------------------------------------------------------------------
  //  Reading
  // ---------------------------------------------------------------------

  function HexDigit(c: Octet): Option<nat> {
    if 48 <= c <= 57 then Some(c - 48)
    else if 97 <= c <= 102 then Some(c - 97 + 10)
    else if 65 <= c <= 70 then Some(c - 65 + 10)
    else None
  }

  /** The number as an unsigned word, after n has been read. */
  function Value(s: seq<Octet>, n: nat): (v: nat)
    requires n < WORD
    ensures v < WORD
    decreases |s|
  {
    if s == [] || HexDigit(s[0]).None? then n
    else Value(s[1..], (n * 16 + HexDigit(s[0]).value) % WORD)
  }

  method Atox(s: seq<Octet>) returns (number: nat)
    ensures number == Value(s, 0)
  {
    number := 0;
    var k := 0;
    while k < |s|
      invariant 0 <= k <= |s| && number < WORD
      invariant Value(s, 0) == Value(s[k..], number)
    {
      var digit: nat;
      var c := s[k];
      assert s[k..][0] == c && s[k..][1..] == s[k + 1..];
      if c >= 48 && c <= 57 {
        digit := c - 48;
      } else if c >= 97 && c <= 102 {
        digit := c - 97 + 10;
      } else if c >= 65 && c <= 70 {
        digit := c - 65 + 10;
      } else {
        break;
      }
      k := k + 1;
      number := (number * 16 + digit) % WORD;
    }
  }

  // ---------------------------------------------------------------------
  //  Round trip
  // ---------------------------------------------------------------------

  predicate AllHex(s: seq<Octet>) {
    forall i :: 0 <= i < |s| ==> HexDigit(s[i]).Some?
  }

  lemma {:induction false} ValueOfJoin(s: seq<Octet>, t: seq<Octet>, n: nat)
    requires n < WORD && AllHex(s)
    ensures Value(s + t, n) == Value(t, Value(s, n))
    decreases |s|
  {
    if s == [] {
      assert s + t == t;
    } else {
      assert (s + t)[1..] == s[1..] + t;
      ValueOfJoin(s[1..], t, (n * 16 + HexDigit(s[0]).value) % WORD);
    }
  }

  lemma {:induction false} DigitsAreHex(u: nat, letters: Octet)
    requires letters == 65 || letters == 97
    ensures AllHex(Digits(u, 16, letters))
  {
    if u > 0 {
      DigitsAreHex(u / 16, letters);
    }
  }

  lemma {:induction false} ValueOfDigit(q: nat, t: nat, letters: Octet)
    requires t < 16 && q * 16 + t < WORD && (letters == 65 || letters == 97)
    ensures Value([Digit(t, letters)], q) == q * 16 + t
  {
    var s := [Digit(t, letters)];
    assert s[1..] == [] && HexDigit(s[0]) == Some(t);
  }

  lemma {:induction false} ValueOfDigits(u: nat, letters: Octet)
    requires u < WORD && (letters == 65 || letters == 97)
    ensures Value(Digits(u, 16, letters), 0) == u
  {
    if u > 0 {
      hide Value, Digit, AllHex;
      var q, t := u / 16, u % 16;
      assert q * 16 + t == u;
      ValueOfDigits(q, letters);
      DigitsAreHex(q, letters);
      ValueOfDigit(q, t, letters);
      ValueOfJoin(Digits(q, 16, letters), [Digit(t, letters)], 0);
    }
  }

  lemma {:induction false} ZerosAreNothing(n: int)
    ensures AllHex(Repeat(ZERO, n)) && Value(Repeat(ZERO, n), 0) == 0
    decreases n
  {
    if n > 0 {
      ZerosAreNothing(n - 1);
      assert Repeat(ZERO, n)[1..] == Repeat(ZERO, n - 1);
    }
  }

  /** Digits a number has in base 16 when printed. */
  function Width(v: nat, letters: Octet): nat
    requires letters == 65 || letters == 97
  {
    if v == 0 then 1 else |Digits(v, 16, letters)|
  }

  /** The C integer of a 32-bit word. */
  function AsInt(v: nat): int
    requires v < WORD
  {
    if v < 0x8000_0000 then v else v - WORD
  }

  /** The word after n more zero digits. */
  function Shifted(v: nat, n: nat): nat
    requires v < WORD
    decreases n
  {
    if n == 0 then v else Shifted(v * 16 % WORD, n - 1)
  }

  lemma {:induction false} ZerosShift(v: nat, n: nat)
    requires v < WORD
    ensures Value(Repeat(ZERO, n), v) == Shifted(v, n)
    decreases n
  {
    if n > 0 {
      assert Repeat(ZERO, n)[1..] == Repeat(ZERO, n - 1);
      ZerosShift(v * 16 % WORD, n - 1);
    }
  }

  lemma {:induction false} StaysMultiple(v: nat, p: nat, c: nat, q: nat) returns (r: int)
    requires p * c == WORD && v == p * q
    ensures v * 16 % WORD == p * r
  {
    var t := v * 16 / WORD;
    r := 16 * q - t * c;
    assert v * 16 == p * (16 * q);
    assert t * WORD == p * (t * c);
    assert v * 16 % WORD == v * 16 - t * WORD;
  }

  /** A multiple of p stays one. */
  lemma {:induction false} ShiftedMultiple(v: nat, n: nat, p: nat, c: nat, q: nat) returns (r: int)
    requires v < WORD && p > 0 && p * c == WORD && v == p * q
    ensures Shifted(v, n) == p * r
    decreases n
  {
    if n == 0 {
      r := q;
    } else {
      var q1 := StaysMultiple(v, p, c, q);
      NotNegative(p, q1);
      r := ShiftedMultiple(v * 16 % WORD, n - 1, p, c, q1);
    }
  }

  lemma {:induction false} NotNegative(p: nat, q: int)
    requires p > 0 && p * q >= 0
    ensures q >= 0
  {
  }

  /** A multiple of p becomes one of 16 p. */
  lemma {:induction false} SixteenTimes(v: nat, p: nat, c: nat, q: nat) returns (r: int)
    requires 16 * p * c == WORD && v == p * q
    ensures v * 16 % WORD == 16 * p * r
  {
    var t := v * 16 / WORD;
    r := q - t * c;
    assert v * 16 == 16 * p * q;
    assert t * WORD == 16 * p * (t * c);
    assert v * 16 % WORD == v * 16 - t * WORD;
  }

  /** Only 0 is the same again when zeros are put behind it. */
  lemma {:induction false} ShiftedDiffers(v: nat, n: nat)
    requires 0 < v < WORD && n > 0
    ensures Shifted(v, n) != v
  {
    if Shifted(v, n) == v {
      var q := v;
      q := MoreZeros(v, n, 1, 0x1000_0000, q);
      q := MoreZeros(v, n, 0x10, 0x100_0000, q);
      q := MoreZeros(v, n, 0x100, 0x10_0000, q);
      q := MoreZeros(v, n, 0x1000, 0x1_0000, q);
      q := MoreZeros(v, n, 0x1_0000, 0x1000, q);
      q := MoreZeros(v, n, 0x10_0000, 0x100, q);
      q := MoreZeros(v, n, 0x100_0000, 0x10, q);
      q := MoreZeros(v, n, 0x1000_0000, 1, q);
      assert false;
    }
  }

  lemma {:induction false} MoreZeros(v: nat, n: nat, p: nat, c: nat, q: nat) returns (r: nat)
    requires v < WORD && n > 0 && Shifted(v, n) == v && p > 0 && 16 * p * c == WORD && v == p * q
    ensures v == 16 * p * r
  {
    var q1 := SixteenTimes(v, p, c, q);
    NotNegative(16 * p, q1);
    var q2 := ShiftedMultiple(v * 16 % WORD, n - 1, 16 * p, c, q1);
    NotNegative(16 * p, q2);
    r := q2;
  }

  /** Reading stops at a blank. */
  lemma {:induction false} BlanksStop(s: seq<Octet>, n: nat)
    requires AllHex(s)
    ensures Value(s + Repeat(BLANK, n), 0) == Value(s, 0)
  {
    ValueOfJoin(s, Repeat(BLANK, n), 0);
  }

  lemma {:induction false} NumberIs(v: nat, width: nat, pad: Pad, letters: Octet)
    requires v < WORD && (letters == 65 || letters == 97)
    ensures var s := if v == 0 then [ZERO] else Digits(v, 16, letters);
      && |s| == Width(v, letters) && AllHex(s) && Value(s, 0) == v
      && Number(AsInt(v), 16, false, width, pad, letters) == Justified(s, width, pad)
  {
    assert AsInt(v) % WORD == v;
    ValueOfDigits(v, letters);
    DigitsAreHex(v, letters);
    assert [ZERO][1..] == [];
  }

  /** A word printed in hexadecimal, in any format, reads back as itself unless
      it is not 0 and was padded either with blanks in front or with zeros
      behind. */
  lemma {:induction false} HexRoundTrip(v: nat, width: nat, pad: Pad, letters: Octet)
    requires v < WORD && (letters == 65 || letters == 97)
    ensures Value(Number(AsInt(v), 16, false, width, pad, letters), 0) == v
      <==> v == 0 || width <= Width(v, letters) || pad.right != pad.zero
  {
    var s := if v == 0 then [ZERO] else Digits(v, 16, letters);
    NumberIs(v, width, pad, letters);
    hide Number, Digits, Value, AllHex;
    var n := width - |s|;
    if n <= 0 {
      assert Justified(s, width, pad) == s;
    } else {
      Padded(s, v, width, pad);
      if v == 0 {
        ZeroPadded(n);
      } else {
        ShiftedDiffers(v, n);
      }
    }
  }

  lemma {:induction false} ZeroPadded(n: nat)
    ensures Shifted(0, n) == 0
  {
    if n > 0 {
      ZeroPadded(n - 1);
    }
  }

  lemma {:induction false} Padded(s: seq<Octet>, v: nat, width: nat, pad: Pad)
    requires AllHex(s) && Value(s, 0) == v && |s| < width
    ensures Value(Justified(s, width, pad), 0)
      == if pad.right && pad.zero then Shifted(v, width - |s|) else if pad.right || pad.zero then v else 0
  {
    var n := width - |s|;
    var padding := Repeat(if pad.zero then ZERO else BLANK, n);
    if pad.right {
      if pad.zero {
        ValueOfJoin(s, padding, 0);
        ZerosShift(v, n);
      } else {
        BlanksStop(s, n);
      }
    } else if pad.zero {
      ZerosAreNothing(n);
      ValueOfJoin(padding, s, 0);
    } else {
      assert (padding + s)[0] == BLANK;
    }
  }

  // ---------------------------------------------------------------------
  //  The ring
  // ---------------------------------------------------------------------

  /** The part of a text that fits. */
  function Fitting(text: seq<Octet>, room: nat): seq<Octet> {
    if |text| <= room then text else text[..room]
  }

  lemma AllFits(q: seq<Octet>, room: nat)
    requires |q| <= room
    ensures Fitting(q, room) == q
  {
  }

  lemma OneMoreFits(text: seq<Octet>, c: Octet, room: nat)
    ensures Fitting(Fitting(text, room) + [c], room) == Fitting(text + [c], room)
  {
  }

  lemma {:induction false} MoreFits(q: seq<Octet>, a: seq<Octet>, b: seq<Octet>, room: nat)
    ensures Fitting(Fitting(q + a, room) + b, room) == Fitting(q + (a + b), room)
  {
    assert q + (a + b) == q + a + b;
  }

  lemma Append(a: seq<Octet>, b: seq<Octet>, c: seq<Octet>)
    ensures a + b + c == a + (b + c)
  {
  }

  lemma {:induction false} RepeatMore(c: Octet, n: nat)
    ensures Repeat(c, n + 1) == Repeat(c, n) + [c]
  {
    if n > 0 {
      RepeatMore(c, n - 1);
      Append([c], Repeat(c, n - 1), [c]);
    }
  }

  /** Powers of ten, up to the places of the buffer. */
  function Power(k: nat): nat {
    if k == 0 then 1 else 10 * Power(k - 1)
  }

  lemma Shorter(u: nat, b: nat, k: nat)
    requires Base(b) && 0 < u < Power(k)
    ensures 0 < k && Over(u, b) < Power(k - 1) && Over(u, b) < u
  {
  }

  lemma TenPlaces()
    ensures Power(10) == 10_000_000_000
  {
    assert Power(3) == 1000;
    assert Power(6) == 1000 * Power(3);
    assert Power(9) == 1000 * Power(6);
  }

  class Stream {
    const buffer: array<Octet>
    const max: nat
    var head: nat
    var tail: nat

    ghost predicate Valid()
      reads this
    {
      buffer.Length == max + 1 && head <= max && tail <= max
    }

    ghost function Queue(): (q: seq<Octet>)
      requires Valid()
      reads this, buffer
      ensures |q| <= max
    {
      if head <= tail then buffer[head..tail] else buffer[head..] + buffer[..tail]
    }

    constructor (max: nat)
      ensures Valid() && fresh(buffer) && this.max == max && Queue() == []
    {
      this.max := max;
      buffer := new Octet[max + 1];
      head, tail := 0, 0;
    }

    /** One slot stays empty; a full ring refuses the character. */
    method Fputc(c: int) returns (r: int)
      requires Valid()
      modifies this`tail, buffer
      ensures Valid()
      ensures Queue() == Fitting(old(Queue()) + [c % 256], max)
      ensures r == if |old(Queue())| < max then c else -1
    {
      var rollback := tail;
      buffer[tail] := c % 256;
      tail := if tail >= max then 0 else tail + 1;
      r := c;
      if tail == head {
        tail := rollback;
        r := EOF;
      }
    }

    method Fgetc() returns (c: int)
      requires Valid()
      modifies this`head
      ensures Valid()
      ensures old(Queue()) == [] ==> c == -1 && Queue() == []
      ensures old(Queue()) != [] ==> old(Queue()) == [c] + Queue()
    {
      if head == tail {
        return EOF;
      }
      c := buffer[head];
      head := if head >= max then 0 else head + 1;
    }

    /** The loops that print one character a number of times. */
    method PutTimes(c: Octet, n: int)
      requires Valid()
      modifies this`tail, buffer
      ensures Valid() && Queue() == Fitting(old(Queue()) + Repeat(c, n), max)
    {
      hide Queue, Fitting;
      var k := n;
      AllFits(Queue(), max);
      assert Queue() + [] == Queue();
      while k > 0
        invariant Valid() && k <= n && (k > 0 || k == n || k == 0)
        invariant Queue() == Fitting(old(Queue()) + Repeat(c, n - k), max)
      {
        var _ := Fputc(c);
        OneMoreFits(old(Queue()) + Repeat(c, n - k), c, max);
        RepeatMore(c, n - k);
        Append(old(Queue()), Repeat(c, n - k), [c]);
        k := k - 1;
      }
    }

    method PutAll(text: seq<Octet>)
      requires Valid()
      modifies this`tail, buffer
      ensures Valid() && Queue() == Fitting(old(Queue()) + text, max)
    {
      hide Queue, Fitting;
      AllFits(Queue(), max);
      assert Queue() + text[..0] == Queue();
      var k := 0;
      while k < |text|
        invariant Valid() && 0 <= k <= |text|
        invariant Queue() == Fitting(old(Queue()) + text[..k], max)
      {
        var _ := Fputc(text[k]);
        OneMoreFits(old(Queue()) + text[..k], text[k], max);
        assert old(Queue()) + text[..k] + [text[k]] == old(Queue()) + text[..k + 1];
        k := k + 1;
      }
      assert text[..k] == text;
    }

    /** `format_s`: as much of the text as fits, and its whole length. */
    method FormatS(text: seq<Octet>, width: int, pad: Pad) returns (printed: nat)
      requires Valid()
      modifies this`tail, buffer
      ensures Valid() && Queue() == Fitting(old(Queue()) + Justified(text, width, pad), max)
      ensures printed == |Justified(text, width, pad)|
    {
      hide Queue, Fitting;
      var padchar := BLANK;
      var left := width;
      if width > 0 {
        if |text| >= width {
          left := 0;
        } else {
          left := width - |text|;
        }
        if pad.zero {
          padchar := ZERO;
        }
      }
      ghost var padding, q := Repeat(padchar, left), Queue();
      assert padding == Repeat(if width > 0 && pad.zero then ZERO else BLANK, width - |text|);
      printed := |text| + if left > 0 then left else 0;
      if !pad.right {
        PutTimes(padchar, left);
        PutAll(text);
        MoreFits(q, padding, text, max);
      } else {
        PutAll(text);
        PutTimes(padchar, left);
        MoreFits(q, text, padding, max);
      }
    }

    /** The digits of u, written backwards from the end of the buffer; a place
        for a sign is left. */
    static method Convert(number: nat, b: nat, letters: Octet, printBuf: array<Octet>) returns (s: nat)
      requires number < WORD && Base(b) && (letters == 65 || letters == 97) && printBuf.Length == PRINT_BUF_LEN
      modifies printBuf
      ensures 0 < s < PRINT_BUF_LEN && printBuf[s..PRINT_BUF_LEN - 1] == Digits(number, b, letters)
    {
      hide Digit, Over, Rest, Power;
      var u: nat := number;
      s := PRINT_BUF_LEN - 1;
      printBuf[s] := 0;
      TenPlaces();
      assert printBuf[s..PRINT_BUF_LEN - 1] == [];
      while u != 0
        invariant 0 < s < PRINT_BUF_LEN && u < Power(s - 1)
        invariant Digits(u, b, letters) + printBuf[s..PRINT_BUF_LEN - 1] == Digits(number, b, letters)
        decreases u
      {
        ghost var before := printBuf[s..PRINT_BUF_LEN - 1];
        Shorter(u, b, s - 1);
        var t := Digit(Rest(u, b), letters);
        Append(Digits(Over(u, b), b, letters), [t], before);
        s := s - 1;
        printBuf[s] := t;
        u := Over(u, b);
        assert printBuf[s..PRINT_BUF_LEN - 1] == [t] + before;
      }
      assert [] + printBuf[s..PRINT_BUF_LEN - 1] == printBuf[s..PRINT_BUF_LEN - 1];
    }

    /** `format_n`: digits are written backwards into a small buffer, which
        they never leave. */
    method FormatN(i: int, b: nat, sign: bool, width: int, pad: Pad, letters: Octet) returns (printed: nat)
      requires Valid() && Base(b) && (letters == 65 || letters == 97) && -0x8000_0000 <= i < 0x8000_0000
      modifies this`tail, buffer
      ensures Valid() && Queue() == Fitting(old(Queue()) + Number(i, b, sign, width, pad, letters), max)
      ensures printed == |Number(i, b, sign, width, pad, letters)|
    {
      hide Queue, Fitting, Justified;
      if i == 0 {
        printed := FormatS([ZERO], width, pad);
        return;
      }
      var negative := sign && b == 10 && i < 0;
      var u: nat := if negative then -i else i % WORD;
      ghost var q := Queue();
      var printBuf := new Octet[PRINT_BUF_LEN];
      var s := Convert(u, b, letters, printBuf);
      printed := 0;
      var left := width;
      if negative {
        if width != 0 && pad.zero {
          var _ := Fputc(MINUS);
          printed := 1;
          left := width - 1;
        } else {
          ghost var before := printBuf[s..PRINT_BUF_LEN - 1];
          s := s - 1;
          printBuf[s] := MINUS;
          assert printBuf[s..PRINT_BUF_LEN - 1] == [MINUS] + before;
        }
      }
      var n := FormatS(printBuf[s..PRINT_BUF_LEN - 1], left, pad);
      MoreFits(q, [MINUS], Justified(Digits(u, b, letters), left, pad), max);
      printed := printed + n;
    }

    /** A character is put back if there is room. If there is none, everything
        in the ring is lost. */
    method Ungetc(c: int) returns (r: int)
      requires Valid()
      modifies this`head, buffer
      ensures Valid()
      ensures |old(Queue())| < max ==> r == c && Queue() == [c % 256] + old(Queue())
      ensures |old(Queue())| == max ==> r == -1 && Queue() == []
    {
      head := if head == 0 then max else head - 1;
      r := c;
      if tail == head {
        r := EOF;
      } else {
        buffer[head] := c % 256;
      }
    }
  }

  /** Everything there is in a ring, up to the first end of file. */
  method ReadAll(stream: Stream) returns (text: seq<Octet>)
    requires stream.Valid()
    modifies stream`head
    ensures stream.Valid() && text == old(stream.Queue()) && stream.Queue() == []
  {
    hide stream.Queue;
    text := [];
    var more := true;
    while more
      invariant stream.Valid() && text + stream.Queue() == old(stream.Queue())
      invariant !more ==> stream.Queue() == []
      decreases |stream.Queue()|, more
    {
      ghost var q := stream.Queue();
      var c := stream.Fgetc();
      assert q != [] ==> c == q[0];
      if c == EOF {
        more := false;
      } else {
        Append(text, [q[0]], stream.Queue());
        text := text + [c];
      }
    }
    assert text + [] == text;
  }

  /** A word through an empty ring with room for it, at whatever place the ring
      stands: printed, taken out character by character and read. */
  method HexThroughRing(stream: Stream, v: nat, width: nat, pad: Pad, letters: Octet) returns (number: nat)
    requires stream.Valid() && stream.Queue() == []
    requires v < WORD && (letters == 65 || letters == 97)
    requires |Number(AsInt(v), 16, false, width, pad, letters)| <= stream.max
    modifies stream, stream.buffer
    ensures stream.Valid() && stream.Queue() == []
    ensures number == v <==> v == 0 || width <= Width(v, letters) || pad.right != pad.zero
  {
    var _ := stream.FormatN(AsInt(v), 16, false, width, pad, letters);
    ghost var text := Number(AsInt(v), 16, false, width, pad, letters);
    assert [] + text == text;
    AllFits(text, stream.max);
    var read := ReadAll(stream);
    number := Atox(read);
    HexRoundTrip(v, width, pad, letters);
  }
}
