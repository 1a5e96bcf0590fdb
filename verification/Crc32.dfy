/** The 32-bit CRC of sw/src/crc32.c (IEEE 802.3, clause 3.2.9). */
module Crc32 {
  import opened Bytes

  type word = bv32

  const POLYNOMIAL: word := 0xEDB88320
  const ONES: word := 0xFFFF_FFFF

  function Xor(c: word, d: word): word {
    c ^ d
  }

  function Wide(b: byte): word {
    b as word
  }

  /** One bit. */
  function Step(c: word): word {
    (c >> 1) ^ (POLYNOMIAL & (0 - (c & 1)))
  }

  function Steps(c: word, n: nat): word {
    if n == 0 then c else Step(Steps(c, n - 1))
  }

  /** One byte: eight bits. */
  function AddByte(c: word, b: byte): word {
    Steps(Xor(c, Wide(b)), 8)
  }

  function Fold(c: word, data: seq<byte>): word {
    if data == [] then c else AddByte(Fold(c, data[..|data| - 1]), data[|data| - 1])
  }

  function Crc(data: seq<byte>): word {
    Xor(Fold(ONES, data), ONES)
  }

  /** The inner loop of `crc32`. */
  method EightBits(start: word) returns (crc: word)
    ensures crc == Steps(start, 8)
  {
    crc := start;
    for bit := 0 to 8
      invariant crc == Steps(start, bit)
    {
      hide Xor;
      var mask := 0 - (crc & 1);
      crc := (crc >> 1) ^ (POLYNOMIAL & mask);
    }
  }

  /** `crc32`. */
  method ComputeCrc(data: seq<byte>) returns (r: word)
    ensures r == Crc(data)
  {
    hide Xor;
    hide Steps;
    var crc := ONES;
    for i := 0 to |data|
      invariant crc == Fold(ONES, data[..i])
    {
      assert data[..i + 1][..i] == data[..i];
      crc := EightBits(Xor(crc, Wide(data[i])));
    }
    assert data[..|data|] == data;
    return Xor(crc, ONES);
  }

  // ---------------------------------------------------------------------
  //  Words under exclusive or
  // ---------------------------------------------------------------------

  lemma XorAssoc(a: word, b: word, c: word)
    ensures Xor(Xor(a, b), c) == Xor(a, Xor(b, c))
  {
  }

  lemma XorComm(a: word, b: word)
    ensures Xor(a, b) == Xor(b, a)
  {
  }

  lemma XorTwice(a: word, b: word)
    ensures Xor(a, Xor(a, b)) == b
  {
  }

  lemma XorCancel(c: word, d: word, e: word)
    ensures Xor(c, e) == Xor(d, e) ==> c == d
    ensures Xor(e, c) == Xor(e, d) ==> c == d
  {
  }

  lemma XorOnes(s: word)
    ensures Xor(s, Xor(s, ONES)) == ONES
  {
  }

  // ---------------------------------------------------------------------
  //  The bit step is linear and one to one
  // ---------------------------------------------------------------------

  lemma StepCases(c: word)
    ensures Step(c) == if c & 1 == 1 then Xor(c >> 1, POLYNOMIAL) else c >> 1
  {
    hide Xor;
    LowBit(c);
    if c & 1 == 1 {
      MaskOfOne(c & 1);
    } else {
      MaskOfZero(c & 1);
    }
    XorIs(c >> 1, POLYNOMIAL);
    NothingXored(c >> 1);
  }

  lemma MaskOfOne(k: word)
    requires k == 1
    ensures POLYNOMIAL & (0 - k) == POLYNOMIAL
  {
  }

  lemma MaskOfZero(k: word)
    requires k == 0
    ensures POLYNOMIAL & (0 - k) == 0
  {
  }

  lemma XorIs(c: word, d: word)
    ensures Xor(c, d) == c ^ d
  {
  }

  lemma NothingXored(c: word)
    ensures c ^ 0 == c
  {
  }

  lemma LowBit(c: word)
    ensures c & 1 == 1 || c & 1 == 0
  {
  }

  lemma StepInjective(c: word, d: word)
    requires Step(c) == Step(d)
    ensures c == d
  {
    hide Step;
    StepCases(c);
    StepCases(d);
    HighBit(c);
    HighBit(d);
    LowBit(c);
    LowBit(d);
    hide Xor;
    XorCancel(c >> 1, d >> 1, POLYNOMIAL);
    Rejoin(c, d);
  }

  /** The feedback shows in the top bit. */
  lemma HighBit(c: word)
    ensures c >> 1 < 0x8000_0000 && Xor(c >> 1, POLYNOMIAL) >= 0x8000_0000
  {
  }

  lemma Rejoin(c: word, d: word)
    ensures c >> 1 == d >> 1 && c & 1 == d & 1 ==> c == d
  {
  }

  lemma StepLinear(c: word, d: word)
    ensures Step(Xor(c, d)) == Xor(Step(c), Step(d))
  {
    hide Step;
    hide Xor;
    StepCases(c);
    StepCases(d);
    StepCases(Xor(c, d));
    XorShift(c, d);
    XorLowBit(c, d);
    Feedback(c >> 1, d >> 1);
  }

  lemma XorShift(c: word, d: word)
    ensures Xor(c, d) >> 1 == Xor(c >> 1, d >> 1)
  {
    ShiftParts(c, d, Xor(c, d), Xor(c >> 1, d >> 1));
  }

  lemma ShiftParts(c: word, d: word, e: word, f: word)
    requires e == c ^ d && f == (c >> 1) ^ (d >> 1)
    ensures e >> 1 == f
  {
  }

  lemma XorLowBit(c: word, d: word)
    ensures c & 1 == d & 1 ==> Xor(c, d) & 1 == 0
    ensures c & 1 != d & 1 ==> Xor(c, d) & 1 == 1
  {
  }

  lemma Feedback(x: word, y: word)
    ensures Xor(Xor(x, POLYNOMIAL), y) == Xor(Xor(x, y), POLYNOMIAL)
    ensures Xor(x, Xor(y, POLYNOMIAL)) == Xor(Xor(x, y), POLYNOMIAL)
    ensures Xor(Xor(x, POLYNOMIAL), Xor(y, POLYNOMIAL)) == Xor(x, y)
  {
    hide Xor;
    XorAssoc(x, POLYNOMIAL, y);
    XorComm(POLYNOMIAL, y);
    XorAssoc(x, y, POLYNOMIAL);
    XorAssoc(x, POLYNOMIAL, Xor(y, POLYNOMIAL));
    XorTwice(POLYNOMIAL, y);
  }

  lemma {:induction false} StepsInjective(c: word, d: word, n: nat)
    requires Steps(c, n) == Steps(d, n)
    ensures c == d
  {
    hide Step;
    if n > 0 {
      StepInjective(Steps(c, n - 1), Steps(d, n - 1));
      StepsInjective(c, d, n - 1);
    }
  }

  lemma {:induction false} StepsLinear(c: word, d: word, n: nat)
    ensures Steps(Xor(c, d), n) == Xor(Steps(c, n), Steps(d, n))
  {
    hide Step;
    hide Xor;
    if n > 0 {
      StepsLinear(c, d, n - 1);
      StepLinear(Steps(c, n - 1), Steps(d, n - 1));
    }
  }

  lemma {:induction false} StepsAdd(c: word, m: nat, n: nat)
    ensures Steps(Steps(c, m), n) == Steps(c, m + n)
  {
    hide Step;
    if n > 0 {
      StepsAdd(c, m, n - 1);
    }
  }

  lemma {:induction false} FoldInjective(c: word, d: word, data: seq<byte>)
    requires Fold(c, data) == Fold(d, data)
    ensures c == d
    decreases |data|
  {
    hide Steps;
    hide Xor;
    if data != [] {
      var init, last := data[..|data| - 1], Wide(data[|data| - 1]);
      StepsInjective(Xor(Fold(c, init), last), Xor(Fold(d, init), last), 8);
      XorCancel(Fold(c, init), Fold(d, init), last);
      FoldInjective(c, d, init);
    }
  }

  lemma {:induction false} FoldAppend(c: word, a: seq<byte>, b: seq<byte>)
    ensures Fold(c, a + b) == Fold(Fold(c, a), b)
    decreases |b|
  {
    hide AddByte;
    if b == [] {
      assert a + b == a;
    } else {
      assert (a + b)[..|a + b| - 1] == a + b[..|b| - 1];
      FoldAppend(c, a, b[..|b| - 1]);
    }
  }

  // ---------------------------------------------------------------------
  //  Four bytes at once
  // ---------------------------------------------------------------------

  function Half(z: word): word {
    z >> 1
  }

  predicate Even(z: word) {
    z & 1 == 0
  }

  lemma EvenStep(z: word)
    requires Even(z)
    ensures Step(z) == Half(z)
  {
    StepCases(z);
  }

  /** The byte b with k zero bytes below it. */
  function Place(b: byte, k: nat): word
    requires k < 4
  {
    if k == 0 then b as word else if k == 1 then b as word << 8 else if k == 2 then b as word << 16 else b as word << 24
  }

  lemma PlaceHalves(b: byte, k: nat)
    requires 0 < k < 4
    ensures var z := Place(b, k);
      && Even(z) && Even(Half(z)) && Even(Half(Half(z))) && Even(Half(Half(Half(z))))
  {
  }

  lemma PlaceHalvesMore(b: byte, k: nat)
    requires 0 < k < 4
    ensures var y := Half(Half(Half(Half(Place(b, k)))));
      && Even(y) && Even(Half(y)) && Even(Half(Half(y))) && Even(Half(Half(Half(y))))
      && Half(Half(Half(Half(y)))) == Place(b, k - 1)
  {
  }

  lemma {:induction false} FourEven(z: word)
    requires Even(z) && Even(Half(z)) && Even(Half(Half(z))) && Even(Half(Half(Half(z))))
    ensures Steps(z, 4) == Half(Half(Half(Half(z))))
  {
    hide Step;
    hide Half;
    hide Even;
    EvenStep(z);
    EvenStep(Half(z));
    EvenStep(Half(Half(z)));
    EvenStep(Half(Half(Half(z))));
    assert Steps(z, 0) == z;
    assert Steps(z, 1) == Half(z);
    assert Steps(z, 2) == Half(Half(z));
    assert Steps(z, 3) == Half(Half(Half(z)));
  }

  /** Eight steps bring a byte one place down. */
  lemma EightDown(b: byte, k: nat)
    requires 0 < k < 4
    ensures Steps(Place(b, k), 8) == Place(b, k - 1)
  {
    PlaceHalves(b, k);
    PlaceHalvesMore(b, k);
    hide Steps;
    hide Place;
    hide Half;
    hide Even;
    FourEven(Place(b, k));
    FourEven(Half(Half(Half(Half(Place(b, k))))));
    StepsAdd(Place(b, k), 4, 4);
  }

  /** XORing a byte in after 8k steps is XORing it in k places up before them. */
  lemma {:induction false} Hoist(x: word, b: byte, k: nat)
    requires k < 4
    ensures Xor(Steps(x, 8 * k), Place(b, 0)) == Steps(Xor(x, Place(b, k)), 8 * k)
    decreases k
  {
    hide Step;
    hide Xor;
    hide Place;
    if k == 0 {
      assert Steps(x, 0) == x;
      assert Steps(Xor(x, Place(b, 0)), 0) == Xor(x, Place(b, 0));
    } else {
      EightDown(b, k);
      StepsLinear(x, Place(b, k), 8);
      Hoist(Steps(x, 8), b, k - 1);
      StepsAdd(x, 8, 8 * (k - 1));
      StepsAdd(Xor(x, Place(b, k)), 8, 8 * (k - 1));
    }
  }

  /** The first k bytes of a group of up to four, XORed into their places. */
  function Spread(s: word, bs: seq<byte>): word
    requires |bs| <= 4
  {
    if bs == [] then s else Xor(Spread(s, bs[..|bs| - 1]), Place(bs[|bs| - 1], |bs| - 1))
  }

  /** Up to four bytes act as one XOR each, followed by all their steps. */
  lemma {:induction false} FoldIsSpread(s: word, bs: seq<byte>)
    requires |bs| <= 4
    ensures Fold(s, bs) == Steps(Spread(s, bs), 8 * |bs|)
    decreases |bs|
  {
    hide Xor;
    hide Place;
    if bs == [] {
      assert Steps(s, 0) == s;
    } else {
      var n := |bs| - 1;
      var init, last := bs[..n], bs[n];
      FoldIsSpread(s, init);
      WideIsPlace(last);
      Hoist(Spread(s, init), last, n);
      StepsAdd(Spread(s, bs), 8 * n, 8);
    }
  }

  lemma WideIsPlace(b: byte)
    ensures Wide(b) == Place(b, 0)
  {
  }

  lemma SpreadFour(s: word, x: seq<byte>)
    requires |x| == 4
    ensures Spread(s, x) == Xor(Xor(Xor(Xor(s, Place(x[0], 0)), Place(x[1], 1)), Place(x[2], 2)), Place(x[3], 3))
  {
    hide Xor;
    hide Place;
    assert x[..4] == x;
    SpreadOneMore(s, x, 0);
    SpreadOneMore(s, x, 1);
    SpreadOneMore(s, x, 2);
    SpreadOneMore(s, x, 3);
  }

  lemma SpreadOneMore(s: word, x: seq<byte>, n: nat)
    requires n < |x| <= 4
    ensures Spread(s, x[..n + 1]) == Xor(Spread(s, x[..n]), Place(x[n], n))
  {
    hide Xor;
    hide Place;
    assert x[..n + 1][..n] == x[..n];
  }

  lemma PlacesApart(s: word, a: byte, b: byte, c: byte, d: byte, a': byte, b': byte, c': byte, d': byte)
    requires Xor(Xor(Xor(Xor(s, Place(a, 0)), Place(b, 1)), Place(c, 2)), Place(d, 3))
      == Xor(Xor(Xor(Xor(s, Place(a', 0)), Place(b', 1)), Place(c', 2)), Place(d', 3))
    ensures a == a' && b == b' && c == c' && d == d'
  {
  }

  /** Any damage inside four consecutive bytes is noticed: equal sums mean
      equal messages. */
  lemma BurstDetected(pre: seq<byte>, x: seq<byte>, y: seq<byte>, post: seq<byte>)
    requires |x| == |y| == 4 && Crc(pre + x + post) == Crc(pre + y + post)
    ensures x == y
  {
    hide Steps;
    hide Xor;
    hide Place;
    hide Spread;
    hide AddByte;
    var s := Fold(ONES, pre);
    FoldAppend(ONES, pre + x, post);
    FoldAppend(ONES, pre + y, post);
    FoldAppend(ONES, pre, x);
    FoldAppend(ONES, pre, y);
    XorCancel(Fold(Fold(s, x), post), Fold(Fold(s, y), post), ONES);
    FoldInjective(Fold(s, x), Fold(s, y), post);
    FoldIsSpread(s, x);
    FoldIsSpread(s, y);
    StepsInjective(Spread(s, x), Spread(s, y), 32);
    SpreadFour(s, x);
    SpreadFour(s, y);
    PlacesApart(s, x[0], x[1], x[2], x[3], y[0], y[1], y[2], y[3]);
  }

  /** The same, told of two whole messages of any equal length: if they differ
      only at positions i to i+3, and their sums agree, they are the same. */
  lemma WindowDetected(a: seq<byte>, b: seq<byte>, i: nat)
    requires |a| == |b| && Crc(a) == Crc(b)
    requires forall k :: 0 <= k < |a| && !(i <= k < i + 4) ==> a[k] == b[k]
    ensures a == b
  {
    hide Xor;
    hide Fold;
    if i + 4 <= |a| {
      SplitAt(a, b, i);
    } else {
      // the window hangs over the end: pad both messages
      var pad := [0, 0, 0, 0];
      XorCancel(Fold(ONES, a), Fold(ONES, b), ONES);
      FoldAppend(ONES, a, pad);
      FoldAppend(ONES, b, pad);
      SplitAt(a + pad, b + pad, if i < |a| then i else |a|);
      assert a == (a + pad)[..|a|] && b == (b + pad)[..|a|];
    }
  }

  lemma SplitAt(a: seq<byte>, b: seq<byte>, i: nat)
    requires |a| == |b| && i + 4 <= |a| && Crc(a) == Crc(b)
    requires forall k :: 0 <= k < |a| && !(i <= k < i + 4) ==> a[k] == b[k]
    ensures a == b
  {
    hide Crc;
    var x, y := a[i..i + 4], b[i..i + 4];
    assert a == a[..i] + x + a[i + 4..];
    assert b == a[..i] + y + a[i + 4..];
    BurstDetected(a[..i], x, y, a[i + 4..]);
  }

  /** A message followed by its own sum, low byte first, always leaves the
      register in the same state. */
  lemma ResidueIsConstant(data: seq<byte>, sum: seq<byte>)
    requires |sum| == 4 && Spread(0, sum) == Crc(data)
    ensures Fold(ONES, data + sum) == Steps(ONES, 32)
  {
    hide Steps;
    hide Xor;
    hide AddByte;
    var s := Fold(ONES, data);
    FoldAppend(ONES, data, sum);
    FoldIsSpread(s, sum);
    SpreadFrom(s, sum);
    XorOnes(s);
  }

  lemma {:induction false} SpreadFrom(s: word, bs: seq<byte>)
    requires |bs| <= 4
    ensures Spread(s, bs) == Xor(s, Spread(0, bs))
    decreases |bs|
  {
    hide Xor;
    hide Place;
    if bs == [] {
      XorZero(s);
    } else {
      var n := |bs| - 1;
      SpreadFrom(s, bs[..n]);
      XorAssoc(s, Spread(0, bs[..n]), Place(bs[n], n));
    }
  }

  lemma XorZero(s: word)
    ensures Xor(s, 0) == s
  {
  }
}
