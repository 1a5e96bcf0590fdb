/**
 The checksum as IEEE 802.3, clause 3.2.9, defines it: the remainder of a
 division of polynomials over two elements.
*/
module CrcDivision {
  import opened Bytes
  import opened Crc32

  /** A polynomial is the set of its exponents. */
  type Polynomial = set<nat>

  /** x^32 + x^26 + x^23 + ... + x + 1. */
  const GENERATOR: Polynomial := {32, 26, 23, 22, 16, 12, 11, 10, 8, 7, 5, 4, 2, 1, 0}

  const ALL: Polynomial := set k: nat | k < 32

  function Plus(p: Polynomial, q: Polynomial): Polynomial {
    (p - q) + (q - p)
  }

  function TimesX(p: Polynomial): Polynomial {
    set k | k in p :: k + 1
  }

  /** The remainder of a message times x^32, with one more bit in the message. */
  function Divide(r: Polynomial, bit: bool): Polynomial {
    var up := Plus(TimesX(r), if bit then {32} else {});
    if 32 in up then Plus(up, GENERATOR) else up
  }

  /** The same with n more bits, those of b from the lowest on. */
  function DivideBits(r: Polynomial, b: byte, n: nat): Polynomial
    decreases n
  {
    if n == 0 then r else DivideBits(Divide(r, b & 1 == 1), b >> 1, n - 1)
  }

  function Remainder(r: Polynomial, data: seq<byte>): Polynomial {
    if data == [] then r else DivideBits(Remainder(r, data[..|data| - 1]), data[|data| - 1], 8)
  }

  // ---------------------------------------------------------------------
  //  The register as a polynomial
  // ---------------------------------------------------------------------

  /** Bit j, counted from the lowest. */
  predicate Bit(c: word, j: nat)
    decreases j
  {
    if j == 0 then c & 1 == 1 else Bit(c >> 1, j - 1)
  }

  /** The highest exponent is in the lowest bit. */
  predicate Has(c: word, k: nat)
    requires k < 32
  {
    Bit(c, 31 - k)
  }

  function PolynomialOf(c: word): Polynomial {
    set k: nat | k < 32 && Has(c, k)
  }

  lemma {:induction false} NextBit(c: word, j: nat)
    ensures Bit(c, j + 1) == Bit(Half(c), j)
  {
  }

  function Sixteenth(c: word): word { Half(Half(Half(Half(c)))) }

  lemma {:induction false} FourFurther(c: word, j: nat)
    ensures Bit(c, j + 4) == Bit(Sixteenth(c), j)
  {
    hide Bit, Half;
    NextBit(c, j + 3);
    NextBit(Half(c), j + 2);
    NextBit(Half(Half(c)), j + 1);
    NextBit(Half(Half(Half(c))), j);
  }

  lemma {:induction false} EightFurther(c: word, j: nat)
    ensures Bit(c, j + 8) == Bit(c >> 8, j)
  {
    EightShifts(c);
    hide Bit, Sixteenth;
    FourFurther(c, j + 4);
    FourFurther(Sixteenth(c), j);
  }

  lemma EightShifts(c: word)
    ensures Sixteenth(Sixteenth(c)) == c >> 8
    ensures c >> 8 >> 8 >> 8 >> 8 == 0
  {
  }

  lemma {:induction false} NothingAbove(c: word)
    ensures !Bit(c, 32)
  {
    EightFurther(c, 24);
    EightFurther(c >> 8, 16);
    EightFurther(c >> 8 >> 8, 8);
    EightFurther(c >> 8 >> 8 >> 8, 0);
    EightShifts(c);
  }

  lemma {:induction false} HasHalf(c: word, k: nat)
    requires k < 32
    ensures Has(c >> 1, k) <==> k > 0 && Has(c, k - 1)
  {
    if k == 0 {
      NothingAbove(c);
    }
  }

  lemma {:induction false} BitXor(c: word, d: word, j: nat)
    ensures Bit(Xor(c, d), j) <==> Bit(c, j) != Bit(d, j)
    decreases j
  {
    hide Xor;
    if j == 0 {
      XorLowBit(c, d);
      LowBit(c);
      LowBit(d);
    } else {
      XorShift(c, d);
      BitXor(c >> 1, d >> 1, j - 1);
    }
  }

  lemma {:induction false} BitsOfOnes(j: nat)
    requires j < 32
    ensures Bit(ONES, j)
  {
    hide Bit;
    var k := j % 8;
    if j < 8 {
      LowOnes(ONES, k);
    } else if j < 16 {
      EightFurther(ONES, k);
      LowOnes(ONES >> 8, k);
    } else if j < 24 {
      EightFurther(ONES, k + 8);
      EightFurther(ONES >> 8, k);
      LowOnes(ONES >> 8 >> 8, k);
    } else {
      EightFurther(ONES, k + 16);
      EightFurther(ONES >> 8, k + 8);
      EightFurther(ONES >> 8 >> 8, k);
      LowOnes(ONES >> 8 >> 8 >> 8, k);
    }
  }

  lemma {:induction false} LowOnes(c: word, j: nat)
    requires j < 8 && c & 0xFF == 0xFF
    ensures Bit(c, j)
  {
    LowBits(c, j);
    hide Bit;
    AllOnes(c);
  }

  lemma AllOnes(c: word)
    requires c & 0xFF == 0xFF
    ensures c & 1 != 0 && c & 2 != 0 && c & 4 != 0 && c & 8 != 0
    ensures c & 16 != 0 && c & 32 != 0 && c & 64 != 0 && c & 128 != 0
  {
  }

  function LowMask(j: nat): word
    requires j < 8
  {
    if j == 0 then 1 else if j == 1 then 2 else if j == 2 then 4 else if j == 3 then 8
    else if j == 4 then 16 else if j == 5 then 32 else if j == 6 then 64 else 128
  }

  lemma HalfMasked(c: word, m: word)
    requires m <= 64
    ensures (c >> 1) & m != 0 <==> c & (m << 1) != 0
  {
  }

  lemma MaskDoubles(j: nat)
    requires 0 < j < 8
    ensures LowMask(j - 1) <= 64 && LowMask(j) == LowMask(j - 1) << 1
  {
  }

  lemma LowestMasked(c: word)
    ensures c & 1 == 1 <==> c & 1 != 0
  {
  }

  lemma {:induction false} LowBits(c: word, j: nat)
    requires j < 8
    ensures Bit(c, j) <==> c & LowMask(j) != 0
    decreases j
  {
    if j == 0 {
      LowestMasked(c);
    } else {
      hide LowMask;
      MaskDoubles(j);
      LowBits(c >> 1, j - 1);
      HalfMasked(c, LowMask(j - 1));
    }
  }

  lemma {:induction false} HasXor(c: word, d: word, k: nat)
    requires k < 32
    ensures Has(Xor(c, d), k) <==> Has(c, k) != Has(d, k)
  {
    BitXor(c, d, 31 - k);
  }

  /** The constant of the program is the generator without x^32. */
  lemma {:induction false} GeneratorBits(j: nat)
    requires j < 32
    ensures Bit(POLYNOMIAL, j) <==> 31 - j in GENERATOR
  {
    hide Bit;
    var k := j % 8;
    if j < 8 {
      LowBits(POLYNOMIAL, k);
    } else if j < 16 {
      EightFurther(POLYNOMIAL, k);
      LowBits(POLYNOMIAL >> 8, k);
    } else if j < 24 {
      EightFurther(POLYNOMIAL, k + 8);
      EightFurther(POLYNOMIAL >> 8, k);
      LowBits(POLYNOMIAL >> 8 >> 8, k);
    } else {
      EightFurther(POLYNOMIAL, k + 16);
      EightFurther(POLYNOMIAL >> 8, k + 8);
      EightFurther(POLYNOMIAL >> 8 >> 8, k);
      LowBits(POLYNOMIAL >> 8 >> 8 >> 8, k);
    }
  }

  lemma {:induction false} HasConstants(k: nat)
    requires k < 32
    ensures Has(POLYNOMIAL, k) <==> k in GENERATOR
    ensures Has(ONES, k)
  {
    GeneratorBits(31 - k);
    BitsOfOnes(31 - k);
  }

  lemma {:induction false} HasLast(c: word)
    ensures Has(c, 31) <==> c & 1 == 1
  {
  }

  // ---------------------------------------------------------------------
  //  Steps of the register are steps of the division
  // ---------------------------------------------------------------------

  function BitOf(bit: bool): word { if bit then 1 else 0 }

  lemma Toggled(c: word, bit: bool)
    ensures Xor(c, BitOf(bit)) >> 1 == c >> 1
    ensures Xor(c, BitOf(bit)) & 1 == 1 <==> (c & 1 == 1) != bit
  {
  }

  lemma {:induction false} StepDivides(c: word, bit: bool)
    ensures PolynomialOf(Step(Xor(c, BitOf(bit)))) == Divide(PolynomialOf(c), bit)
  {
    Toggled(c, bit);
    StepCases(Xor(c, BitOf(bit)));
    HasLast(c);
    hide Has, Step, Xor, BitOf;
    var next := Step(Xor(c, BitOf(bit)));
    forall k: nat | k < 32
      ensures Has(next, k) <==> (k > 0 && Has(c, k - 1)) != ((Has(c, 31) != bit) && k in GENERATOR)
    {
      HasHalf(c, k);
      HasConstants(k);
      HasXor(c >> 1, POLYNOMIAL, k);
    }
    DividesAt(PolynomialOf(c), bit, PolynomialOf(next));
  }

  /** The division, exponent by exponent. */
  lemma {:induction false} DividesAt(r: Polynomial, bit: bool, q: Polynomial)
    requires (forall k :: k in r ==> k < 32) && (forall k :: k in q ==> k < 32)
    requires forall k: nat :: k < 32 ==> (k in q <==> (k > 0 && k - 1 in r) != (((31 in r) != bit) && k in GENERATOR))
    ensures q == Divide(r, bit)
  {
    var up := Plus(TimesX(r), if bit then {32} else {});
    assert forall k: nat :: k < 32 ==> (k in up <==> k > 0 && k - 1 in r);
    assert 32 in up <==> (31 in r) != bit;
  }

  lemma {:induction false} StepsFirst(c: word, n: nat)
    requires n > 0
    ensures Steps(c, n) == Steps(Step(c), n - 1)
  {
    hide Step;
    StepsAdd(c, 1, n - 1);
    assert Steps(c, 0) == c && Steps(c, 1) == Step(c);
  }

  /** b has no more than n bits. */
  predicate Short(b: byte, n: nat)
    decreases n
  {
    if n == 0 then b == 0 else Short(b >> 1, n - 1)
  }

  lemma {:induction false} AllAreShort(b: byte)
    ensures Short(b, 8)
  {
    var c := b >> 1 >> 1 >> 1 >> 1;
    assert Short(c >> 1 >> 1 >> 1 >> 1, 0);
    assert Short(c >> 1 >> 1, 2);
    assert Short(c, 4);
    assert Short(b >> 1 >> 1, 6);
  }

  lemma WideParts(c: word, b: byte)
    ensures Xor(c, Wide(b)) == Xor(Xor(c, BitOf(b & 1 == 1)), Wide(b >> 1) << 1)
    ensures (Wide(b >> 1) << 1) >> 1 == Wide(b >> 1)
    ensures (Wide(b >> 1) << 1) & 1 == 0
  {
  }

  /** Adding a byte first and then stepping is bringing down its bits. */
  lemma {:induction false} BitsDivide(c: word, b: byte, n: nat)
    requires Short(b, n)
    ensures PolynomialOf(Steps(Xor(c, Wide(b)), n)) == DivideBits(PolynomialOf(c), b, n)
    decreases n
  {
    if n == 0 {
      assert Xor(c, Wide(b)) == c;
    } else {
      var low := Xor(c, BitOf(b & 1 == 1));
      StepsFirst(Xor(c, Wide(b)), n);
      WideParts(c, b);
      StepLinear(low, Wide(b >> 1) << 1);
      EvenStep(Wide(b >> 1) << 1);
      StepDivides(c, b & 1 == 1);
      BitsDivide(Step(low), b >> 1, n - 1);
    }
  }

  lemma {:induction false} FoldDivides(c: word, data: seq<byte>)
    ensures PolynomialOf(Fold(c, data)) == Remainder(PolynomialOf(c), data)
    decreases |data|
  {
    hide PolynomialOf, DivideBits, Steps, Wide, Xor;
    if data != [] {
      FoldDivides(c, data[..|data| - 1]);
      var last := data[|data| - 1];
      AllAreShort(last);
      BitsDivide(Fold(c, data[..|data| - 1]), last, 8);
    }
  }

  /** The checksum of every message: the complement of the remainder, when the
      division starts from all ones. */
  lemma {:induction false} CrcIsRemainder(data: seq<byte>)
    ensures PolynomialOf(Crc(data)) == ALL - Remainder(ALL, data)
  {
    hide Xor, Has, Remainder, Fold;
    FoldDivides(ONES, data);
    var s := Fold(ONES, data);
    forall k: nat | k < 32
      ensures Has(ONES, k) && (Has(Xor(s, ONES), k) <==> !Has(s, k))
    {
      HasConstants(k);
      HasXor(s, ONES, k);
    }
    assert PolynomialOf(ONES) == ALL;
  }
}
