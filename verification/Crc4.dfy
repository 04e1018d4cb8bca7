/** The 4-bit check over the calibration PROM of the MS5837 pressure sensor. */
module Crc4 {
  import opened Gf2Polynomial

  // ---------------------------------------------------------------- registers as polynomials

  // Names for the register operations, so that proofs can be carried out without looking at bits.

  function Up(x: bv16): bv16 {
    x << 1
  }

  function Down(x: bv16): bv16 {
    x >> 1
  }

  function Flip(x: bv16, y: bv16): bv16 {
    x ^ y
  }

  predicate LowBit(x: bv16) {
    x & 1 == 1
  }

  /** The polynomial whose coefficients are the bits of a 16-bit register. */
  function Poly(x: bv16): nat {
    if x == 0 then 0 else Join(Poly(Down(x)), LowBit(x))
  }

  lemma PolySplit(x: bv16)
    ensures Half(Poly(x)) == Poly(Down(x)) && Odd(Poly(x)) == LowBit(x)
  {
    Halves(Poly(Down(x)), LowBit(x));
  }

  lemma FlipDown(x: bv16, y: bv16)
    ensures Down(Flip(x, y)) == Flip(Down(x), Down(y))
  {
  }

  lemma FlipLowBit(x: bv16, y: bv16)
    ensures LowBit(Flip(x, y)) == (LowBit(x) != LowBit(y))
  {
  }

  lemma DownDecreases(x: bv16, y: bv16)
    requires x != 0 || y != 0
    ensures Down(x) | Down(y) < x | y
  {
  }

  lemma {:induction false} PolyFlip(x: bv16, y: bv16)
    ensures Poly(Flip(x, y)) == Xor(Poly(x), Poly(y))
    decreases x | y
  {
    if x == 0 && y == 0 {
    } else {
      hide *;
      FlipDown(x, y);
      FlipLowBit(x, y);
      DownDecreases(x, y);
      PolyFlip(Down(x), Down(y));
      PolySplit(x);
      PolySplit(y);
      PolySplit(Flip(x, y));
      XorSplit(Poly(x), Poly(y));
      SameHalves(Poly(Flip(x, y)), Xor(Poly(x), Poly(y)));
    }
  }

  lemma UpBits(x: bv16)
    requires x < 0x8000
    ensures Down(Up(x)) == x && !LowBit(Up(x)) && (Up(x) == 0 ==> x == 0)
  {
  }

  lemma PolyUp(x: bv16)
    requires x < 0x8000
    ensures Poly(Up(x)) == Join(Poly(x), false)
  {
    hide *;
    UpBits(x);
    PolySplit(Up(x));
    Halves(Poly(x), false);
    SameHalves(Poly(Up(x)), Join(Poly(x), false));
  }

  /** Moving a register up by one step at a time: `y` is `x` moved up n places. */
  lemma PolyUpNext(x: bv16, y: bv16, n: nat)
    requires y < 0x8000 && Poly(y) == Shift(Poly(x), n)
    ensures Poly(Up(y)) == Shift(Poly(x), n + 1)
  {
    PolyUp(y);
  }

  lemma FourUps(x: bv16)
    requires x < 0x1000
    ensures Up(x) < 0x8000 && Up(Up(x)) < 0x8000 && Up(Up(Up(x))) < 0x8000
    ensures Up(Up(Up(Up(x)))) == x << 4
  {
  }

  lemma PolyUpFour(x: bv16, y: bv16, n: nat)
    requires y < 0x1000 && Poly(y) == Shift(Poly(x), n)
    ensures Poly(y << 4) == Shift(Poly(x), n + 4)
  {
    assert y < 0x8000;
    hide *;
    FourUps(y);
    PolyUpNext(x, y, n);
    PolyUpNext(x, Up(y), n + 1);
    PolyUpNext(x, Up(Up(y)), n + 2);
    PolyUpNext(x, Up(Up(Up(y))), n + 3);
  }

  lemma NibblesUp(x: bv16)
    ensures x < 0x100 ==> x < 0x1000 && x << 4 < 0x1000
    ensures x < 0x10 ==> x < 0x100 && x << 8 < 0x1000
    ensures (x << 4) << 4 == x << 8 && (x << 8) << 4 == x << 12
  {
  }

  lemma PolyShiftLeft(x: bv16)
    ensures x < 0x100 ==> Poly(x << 8) == Shift(Poly(x), 8)
    ensures x < 0x10 ==> Poly(x << 12) == Shift(Poly(x), 12)
  {
    assert Poly(x) == Shift(Poly(x), 0);
    hide *;
    NibblesUp(x);
    if x < 0x100 {
      PolyUpFour(x, x, 0);
      PolyUpFour(x, x << 4, 4);
      if x < 0x10 {
        PolyUpFour(x, x << 8, 8);
      }
    }
  }

  lemma WordBytes(w: bv16)
    ensures w >> 8 < 0x100 && w & 0xFF < 0x100 && Flip((w >> 8) << 8, w & 0xFF) == w
  {
  }

  /** A word is its high byte times x^8, plus its low byte. */
  lemma PolyBytes(w: bv16)
    ensures Poly(w) == Xor(Shift(Poly(w >> 8), 8), Poly(w & 0xFF))
  {
    hide *;
    WordBytes(w);
    PolyShiftLeft(w >> 8);
    PolyFlip((w >> 8) << 8, w & 0xFF);
  }

  /** p without its n lowest coefficients, divided by x^n. */
  function High(p: nat, n: nat): nat {
    if n == 0 then p else Half(High(p, n - 1))
  }

  lemma {:induction false} HighHalf(p: nat, n: nat)
    ensures High(Half(p), n) == High(p, n + 1)
  {
    if n == 0 {
    } else {
      HighHalf(p, n - 1);
    }
  }

  lemma {:induction false} HighOfShift(a: nat, b: nat, n: nat)
    requires b < Shift(1, n)
    ensures High(Xor(Shift(a, n), b), n) == a
  {
    if n == 0 {
      XorZero(a);
    } else {
      assert Half(b) < Shift(1, n - 1);
      XorSplit(Shift(a, n), b);
      Halves(Shift(a, n - 1), false);
      HighOfShift(a, Half(b), n - 1);
      HighHalf(Xor(Shift(a, n), b), n - 1);
    }
  }

  lemma {:induction false} HighBound(p: nat, n: nat)
    requires High(p, n) == 0
    ensures p < Shift(1, n)
  {
    if n == 0 {
    } else {
      HighHalf(p, n - 1);
      HighBound(Half(p), n - 1);
    }
  }

  lemma PolyHighNext(x: bv16, y: bv16, n: nat)
    requires Poly(y) == High(Poly(x), n)
    ensures Poly(Down(y)) == High(Poly(x), n + 1)
  {
    PolySplit(y);
  }

  lemma FourHalves(y: bv16)
    ensures Down(Down(Down(Down(y)))) == y >> 4
  {
  }

  lemma PolyHighFour(x: bv16, y: bv16, n: nat)
    requires Poly(y) == High(Poly(x), n)
    ensures Poly(y >> 4) == High(Poly(x), n + 4)
  {
    hide *;
    FourHalves(y);
    PolyHighNext(x, y, n);
    PolyHighNext(x, Down(y), n + 1);
    PolyHighNext(x, Down(Down(y)), n + 2);
    PolyHighNext(x, Down(Down(Down(y))), n + 3);
  }

  lemma Nibbles(x: bv16)
    ensures (x >> 4) >> 4 == x >> 8 && (x >> 8) >> 4 == x >> 12 && (x >> 12) >> 4 == 0
  {
  }

  lemma PolyHigh(x: bv16)
    ensures Poly(x >> 4) == High(Poly(x), 4)
    ensures Poly(x >> 12) == High(Poly(x), 12)
    ensures High(Poly(x), 16) == 0
  {
    assert Poly(x) == High(Poly(x), 0);
    assert Poly(0) == 0;
    hide *;
    Nibbles(x);
    PolyHighFour(x, x, 0);
    PolyHighFour(x, x >> 4, 4);
    PolyHighFour(x, x >> 8, 8);
    PolyHighFour(x, x >> 12, 12);
  }

  /** Registers stay below the degree of their width. */
  lemma PolyBound(x: bv16)
    ensures Poly(x) < Shift(1, 16)
    ensures x < 0x1000 ==> Poly(x) < Shift(1, 12)
    ensures x < 0x10 ==> Poly(x) < Shift(1, 4)
  {
    SmallRegisters(x);
    assert Poly(0) == 0;
    hide *;
    PolyHigh(x);
    HighBound(Poly(x), 16);
    if x < 0x1000 {
      HighBound(Poly(x), 12);
    }
    if x < 0x10 {
      HighBound(Poly(x), 4);
    }
  }

  lemma SmallRegisters(x: bv16)
    ensures x < 0x1000 ==> x >> 12 == 0
    ensures x < 0x10 ==> x >> 4 == 0
  {
  }

  // ---------------------------------------------------------------- the shift register

  const FEEDBACK: bv16 := 0x3000

  /** x^4 + x + 1 */
  const MODULUS: nat := 19

  /** x^16 + x^13 + x^12, which is MODULUS times x^12 */
  const REGISTER_MODULUS: nat := 0x13000

  predicate TopBit(x: bv16) {
    x & 0x8000 != 0
  }

  /** One pass of the bit loop. */
  function StepBit(rem: bv16): bv16 {
    if TopBit(rem) then Flip(Up(rem), FEEDBACK) else Up(rem)
  }

  function StepBits(rem: bv16, n: nat): bv16 {
    if n == 0 then rem else StepBit(StepBits(rem, n - 1))
  }

  /** One pass of the byte loop. */
  function StepByte(rem: bv16, byte: bv16): bv16 {
    StepBits(Flip(rem, byte), 8)
  }

  function Register(bytes: seq<bv16>): bv16 {
    if |bytes| == 0 then 0 else StepByte(Register(bytes[..|bytes| - 1]), bytes[|bytes| - 1])
  }

  /** Bytes read as one polynomial, first byte most significant. */
  function BytesPoly(bytes: seq<bv16>): nat {
    if |bytes| == 0 then 0
    else Xor(Shift(BytesPoly(bytes[..|bytes| - 1]), 8), Poly(bytes[|bytes| - 1]))
  }

  lemma TopBitCleared(rem: bv16)
    requires TopBit(rem)
    ensures Flip(rem, 0x8000) < 0x8000
  {
  }

  lemma TopBitRestored(rem: bv16)
    ensures Flip(Flip(rem, 0x8000), 0x8000) == rem
  {
  }

  lemma TopBitLost(rem: bv16)
    ensures Up(Flip(rem, 0x8000)) == Up(rem)
  {
  }

  lemma TopBitClear(rem: bv16)
    requires !TopBit(rem)
    ensures rem < 0x8000
  {
  }

  lemma PolyTop()
    ensures Poly(0x8000) == 0x8000
  {
    assert Poly(8) == 8;
    PolyShiftLeft(8);
    assert (8 as bv16) << 12 == 0x8000;
    assert Shift(8, 6) == 0x200 && Shift(0x200, 6) == 0x8000;
    ShiftSum(8, 6, 6);
  }

  lemma PolyFeedback()
    ensures Poly(FEEDBACK) == 0x3000
  {
    assert Poly(3) == 3;
    PolyShiftLeft(3);
    assert (3 as bv16) << 12 == FEEDBACK;
    assert Shift(3, 6) == 0xC0 && Shift(0xC0, 6) == 0x3000;
    ShiftSum(3, 6, 6);
  }

  lemma ModulusFacts()
    ensures Shift(1, 4) == 16 && Shift(1, 5) == 32 && Shift(1, 16) == 0x10000
    ensures Shift(MODULUS, 12) == REGISTER_MODULUS
    ensures Xor(0x10000, REGISTER_MODULUS) == 0x3000
  {
    assert Shift(1, 8) == 0x100 && Shift(0x100, 8) == 0x10000;
    ShiftSum(1, 8, 8);
    assert Shift(19, 6) == 0x4C0 && Shift(0x4C0, 6) == 0x13000;
    ShiftSum(19, 6, 6);
    XorBelowShift(1, 0x3000, 16);
    XorAssociates(0x10000, 0x10000, 0x3000);
    XorSelf(0x10000);
    XorZero(0x3000);
  }

  /** One bit step multiplies by x, up to multiples of the register modulus. */
  lemma StepBitCongruent(p: nat, rem: bv16)
    requires Congruent(p, Poly(rem), REGISTER_MODULUS)
    ensures Congruent(Shift(p, 1), Poly(StepBit(rem)), REGISTER_MODULUS)
  {
    assert Shift(Poly(rem), 1) == Join(Poly(rem), false);
    assert StepBit(rem) == if TopBit(rem) then Flip(Up(rem), FEEDBACK) else Up(rem);
    hide *;
    CongruentShift(p, Poly(rem), REGISTER_MODULUS, 1);
    if TopBit(rem) {
      TopBitCleared(rem);
      TopBitRestored(rem);
      TopBitLost(rem);
      StepTop(rem, Flip(rem, 0x8000));
      CongruentModulus(Shift(Poly(rem), 1), REGISTER_MODULUS);
      CongruentTransitive(Shift(p, 1), Shift(Poly(rem), 1), Poly(StepBit(rem)), REGISTER_MODULUS);
    } else {
      TopBitClear(rem);
      PolyUp(rem);
    }
  }

  lemma StepTop(rem: bv16, t: bv16)
    requires t < 0x8000 && Flip(t, 0x8000) == rem && Up(t) == Up(rem)
    ensures Poly(Flip(Up(rem), FEEDBACK)) == Xor(Shift(Poly(rem), 1), REGISTER_MODULUS)
  {
    hide *;
    PolyFlip(t, 0x8000);
    PolyTop();
    PolyUp(t);
    PolyFlip(Up(rem), FEEDBACK);
    PolyFeedback();
    StepTopPoly(Poly(t));
  }

  lemma StepTopPoly(t: nat)
    ensures Xor(Shift(Xor(t, 0x8000), 1), REGISTER_MODULUS) == Xor(Join(t, false), 0x3000)
  {
    assert Shift(0x8000, 1) == 0x10000;
    assert Shift(t, 1) == Join(t, false);
    hide *;
    ShiftXor(t, 0x8000, 1);
    ModulusFacts();
    XorAssociates(Shift(t, 1), 0x10000, REGISTER_MODULUS);
  }

  lemma {:induction false} StepBitsCongruent(p: nat, rem: bv16, n: nat)
    requires Congruent(p, Poly(rem), REGISTER_MODULUS)
    ensures Congruent(Shift(p, n), Poly(StepBits(rem, n)), REGISTER_MODULUS)
  {
    if n == 0 {
    } else {
      StepBitsCongruent(p, rem, n - 1);
      StepBitCongruent(Shift(p, n - 1), StepBits(rem, n - 1));
      assert Shift(Shift(p, n - 1), 1) == Shift(p, n);
    }
  }

  /** For byte strings of any length, the register holds the bytes so far times x^8,
      modulo x^16 + x^13 + x^12. */
  lemma {:induction false} RegisterCongruent(bytes: seq<bv16>)
    ensures Congruent(Shift(BytesPoly(bytes), 8), Poly(Register(bytes)), REGISTER_MODULUS)
  {
    if |bytes| == 0 {
      CongruentSelf(0, REGISTER_MODULUS);
      assert Shift(0, 8) == 0;
    } else {
      var init, last := bytes[..|bytes| - 1], bytes[|bytes| - 1];
      RegisterCongruent(init);
      CongruentSelf(Poly(last), REGISTER_MODULUS);
      CongruentSum(Shift(BytesPoly(init), 8), Poly(Register(init)), Poly(last), Poly(last), REGISTER_MODULUS);
      PolyFlip(Register(init), last);
      StepBitsCongruent(BytesPoly(bytes), Flip(Register(init), last), 8);
    }
  }

  // ---------------------------------------------------------------- remainders

  /** r is the remainder of p on division by x^4 + x + 1. */
  ghost predicate IsRemainder(p: nat, r: nat) {
    r < 16 && Congruent(p, r, MODULUS)
  }

  lemma RemainderUnique(p: nat, r: nat, s: nat)
    requires IsRemainder(p, r) && IsRemainder(p, s)
    ensures r == s
  {
    ModulusFacts();
    ResidueUnique(p, r, s, MODULUS, 4);
  }

  /** Words read as one polynomial, first word most significant. */
  function Image(words: seq<bv16>): nat {
    if |words| == 0 then 0
    else Xor(Shift(Image(words[..|words| - 1]), 16), Poly(words[|words| - 1]))
  }

  /** The bytes of the words in the order the byte loop takes them. */
  function WordsBytes(words: seq<bv16>): seq<bv16> {
    if |words| == 0 then []
    else WordsBytes(words[..|words| - 1]) + [words[|words| - 1] >> 8, words[|words| - 1] & 0xFF]
  }

  lemma {:induction false} BytesOfWords(words: seq<bv16>)
    ensures BytesPoly(WordsBytes(words)) == Image(words)
  {
    if |words| == 0 {
    } else {
      var init, w := words[..|words| - 1], words[|words| - 1];
      BytesOfWords(init);
      CombineBytes(Image(init), w);
      BytesPolyTwo(WordsBytes(init), w >> 8, w & 0xFF);
    }
  }

  lemma BytesPolyTwo(bytes: seq<bv16>, hi: bv16, lo: bv16)
    ensures BytesPoly(bytes + [hi, lo]) == Xor(Shift(Xor(Shift(BytesPoly(bytes), 8), Poly(hi)), 8), Poly(lo))
  {
    hide *;
    BytesPolyOne(bytes, hi);
    BytesPolyOne(bytes + [hi], lo);
    assert bytes + [hi] + [lo] == bytes + [hi, lo];
  }

  lemma BytesPolyOne(bytes: seq<bv16>, byte: bv16)
    ensures BytesPoly(bytes + [byte]) == Xor(Shift(BytesPoly(bytes), 8), Poly(byte))
  {
    var b := bytes + [byte];
    assert b[..|b| - 1] == bytes;
    hide Xor, Shift, Poly;
  }

  lemma CombineBytes(p: nat, w: bv16)
    ensures Xor(Shift(Xor(Shift(p, 8), Poly(w >> 8)), 8), Poly(w & 0xFF)) == Xor(Shift(p, 16), Poly(w))
  {
    hide *;
    ShiftXor(Shift(p, 8), Poly(w >> 8), 8);
    ShiftSum(p, 8, 8);
    XorAssociates(Shift(p, 16), Shift(Poly(w >> 8), 8), Poly(w & 0xFF));
    PolyBytes(w);
  }

  /** What remains of a register congruent to p * x^24: its top four bits are the remainder of p * x^12. */
  lemma TopNibble(p: nat, rem: bv16)
    requires Congruent(Shift(p, 24), Poly(rem), REGISTER_MODULUS)
    ensures IsRemainder(Shift(p, 12), Poly(rem >> 12))
  {
    hide Xor, Shift, Mul, Poly;
    var q: nat :| Xor(Shift(p, 24), Poly(rem)) == Mul(q, REGISTER_MODULUS);
    var c := Xor(Shift(p, 12), Mul(q, MODULUS));
    RegisterIsShifted(p, Poly(rem), q);
    XorAssociates(Shift(p, 12), Shift(p, 12), Mul(q, MODULUS));
    XorSelf(Shift(p, 12));
    XorZero(Mul(q, MODULUS));
    assert Congruent(Shift(p, 12), c, MODULUS);
    PolyTwelveHalves(rem, c);
  }

  lemma RegisterIsShifted(p: nat, r: nat, q: nat)
    requires Xor(Shift(p, 24), r) == Mul(q, REGISTER_MODULUS)
    ensures r == Shift(Xor(Shift(p, 12), Mul(q, MODULUS)), 12)
  {
    hide *;
    ModulusFacts();
    MulShiftRight(q, MODULUS, 12);
    XorAssociates(Shift(p, 24), Shift(p, 24), r);
    XorSelf(Shift(p, 24));
    XorZero(r);
    ShiftSum(p, 12, 12);
    ShiftXor(Shift(p, 12), Mul(q, MODULUS), 12);
  }

  lemma PolyTwelveHalves(rem: bv16, c: nat)
    requires Poly(rem) == Shift(c, 12)
    ensures Poly(rem >> 12) == c < 16
  {
    TopFourBits(rem);
    hide *;
    PolyHigh(rem);
    ModulusFacts();
    ShiftPositive(12);
    HighOfShift(c, 0, 12);
    XorZero(Shift(c, 12));
    PolyBound(rem >> 12);
  }

  lemma TopFourBits(rem: bv16)
    ensures rem >> 12 < 0x10 && (rem >> 12) & 0x000F == rem >> 12
  {
  }

  lemma {:induction false} ShiftPositive(n: nat)
    ensures 0 < Shift(1, n)
  {
    if n == 0 {
    } else {
      ShiftPositive(n - 1);
    }
  }

  /** The calibration bytes followed by the two zero bytes of word 7 leave the remainder of the
      calibration image times x^12 in the top of the register. */
  lemma PromRemainder(words: seq<bv16>)
    requires |words| == 8 && words[7] == 0
    ensures IsRemainder(Shift(Image(words[..7]), 12), Poly(Register(WordsBytes(words)) >> 12))
  {
    assert words[..7] + [0] == words;
    assert Poly(0) == 0;
    hide Xor, Shift, Poly, BytesPoly, WordsBytes;
    var p := Image(words[..7]);
    RegisterCongruent(WordsBytes(words));
    BytesOfWords(words);
    XorZero(Shift(p, 16));
    ShiftSum(p, 16, 8);
    TopNibble(p, Register(WordsBytes(words)));
  }

  lemma {:induction false} WordsBytesAt(words: seq<bv16>)
    ensures |WordsBytes(words)| == 2 * |words|
    ensures forall i :: 0 <= i < |WordsBytes(words)| ==>
      WordsBytes(words)[i] == if i % 2 == 1 then words[i / 2] & 0xFF else words[i / 2] >> 8
  {
    if |words| == 0 {
    } else {
      WordsBytesAt(words[..|words| - 1]);
    }
  }

  function HighByte(word: bv16): bv16 {
    word >> 8
  }

  function LowByte(word: bv16): bv16 {
    word & 0x00FF
  }

  lemma WordsByteAt(words: seq<bv16>, i: nat)
    requires i < 2 * |words|
    ensures |WordsBytes(words)| == 2 * |words|
    ensures WordsBytes(words)[i] == if i % 2 == 1 then LowByte(words[i / 2]) else HighByte(words[i / 2])
  {
    WordsBytesAt(words);
    hide WordsBytes;
  }

  lemma NoBytes(words: seq<bv16>)
    ensures |WordsBytes(words)| == 2 * |words| && Register(WordsBytes(words)[..0]) == 0
  {
    WordsBytesAt(words);
  }

  // ---------------------------------------------------------------- the method

  function TopNibbleOf(word: bv16): bv16 {
    word >> 12
  }

  function ClearTop(word: bv16): bv16 {
    word & 0x0FFF
  }

  /** Word 0 without the stored check nibble; word 7 cleared. */
  function Masked(words: seq<bv16>): seq<bv16>
    requires |words| == 8
  {
    words[0 := ClearTop(words[0])][7 := 0]
  }

  lemma StepBitIs(rem: bv16)
    ensures StepBit(rem) == if rem & 0x8000 != 0 then (rem << 1) ^ 0x3000 else rem << 1
  {
  }

  lemma BitLoopStep(start: bv16, n: nat, rem: bv16)
    requires rem == StepBits(start, n)
    ensures StepBits(start, n + 1) == if rem & 0x8000 != 0 then (rem << 1) ^ 0x3000 else rem << 1
  {
    hide StepBit;
    assert StepBits(start, n + 1) == StepBit(rem);
    StepBitIs(rem);
  }

  lemma ByteLoopStep(bytes: seq<bv16>, i: nat)
    requires i < |bytes|
    ensures Register(bytes[..i + 1]) == StepBits(Flip(Register(bytes[..i]), bytes[i]), 8)
  {
    hide Flip, StepBits;
    assert bytes[..i + 1][..i] == bytes[..i];
  }

  lemma FlipsByte(rem: bv16, word: bv16)
    ensures rem ^ (word & 0x00FF) == Flip(rem, LowByte(word))
    ensures rem ^ (word >> 8) == Flip(rem, HighByte(word))
  {
  }

  lemma MaskedIs(words: seq<bv16>, cleared: seq<bv16>)
    requires |words| == 8 && cleared == words[0 := words[0] & 0x0FFF][7 := 0]
    ensures cleared == Masked(words) && cleared[7] == 0
  {
  }

  lemma BytesDone(words: seq<bv16>, rem: bv16)
    requires |words| == 8 && words[7] == 0 && |WordsBytes(words)| == 16
    requires rem == Register(WordsBytes(words)[..16])
    ensures IsRemainder(Shift(Image(words[..7]), 12), Poly((rem >> 12) & 0x000F)) && (rem >> 12) & 0x000F < 16
  {
    hide *;
    assert WordsBytes(words)[..16] == WordsBytes(words);
    PromRemainder(words);
    TopFourBits(rem);
  }

  method CRC4(prom: array<bv16>) returns (crc: bv16)
    requires prom.Length == 8
    modifies prom
    ensures prom[..] == Masked(old(prom[..]))
    ensures IsRemainder(Shift(Image(prom[..7]), 12), Poly(crc))
    ensures crc < 16
  {
    hide *;
    ghost var was := prom[..];
    prom[0] := prom[0] & 0x0FFF;
    prom[7] := 0;
    ghost var words := prom[..];
    MaskedIs(was, words);
    NoBytes(words);
    var rem: bv16 := 0;
    for i := 0 to 16
      invariant prom[..] == words
      invariant rem == Register(WordsBytes(words)[..i])
    {
      WordsByteAt(words, i);
      FlipsByte(rem, prom[i / 2]);
      if i % 2 == 1 {
        rem := rem ^ (prom[i / 2] & 0x00FF);
      } else {
        rem := rem ^ (prom[i / 2] >> 8);
      }
      ByteLoopStep(WordsBytes(words), i);
      StepBitsZero(rem);
      ghost var start := rem;
      for bit := 8 downto 0
        invariant prom[..] == words
        invariant rem == StepBits(start, 8 - bit)
      {
        BitLoopStep(start, 7 - bit, rem);
        if rem & 0x8000 != 0 {
          rem := (rem << 1) ^ 0x3000;
        } else {
          rem := rem << 1;
        }
      }
    }
    BytesDone(words, rem);
    crc := (rem >> 12) & 0x000F;
    assert prom[..7] == words[..7];
  }

  lemma StepBitsZero(start: bv16)
    ensures StepBits(start, 0) == start
  {
  }
}
