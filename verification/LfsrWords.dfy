// The register as a machine word, on which the products and powers that the
// period argument needs are evaluated.
module LfsrWords {
  import opened Lfsr

  // ----- the same register as a machine word -----

  // The two statements that turn pid_lfsr.
  function StepBv(s: bv16): bv16 {
    if s & 1 == 1 then (s >> 1) ^ 0xB400 else s >> 1
  }

  function PickBv(v: bv16, w: bv16): bv16 {
    if v & 0x8000 != 0 then w else 0
  }

  predicate Bit(b: bv16, mask: bv16) {
    b & mask != 0
  }

  function FromBv(b: bv16): Reg {
    Reg(Bit(b, 0x0001), Bit(b, 0x0002), Bit(b, 0x0004), Bit(b, 0x0008),
        Bit(b, 0x0010), Bit(b, 0x0020), Bit(b, 0x0040), Bit(b, 0x0080),
        Bit(b, 0x0100), Bit(b, 0x0200), Bit(b, 0x0400), Bit(b, 0x0800),
        Bit(b, 0x1000), Bit(b, 0x2000), Bit(b, 0x4000), Bit(b, 0x8000))
  }

  lemma BitXor(a: bv16, b: bv16, mask: bv16)
    requires mask & (mask - 1) == 0
    ensures Bit(a ^ b, mask) == (Bit(a, mask) != Bit(b, mask))
  {
  }

  lemma BitShr(b: bv16, mask: bv16)
    ensures Bit(b >> 1, mask) == Bit(b, mask << 1)
  {
  }

  lemma BitShl(b: bv16, mask: bv16)
    ensures Bit(b << 1, mask) == Bit(b, mask >> 1)
  {
  }

  lemma FromBvXor(a: bv16, b: bv16)
    ensures FromBv(a ^ b) == Xor(FromBv(a), FromBv(b))
  {
    hide Bit;
    BitXor(a, b, 0x0001); BitXor(a, b, 0x0002); BitXor(a, b, 0x0004); BitXor(a, b, 0x0008);
    BitXor(a, b, 0x0010); BitXor(a, b, 0x0020); BitXor(a, b, 0x0040); BitXor(a, b, 0x0080);
    BitXor(a, b, 0x0100); BitXor(a, b, 0x0200); BitXor(a, b, 0x0400); BitXor(a, b, 0x0800);
    BitXor(a, b, 0x1000); BitXor(a, b, 0x2000); BitXor(a, b, 0x4000); BitXor(a, b, 0x8000);
  }

  lemma FromBvShr(b: bv16)
    ensures FromBv(b >> 1) == Shr(FromBv(b))
  {
    hide Bit;
    BitShr(b, 0x0001); BitShr(b, 0x0002); BitShr(b, 0x0004); BitShr(b, 0x0008);
    BitShr(b, 0x0010); BitShr(b, 0x0020); BitShr(b, 0x0040); BitShr(b, 0x0080);
    BitShr(b, 0x0100); BitShr(b, 0x0200); BitShr(b, 0x0400); BitShr(b, 0x0800);
    BitShr(b, 0x1000); BitShr(b, 0x2000); BitShr(b, 0x4000); BitShr(b, 0x8000);
    BitNone(b);
  }

  lemma FromBvShl(b: bv16)
    ensures FromBv(b << 1) == Shl(FromBv(b))
  {
    hide Bit;
    BitShl(b, 0x0001); BitShl(b, 0x0002); BitShl(b, 0x0004); BitShl(b, 0x0008);
    BitShl(b, 0x0010); BitShl(b, 0x0020); BitShl(b, 0x0040); BitShl(b, 0x0080);
    BitShl(b, 0x0100); BitShl(b, 0x0200); BitShl(b, 0x0400); BitShl(b, 0x0800);
    BitShl(b, 0x1000); BitShl(b, 0x2000); BitShl(b, 0x4000); BitShl(b, 0x8000);
    BitNone(b);
  }

  lemma BitNone(b: bv16)
    ensures !Bit(b, 0)
  {
  }

  lemma Feedback()
    ensures FromBv(0xB400) == Reg(false, false, false, false, false, false, false, false,
                                  false, false, true, false, true, true, false, true)
    ensures FromBv(0) == ZERO
  {
  }

  // The unit as a word.
  lemma UnitWord(e: Reg)
    requires IsUnit(e)
    ensures FromBv(0x8000) == e
  {
  }

  lemma SomeUnit() returns (e: Reg)
    ensures IsUnit(e)
  {
    e := FromBv(0x8000);
  }

  lemma StepShr(s: Reg)
    ensures Step(s) == if s.b0 then Xor(Shr(s), FromBv(0xB400)) else Shr(s)
  {
    hide Bit, FromBv;
    Feedback();
  }

  lemma LowBit(b: bv16)
    ensures FromBv(b).b0 <==> b & 1 == 1
    ensures FromBv(b).b15 <==> b & 0x8000 != 0
  {
  }

  lemma FromBvStep(b: bv16)
    ensures FromBv(StepBv(b)) == Step(FromBv(b))
  {
    hide FromBv, Step, Xor, Shr;
    LowBit(b);
    FromBvShr(b);
    FromBvXor(b >> 1, 0xB400);
    StepShr(FromBv(b));
  }

  lemma FromBvPick(v: bv16, w: bv16)
    ensures FromBv(PickBv(v, w)) == Pick(FromBv(v), FromBv(w))
  {
    hide FromBv, ZERO;
    LowBit(v);
    Feedback();
  }

  lemma FromBvInjective(a: bv16, b: bv16)
    requires FromBv(a) == FromBv(b)
    ensures a == b
  {
  }

  function Turn(v: bv16, w: bv16, rest: bv16): bv16 {
    PickBv(v, w) ^ rest
  }

  function MulBv(k: nat, v: bv16, w: bv16): bv16 {
    if k == 0 then 0 else Turn(v, w, MulBv(k - 1, v << 1, StepBv(w)))
  }

  lemma {:induction false} MulBvIsMul(k: nat, v: bv16, w: bv16)
    ensures FromBv(MulBv(k, v, w)) == Mul(k, FromBv(v), FromBv(w))
  {
    hide FromBv, Xor, Pick, Shl, Step, StepBv, PickBv, ZERO;
    if k == 0 {
      Feedback();
    } else {
      FromBvShl(v);
      FromBvStep(w);
      FromBvPick(v, w);
      FromBvXor(PickBv(v, w), MulBv(k - 1, v << 1, StepBv(w)));
      MulBvIsMul(k - 1, v << 1, StepBv(w));
    }
  }

  // Four turns of MulBv written out, for evaluation on constants.
  function Turn4(v: bv16, w: bv16, rest: bv16): bv16 {
    Turn(v, w, Turn(v << 1, StepBv(w), Turn(v << 1 << 1, StepBv(StepBv(w)),
    Turn(v << 1 << 1 << 1, StepBv(StepBv(StepBv(w))), rest))))
  }

  function Shl4Bv(v: bv16): bv16 {
    v << 1 << 1 << 1 << 1
  }

  function Step4Bv(w: bv16): bv16 {
    StepBv(StepBv(StepBv(StepBv(w))))
  }

  // A product worked out four turns at a time: w4, w8 and w12 are the
  // multiplicand after 4, 8 and 12 steps, and r1, r2, r3 the partial results.
  predicate Certificate(v: bv16, w: bv16, w4: bv16, w8: bv16, w12: bv16, r3: bv16, r2: bv16, r1: bv16, c: bv16) {
    && Step4Bv(w) == w4 && Step4Bv(w4) == w8 && Step4Bv(w8) == w12
    && Turn4(Shl4Bv(Shl4Bv(Shl4Bv(v))), w12, 0) == r3
    && Turn4(Shl4Bv(Shl4Bv(v)), w8, r3) == r2
    && Turn4(Shl4Bv(v), w4, r2) == r1
    && Turn4(v, w, r1) == c
  }

  lemma MulBvTurn4(k: nat, v: bv16, w: bv16)
    ensures MulBv(k + 4, v, w) == Turn4(v, w, MulBv(k, Shl4Bv(v), Step4Bv(w)))
  {
    hide Turn, StepBv;
    assert MulBv(k + 4, v, w) == Turn(v, w, MulBv(k + 3, v << 1, StepBv(w)));
    assert MulBv(k + 2, v << 1 << 1, StepBv(StepBv(w))) ==
           Turn(v << 1 << 1, StepBv(StepBv(w)), MulBv(k + 1, v << 1 << 1 << 1, StepBv(StepBv(StepBv(w)))));
  }

  lemma CertificateIsMul(v: bv16, w: bv16, w4: bv16, w8: bv16, w12: bv16, r3: bv16, r2: bv16, r1: bv16, c: bv16)
    requires Certificate(v, w, w4, w8, w12, r3, r2, r1, c)
    ensures FromBv(c) == Mul(16, FromBv(v), FromBv(w))
  {
    hide FromBv, Mul, MulBv, Turn4, Shl4Bv, Step4Bv;
    MulBvNone(Shl4Bv(Shl4Bv(Shl4Bv(Shl4Bv(v)))), Step4Bv(w12));
    MulBvTurn4(0, Shl4Bv(Shl4Bv(Shl4Bv(v))), w12);
    MulBvTurn4(4, Shl4Bv(Shl4Bv(v)), w8);
    MulBvTurn4(8, Shl4Bv(v), w4);
    MulBvTurn4(12, v, w);
    MulBvIsMul(16, v, w);
  }

  lemma MulBvNone(v: bv16, w: bv16)
    ensures MulBv(0, v, w) == 0
  {
  }

  // ----- powers -----

  // The n-th power of a step, as the multiplier it is: n steps from the unit e.
  predicate IsPower(n: nat, b: bv16, e: Reg) {
    Pow(n, e) == FromBv(b)
  }

  lemma PowerProduct(m: nat, n: nat, v: bv16, w: bv16, w4: bv16, w8: bv16, w12: bv16,
                     r3: bv16, r2: bv16, r1: bv16, c: bv16, e: Reg)
    requires IsUnit(e) && IsPower(m, v, e) && IsPower(n, w, e)
    requires Certificate(v, w, w4, w8, w12, r3, r2, r1, c)
    ensures IsPower(m + n, c, e)
  {
    hide Pow, FromBv, Mul, Certificate, IsUnit;
    PowAdd(m, n, e);
    PowIsMul(m, Pow(n, e), e);
    CertificateIsMul(v, w, w4, w8, w12, r3, r2, r1, c);
  }

  lemma PowerStep(n: nat, b: bv16, c: bv16, e: Reg)
    requires IsPower(n, b, e) && StepBv(b) == c
    ensures IsPower(n + 1, c, e)
  {
    hide FromBv;
    FromBvStep(b);
  }

  // Steps that drop no bit.
  lemma ThreeSteps(n: nat, b: bv16, c: bv16, e: Reg)
    requires IsPower(n, b, e) && b & 7 == 0 && c == b >> 1 >> 1 >> 1
    ensures IsPower(n + 3, c, e)
  {
    hide IsPower;
    PowerStep(n, b, b >> 1, e);
    PowerStep(n + 1, b >> 1, b >> 1 >> 1, e);
    PowerStep(n + 2, b >> 1 >> 1, c, e);
  }

  lemma FourSteps(n: nat, b: bv16, c: bv16, e: Reg)
    requires IsPower(n, b, e) && b & 15 == 0 && c == b >> 1 >> 1 >> 1 >> 1
    ensures IsPower(n + 4, c, e)
  {
    hide IsPower;
    ThreeSteps(n, b, b >> 1 >> 1 >> 1, e);
    PowerStep(n + 3, b >> 1 >> 1 >> 1, c, e);
  }

  // The unit has a single bit, which 15 steps take from the top to the bottom.
  lemma FifteenSteps(n: nat, e: Reg)
    requires IsPower(n, 0x8000, e)
    ensures IsPower(n + 15, 0x0001, e)
  {
    hide IsPower;
    FourSteps(n, 0x8000, 0x0800, e);
    FourSteps(n + 4, 0x0800, 0x0080, e);
    FourSteps(n + 8, 0x0080, 0x0008, e);
    ThreeSteps(n + 12, 0x0008, 0x0001, e);
  }

  lemma PowNone(s: Reg)
    ensures Pow(0, s) == s
  {
  }

  lemma PowerNone(e: Reg)
    requires IsUnit(e)
    ensures IsPower(0, 0x8000, e)
  {
    UnitWord(e);
    hide FromBv, IsUnit;
  }

  // Products of a power that is the word 0x0001, whichever power that is.
  lemma EightTimes(m: nat, e: Reg)
    requires IsUnit(e) && IsPower(m, 0x0001, e)
    ensures IsPower(8 * m, 0x361D, e)
  {
    hide Pow, FromBv, IsUnit, IsPower;
    PowerProduct(m, m, 0x0001, 0x0001, 0x1680, 0x0168, 0xB416, 0xF882, 0xF882, 0xF882, 0xF882, e);
    PowerProduct(2 * m, 2 * m, 0xF882, 0xF882, 0x2288, 0xB628, 0xBF62, 0x9BD8, 0x2DF0, 0x0F78, 0x448B, e);
    PowerProduct(4 * m, 4 * m, 0x448B, 0x448B, 0x8BC8, 0xBCBC, 0xE5CB, 0x5900, 0xE5BC, 0xA058, 0x361D, e);
  }

  lemma TwiceAndMore(m: nat, n: nat, e: Reg)
    requires IsUnit(e) && IsPower(m, 0x361D, e) && IsPower(n, 0x0001, e)
    ensures IsPower(2 * m + n, 0xA300, e)
  {
    hide Pow, FromBv, IsUnit, IsPower;
    PowerProduct(m, m, 0x361D, 0x361D, 0xFBE1, 0x193E, 0xC293, 0x7888, 0x95AF, 0x38A7, 0xF0E3, e);
    PowerProduct(2 * m, n, 0xF0E3, 0x0001, 0x1680, 0x0168, 0xB416, 0x6187, 0x6001, 0x6001, 0xA300, e);
  }

  lemma TwoSteps(n: nat, e: Reg)
    requires IsPower(n, 0xA300, e)
    ensures IsPower(n + 2, 0x28C0, e)
  {
    hide IsPower;
    PowerStep(n, 0xA300, 0x5180, e);
    PowerStep(n + 1, 0x5180, 0x28C0, e);
  }

  // Multiples of a power that is the word 0x28C0.
  lemma SmallMultiples(n: nat, e: Reg)
    requires IsUnit(e) && IsPower(n, 0x28C0, e)
    ensures IsPower(2 * n, 0x9180, e) && IsPower(3 * n, 0x77A1, e) && IsPower(6 * n, 0x6DE8, e)
            && IsPower(12 * n, 0xBA56, e)
  {
    hide Pow, FromBv, IsUnit, IsPower;
    PowerProduct(n, n, 0x28C0, 0x28C0, 0x028C, 0xEE28, 0xBAE2, 0x0000, 0x993C, 0x9BB0, 0x9180, e);
    PowerProduct(2 * n, n, 0x9180, 0x28C0, 0x028C, 0xEE28, 0xBAE2, 0x0000, 0xEE28, 0x5A79, 0x77A1, e);
    PowerProduct(3 * n, 3 * n, 0x77A1, 0x77A1, 0x11FA, 0x981F, 0xDC01, 0x3680, 0x6698, 0x8624, 0x6DE8, e);
    PowerProduct(6 * n, 6 * n, 0x6DE8, 0x6DE8, 0xB2DE, 0xC82D, 0xF402, 0xF402, 0x8432, 0x97D8, 0xBA56, e);
  }

  lemma MiddleMultiples(n: nat, e: Reg)
    requires IsUnit(e) && IsPower(2 * n, 0x9180, e) && IsPower(3 * n, 0x77A1, e) && IsPower(12 * n, 0xBA56, e)
    ensures IsPower(15 * n, 0x2D35, e) && IsPower(30 * n, 0xF99D, e) && IsPower(34 * n, 0xA309, e)
  {
    hide Pow, FromBv, IsUnit, IsPower;
    PowerProduct(12 * n, 3 * n, 0xBA56, 0x77A1, 0x11FA, 0x981F, 0xDC01, 0xB700, 0x9F0C, 0x3E88, 0x2D35, e);
    PowerProduct(15 * n, 15 * n, 0x2D35, 0x2D35, 0x4E53, 0x3F65, 0x4F76, 0xC055, 0x0B60, 0xA8D0, 0xF99D, e);
    PowerProduct(2 * n, 2 * n, 0x9180, 0x9180, 0x0918, 0xB491, 0x1DC9, 0x0000, 0xB491, 0xB5B2, 0x3602, e);
    PowerProduct(30 * n, 4 * n, 0xF99D, 0x3602, 0x2E60, 0x02E6, 0x772E, 0xAC5C, 0x40E6, 0x6B4A, 0xA309, e);
  }

  lemma LargeMultiples(n: nat, e: Reg)
    requires IsUnit(e) && IsPower(6 * n, 0x6DE8, e) && IsPower(15 * n, 0x2D35, e)
    requires IsPower(30 * n, 0xF99D, e) && IsPower(34 * n, 0xA309, e)
    ensures IsPower(51 * n, 0x5F61, e) && IsPower(85 * n, 0x5335, e) && IsPower(255 * n, 0x8000, e)
  {
    hide Pow, FromBv, IsUnit, IsPower;
    PowerProduct(30 * n, 15 * n, 0xF99D, 0x2D35, 0x4E53, 0x3F65, 0x4F76, 0x8F23, 0x2EAA, 0x1E33, 0x5C77, e);
    PowerProduct(45 * n, 6 * n, 0x5C77, 0x6DE8, 0xB2DE, 0xC82D, 0xF402, 0xB781, 0x8F99, 0x6428, 0x5F61, e);
    PowerProduct(51 * n, 34 * n, 0x5F61, 0xA309, 0xA8B0, 0x0A8B, 0x8F28, 0x11E5, 0x4C02, 0x8FD0, 0x5335, e);
    PowerProduct(85 * n, 85 * n, 0x5335, 0x5335, 0x49B3, 0x3F1B, 0x8C71, 0xCEB6, 0x5F93, 0xDDC9, 0xD335, e);
    PowerProduct(170 * n, 85 * n, 0xD335, 0x5335, 0x49B3, 0x3F1B, 0x8C71, 0xCEB6, 0x5F93, 0xDDC9, 0x8000, e);
  }

  // The powers that the period argument uses, for n steps to the word 0x0001.
  lemma PeriodPowers(n: nat, e: Reg)
    requires IsUnit(e) && IsPower(n, 0x0001, e)
    ensures IsPower(17 * n, 0xA300, e)
    ensures var m := 17 * n + 2;
            IsPower(15 * m, 0x2D35, e) && IsPower(51 * m, 0x5F61, e) && IsPower(85 * m, 0x5335, e)
              && IsPower(255 * m, 0x8000, e)
  {
    hide IsUnit, IsPower;
    EightTimes(n, e);
    TwiceAndMore(8 * n, n, e);
    TwoSteps(17 * n, e);
    var m := 17 * n + 2;
    SmallMultiples(m, e);
    MiddleMultiples(m, e);
    LargeMultiples(m, e);
  }

  // ----- the period is 65535 -----

  predicate Fixed(n: nat, v: Reg) {
    Pow(n, v) == v
  }

  lemma UnitAtPeriod(e: Reg)
    requires IsUnit(e)
    ensures Fixed(65535, e)
  {
    hide Pow, FromBv, IsUnit;
    PowerNone(e);
    FifteenSteps(0, e);
    PeriodPowers(15, e);
    UnitWord(e);
  }

  lemma FixedAtPeriod(v: Reg)
    ensures Fixed(65535, v)
  {
    hide Pow, Mul, FromBv, IsUnit;
    var e := SomeUnit();
    UnitAtPeriod(e);
    MulPow(16, v, 65535, e);
    MulUnit(v, e);
  }

  // When the n-th power minus ONE has an inverse, n steps move every nonzero register.
  lemma Moves(n: nat, b: bv16, v: Reg, u: bv16, w: bv16, w4: bv16, w8: bv16, w12: bv16, r3: bv16, r2: bv16, r1: bv16,
              e: Reg)
    requires IsUnit(e) && IsPower(n, b, e) && w == b ^ 0x8000
    requires Certificate(u, w, w4, w8, w12, r3, r2, r1, 0x8000)
    requires Fixed(n, v)
    ensures v == ZERO
  {
    hide Pow, Mul, FromBv, IsUnit, ZERO, Xor, Certificate;
    UnitWord(e);
    CertificateIsMul(u, w, w4, w8, w12, r3, r2, r1, 0x8000);
    FromBvXor(b, 0x8000);
    MulUnit(v, e);
    Exchange(16, v, 16, FromBv(u), FromBv(w));
    MulXor(16, v, FromBv(b), e);
    MulPow(16, v, n, e);
    XorSelf(v);
    MulZero(16, FromBv(u));
  }

  lemma NoShortPeriod(v: Reg)
    requires v != ZERO
    ensures !Fixed(21845, v) && !Fixed(13107, v) && !Fixed(3855, v) && !Fixed(255, v)
  {
    var e := SomeUnit();
    hide IsPower, Fixed, ZERO, IsUnit, FromBv;
    PowerNone(e);
    FifteenSteps(0, e);
    PeriodPowers(15, e);
    if Fixed(21845, v) {
      Moves(21845, 0x5335, v, 0x5335, 0xD335, 0x41B3, 0x3F9B, 0x8C79, 0xCEB3, 0x5FA6, 0xDEFC, e);
    }
    if Fixed(13107, v) {
      Moves(13107, 0x5F61, v, 0xF03C, 0xDF61, 0x1B76, 0x76B7, 0x66EB, 0xE19E, 0xDFE5, 0xDFE5, e);
    }
    if Fixed(3855, v) {
      Moves(3855, 0x2D35, v, 0xEEFE, 0xAD35, 0x4653, 0x3FE5, 0x4F7E, 0xCF1E, 0x900C, 0xBEE2, e);
    }
    if Fixed(255, v) {
      Moves(255, 0xA300, v, 0x0E55, 0x2300, 0x0230, 0x0023, 0x3B82, 0x40B1, 0x83A4, 0x8000, e);
    }
  }
}
