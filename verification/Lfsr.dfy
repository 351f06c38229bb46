// The 16-bit Galois LFSR behind the packet identifiers of src/mqtt.c, with
// feedback mask 0xB400, as a vector of 16 bits, over which a step is linear.
module Lfsr {

  // ----- the register as bits -----

  datatype Reg = Reg(
    b0: bool, b1: bool, b2: bool, b3: bool, b4: bool, b5: bool, b6: bool, b7: bool,
    b8: bool, b9: bool, b10: bool, b11: bool, b12: bool, b13: bool, b14: bool, b15: bool)

  const ZERO := Reg(false, false, false, false, false, false, false, false,
                    false, false, false, false, false, false, false, false)

  // Only the top bit is set.
  predicate IsUnit(e: Reg) {
    e.b15 && !(e.b0 || e.b1 || e.b2 || e.b3 || e.b4 || e.b5 || e.b6 || e.b7 ||
               e.b8 || e.b9 || e.b10 || e.b11 || e.b12 || e.b13 || e.b14)
  }

  function Xor(a: Reg, b: Reg): Reg {
    Reg(a.b0 != b.b0, a.b1 != b.b1, a.b2 != b.b2, a.b3 != b.b3,
        a.b4 != b.b4, a.b5 != b.b5, a.b6 != b.b6, a.b7 != b.b7,
        a.b8 != b.b8, a.b9 != b.b9, a.b10 != b.b10, a.b11 != b.b11,
        a.b12 != b.b12, a.b13 != b.b13, a.b14 != b.b14, a.b15 != b.b15)
  }

  // One turn of the register: shift right, and flip bits 15, 13, 12 and 10 when the bit shifted out is set.
  function Step(s: Reg): Reg {
    Reg(s.b1, s.b2, s.b3, s.b4, s.b5, s.b6, s.b7, s.b8, s.b9, s.b10, s.b11 != s.b0, s.b12,
        s.b13 != s.b0, s.b14 != s.b0, s.b15, s.b0)
  }

  function Unstep(s: Reg): Reg {
    Reg(s.b15, s.b0, s.b1, s.b2, s.b3, s.b4, s.b5, s.b6, s.b7, s.b8, s.b9, s.b10 != s.b15, s.b11,
        s.b12 != s.b15, s.b13 != s.b15, s.b14)
  }

  function Shl(s: Reg): Reg {
    Reg(false, s.b0, s.b1, s.b2, s.b3, s.b4, s.b5, s.b6, s.b7, s.b8, s.b9, s.b10, s.b11, s.b12, s.b13, s.b14)
  }

  function Pow(n: nat, s: Reg): Reg {
    if n == 0 then s else Step(Pow(n - 1, s))
  }

  function Pick(v: Reg, w: Reg): Reg {
    if v.b15 then w else ZERO
  }

  // Multiplication of register contents, where the unit is a register with only the top bit set and a step is
  // multiplication by a fixed element.  Only the top k bits of v take part.
  function Mul(k: nat, v: Reg, w: Reg): Reg {
    if k == 0 then ZERO else Xor(Pick(v, w), Mul(k - 1, Shl(v), Step(w)))
  }

  // ----- algebra -----

  lemma StepXor(a: Reg, b: Reg)
    ensures Step(Xor(a, b)) == Xor(Step(a), Step(b))
  {
  }

  lemma UnstepStep(s: Reg)
    ensures Unstep(Step(s)) == s
  {
  }

  lemma XorRules(a: Reg, b: Reg, c: Reg, d: Reg)
    ensures Xor(Xor(a, b), Xor(c, d)) == Xor(Xor(a, c), Xor(b, d))
  {
  }

  lemma XorSelf(a: Reg)
    ensures Xor(a, a) == ZERO
  {
  }

  lemma XorZero(a: Reg)
    ensures Xor(a, ZERO) == a
    ensures Xor(ZERO, a) == a
  {
  }

  lemma {:induction false} PowAdd(m: nat, n: nat, s: Reg)
    ensures Pow(m + n, s) == Pow(m, Pow(n, s))
  {
    if m > 0 {
      PowAdd(m - 1, n, s);
    }
  }

  lemma {:induction false} PowInjective(n: nat, a: Reg, b: Reg)
    requires Pow(n, a) == Pow(n, b)
    ensures a == b
  {
    if n > 0 {
      UnstepStep(Pow(n - 1, a));
      UnstepStep(Pow(n - 1, b));
      PowInjective(n - 1, a, b);
    }
  }

  lemma {:induction false} PowZero(n: nat)
    ensures Pow(n, ZERO) == ZERO
  {
    if n > 0 {
      PowZero(n - 1);
    }
  }

  lemma {:induction false} MulXor(k: nat, v: Reg, a: Reg, b: Reg)
    ensures Mul(k, v, Xor(a, b)) == Xor(Mul(k, v, a), Mul(k, v, b))
  {
    if k == 0 {
      XorZero(ZERO);
    } else {
      var (v', ra, rb) := (Shl(v), Mul(k - 1, Shl(v), Step(a)), Mul(k - 1, Shl(v), Step(b)));
      StepXor(a, b);
      MulXor(k - 1, v', Step(a), Step(b));
      XorRules(Pick(v, a), ra, Pick(v, b), rb);
      XorZero(ZERO);
    }
  }

  lemma {:induction false} MulStep(k: nat, v: Reg, w: Reg)
    ensures Mul(k, v, Step(w)) == Step(Mul(k, v, w))
  {
    if k > 0 {
      MulStep(k - 1, Shl(v), Step(w));
      StepXor(Pick(v, w), Mul(k - 1, Shl(v), Step(w)));
    }
  }

  lemma {:induction false} MulZero(k: nat, v: Reg)
    ensures Mul(k, v, ZERO) == ZERO
  {
    if k > 0 {
      MulZero(k - 1, Shl(v));
      XorZero(ZERO);
    }
  }

  lemma {:induction false} MulPow(k: nat, v: Reg, n: nat, w: Reg)
    ensures Mul(k, v, Pow(n, w)) == Pow(n, Mul(k, v, w))
  {
    hide Mul;
    if n > 0 {
      MulPow(k, v, n - 1, w);
      MulStep(k, v, Pow(n - 1, w));
    }
  }

  lemma {:induction false} Exchange(j: nat, a: Reg, k: nat, v: Reg, w: Reg)
    ensures Mul(j, a, Mul(k, v, w)) == Mul(k, v, Mul(j, a, w))
    decreases k
  {
    MulZero(j, a);
    if k > 0 {
      MulXor(j, a, Pick(v, w), Mul(k - 1, Shl(v), Step(w)));
      Exchange(j, a, k - 1, Shl(v), Step(w));
      MulStep(j, a, w);
    }
  }

  // ----- the unit of the multiplication -----

  function Shr(s: Reg): Reg {
    Reg(s.b1, s.b2, s.b3, s.b4, s.b5, s.b6, s.b7, s.b8, s.b9, s.b10, s.b11, s.b12, s.b13, s.b14, s.b15, false)
  }

  function ShrBy(n: nat, s: Reg): Reg {
    if n == 0 then s else Shr(ShrBy(n - 1, s))
  }

  // The k low bits of s are clear, so k steps only shift it.
  predicate LowClear(k: nat, s: Reg) {
    k == 0 || (!s.b0 && LowClear(k - 1, Shr(s)))
  }

  lemma FourClear(k: nat, s: Reg)
    requires !s.b0 && !s.b1 && !s.b2 && !s.b3 && LowClear(k, Shr4(s))
    ensures LowClear(k + 4, s)
  {
    ShrFour(s);
    assert LowClear(k + 1, Shr(Shr(Shr(s))));
    assert LowClear(k + 2, Shr(Shr(s)));
    assert LowClear(k + 3, Shr(s));
  }

  lemma ThreeClear(s: Reg)
    requires !s.b0 && !s.b1 && !s.b2
    ensures LowClear(3, s)
  {
    assert LowClear(1, Shr(Shr(s)));
    assert LowClear(2, Shr(s));
  }

  lemma UnitLowClear(e: Reg)
    requires IsUnit(e)
    ensures LowClear(15, e)
  {
    hide LowClear;
    ThreeClear(Shr4(Shr4(Shr4(e))));
    FourClear(3, Shr4(Shr4(e)));
    FourClear(7, Shr4(e));
    FourClear(11, e);
  }

  lemma {:induction false} UnitClearAt(j: nat, e: Reg)
    requires IsUnit(e) && j <= 15
    ensures LowClear(15 - j, ShrBy(j, e))
  {
    hide Shr, IsUnit;
    if j == 0 {
      UnitLowClear(e);
    } else {
      UnitClearAt(j - 1, e);
    }
  }

  lemma StepIsShr(s: Reg)
    requires !s.b0
    ensures Step(s) == Shr(s)
  {
  }

  lemma ShrXor(a: Reg, b: Reg)
    ensures Shr(Xor(a, b)) == Xor(Shr(a), Shr(b))
  {
  }

  lemma ShrPick(v: Reg, w: Reg)
    ensures Shr(Pick(v, w)) == Pick(v, Shr(w))
  {
  }

  function ClearTop(v: Reg): Reg {
    v.(b15 := false)
  }

  lemma ShrShl(v: Reg)
    ensures Shr(Shl(v)) == ClearTop(v)
  {
  }

  lemma XorUnit(e: Reg, v: Reg)
    requires IsUnit(e) && v.b15
    ensures Xor(e, ClearTop(v)) == v
  {
    var Reg(c0, c1, c2, c3, c4, c5, c6, c7, c8, c9, c10, c11, c12, c13, c14, c15) := v;
    assert Xor(e, ClearTop(v)) == Reg(c0, c1, c2, c3, c4, c5, c6, c7, c8, c9, c10, c11, c12, c13, c14, true);
  }

  lemma {:induction false} TopBit(e: Reg, v: Reg)
    requires IsUnit(e)
    ensures Xor(Pick(v, e), Shr(Shl(v))) == v
  {
    hide Shr, Shl, Xor, IsUnit, ZERO;
    ShrShl(v);
    if v.b15 {
      XorUnit(e, v);
    } else {
      XorZero(v);
    }
  }

  lemma {:induction false} TopBitAt(m: nat, e: Reg, v: Reg)
    requires IsUnit(e)
    ensures Xor(Pick(v, ShrBy(m, e)), ShrBy(m + 1, Shl(v))) == ShrBy(m, v)
  {
    hide Xor, Pick, Shr, Shl, IsUnit;
    if m == 0 {
      TopBit(e, v);
    } else {
      TopBitAt(m - 1, e, v);
      ShrXor(Pick(v, ShrBy(m - 1, e)), ShrBy(m, Shl(v)));
      ShrPick(v, ShrBy(m - 1, e));
    }
  }

  function Shr4(s: Reg): Reg {
    Reg(s.b4, s.b5, s.b6, s.b7, s.b8, s.b9, s.b10, s.b11, s.b12, s.b13, s.b14, s.b15, false, false, false, false)
  }

  lemma ShrFour(s: Reg)
    ensures Shr(Shr(Shr(Shr(s)))) == Shr4(s)
  {
  }

  lemma FourMore(n: nat, s: Reg)
    ensures ShrBy(0, s) == s && ShrBy(n + 4, s) == Shr4(ShrBy(n, s))
  {
    hide Shr, Shr4;
    ShrFour(ShrBy(n, s));
    assert ShrBy(n + 2, s) == Shr(Shr(ShrBy(n, s)));
  }

  lemma ShrSixteen(s: Reg)
    ensures ShrBy(16, s) == ZERO
  {
    hide ShrBy, Shr4, ZERO;
    FourMore(0, s);
    FourMore(4, s);
    FourMore(8, s);
    FourMore(12, s);
    AllShifted(s);
  }

  lemma AllShifted(s: Reg)
    ensures Shr4(Shr4(Shr4(Shr4(s)))) == ZERO
  {
  }

  // The unit, shifted down by j, multiplied by the k remaining bits of v.
  lemma {:induction false} MulShifted(k: nat, j: nat, v: Reg, e: Reg)
    requires IsUnit(e) && k + j == 16
    ensures Mul(k, v, ShrBy(j, e)) == ShrBy(j, v)
  {
    hide Xor, Pick, Step, Shl, Shr, IsUnit, ZERO;
    if k == 0 {
      ShrSixteen(v);
    } else {
      TopBitAt(j, e, v);
      if k == 1 {
        ShrSixteen(Shl(v));
      } else {
        UnitClearAt(j, e);
        StepIsShr(ShrBy(j, e));
        MulShifted(k - 1, j + 1, Shl(v), e);
      }
    }
  }

  lemma MulUnit(v: Reg, e: Reg)
    requires IsUnit(e)
    ensures Mul(16, v, e) == v
  {
    hide Mul, IsUnit;
    MulShifted(16, 0, v, e);
  }

  // Taking n steps is multiplication by the n-th power.
  lemma PowIsMul(n: nat, v: Reg, e: Reg)
    requires IsUnit(e)
    ensures Pow(n, v) == Mul(16, Pow(n, e), v)
  {
    hide Mul, Pow, IsUnit;
    MulUnit(v, e);
    MulUnit(Pow(n, e), e);
    MulPow(16, v, n, e);
    Exchange(16, v, 16, Pow(n, e), e);
  }
}
