// The register has full period: an argument on the divisors of 65535.
module LfsrPeriod {
  import opened Lfsr
  import opened LfsrWords

  lemma FixedMinus(a: nat, b: nat, v: Reg)
    requires b <= a && Fixed(a, v) && Fixed(b, v)
    ensures Fixed(a - b, v)
  {
    hide Pow;
    PowAdd(b, a - b, v);
    PowInjective(b, Pow(a - b, v), v);
  }

  lemma {:induction false} FixedTimes(q: nat, d: nat, v: Reg)
    requires Fixed(d, v)
    ensures Fixed(q * d, v)
  {
    if q == 0 {
      PowNone(v);
    } else {
      hide Pow;
      FixedTimes(q - 1, d, v);
      PowAdd(d, (q - 1) * d, v);
      assert q * d == d + (q - 1) * d;
    }
  }

  lemma FixedMod(q: nat, a: nat, b: nat, v: Reg)
    requires b > 0 && Fixed(q * a, v) && Fixed(q * b, v)
    ensures Fixed(q * (a % b), v)
  {
    hide Fixed;
    var (k, m) := (a / b, a % b);
    assert a == b * k + m;
    Distribute(q, b, k, m);
    FixedTimes(k, q * b, v);
    FixedMinus(q * a, k * (q * b), v);
  }

  lemma Distribute(q: nat, b: nat, k: nat, m: nat)
    ensures q * (b * k + m) == k * (q * b) + q * m
  {
  }

  ghost predicate Prime(p: nat) {
    forall k {:trigger p % k} :: 1 < k < p ==> p % k != 0
  }

  lemma {:induction false} FixedDescent(q: nat, p: nat, r: nat, v: Reg)
    requires Prime(p) && 0 < r < p && Fixed(q * p, v) && Fixed(q * r, v)
    ensures Fixed(q, v)
    decreases r
  {
    hide Fixed;
    if r == 1 {
      assert q * r == q;
    } else {
      FixedMod(q, p, r, v);
      FixedDescent(q, p, p % r, v);
    }
  }

  // A fixed point of d steps, d not a multiple of the prime p, is one of q steps.
  lemma FixedCofactor(q: nat, p: nat, d: nat, v: Reg)
    requires Prime(p) && p > 0 && d % p != 0
    requires Fixed(q * p, v) && Fixed(d, v)
    ensures Fixed(q, v)
  {
    hide Fixed;
    FixedTimes(q, d, v);
    FixedMod(q, d, p, v);
    FixedDescent(q, p, d % p, v);
  }

  lemma Primes()
    ensures Prime(3) && Prime(5) && Prime(17) && Prime(257)
  {
    forall k | 1 < k < 257 ensures 257 % k != 0 {
      var m := 257 / k;
      if 257 % k == 0 {
        assert k * m == 257;
        if k > 16 && m > 16 {
          LargeFactors(m, k);
        } else if k > 16 {
          NoSmallFactor(m, k);
        } else {
          NoSmallFactor(k, m);
        }
      }
    }
    assert forall k :: 1 < k < 17 ==> 17 % k != 0;
  }

  lemma LargeFactors(m: nat, k: nat)
    requires m > 16 && k > 16
    ensures m * k != 257
  {
    assert m * k >= 17 * k;
  }

  lemma NoSmallFactor(m: nat, k: nat)
    requires m <= 16 && m != 1
    ensures m * k != 257
  {
    if m == 0 {
    } else if m == 2 {
    } else if m == 3 {
    } else if m == 4 {
    } else if m == 5 {
    } else if m == 6 {
    } else if m == 7 {
    } else if m == 8 {
    } else if m == 9 {
    } else if m == 10 {
    } else if m == 11 {
    } else if m == 12 {
    } else if m == 13 {
    } else if m == 14 {
    } else if m == 15 {
    } else {
    }
  }

  lemma MultipleOfLarge(d: nat)
    requires d % 17 == 0 && d % 257 == 0
    ensures d % 4369 == 0
  {
    var a := d / 257;
    assert d == 257 * a && a % 17 == 0;
    assert d == 4369 * (a / 17);
  }

  lemma MultipleOfSmall(d: nat)
    requires d % 3 == 0 && d % 5 == 0
    ensures d % 15 == 0
  {
  }

  lemma MultipleOfAll(d: nat)
    requires d % 3 == 0 && d % 5 == 0 && d % 17 == 0 && d % 257 == 0
    ensures d % 65535 == 0
  {
    MultipleOfLarge(d);
    MultipleOfSmall(d);
    var a := d / 4369;
    assert d == 4369 * a && a % 15 == 0;
    assert d == 65535 * (a / 15);
  }

  // From any nonzero state the register visits 65535 different states.
  lemma FullPeriod(v: Reg, d: nat)
    requires v != ZERO && 0 < d < 65535
    ensures !Fixed(d, v)
  {
    hide Fixed, Prime, ZERO;
    if Fixed(d, v) {
      FixedAtPeriod(v);
      NoShortPeriod(v);
      Primes();
      if d % 3 != 0 {
        FixedCofactor(21845, 3, d, v);
      } else if d % 5 != 0 {
        FixedCofactor(13107, 5, d, v);
      } else if d % 17 != 0 {
        FixedCofactor(3855, 17, d, v);
      } else if d % 257 != 0 {
        FixedCofactor(255, 257, d, v);
      } else {
        MultipleOfAll(d);
      }
    }
  }
}
