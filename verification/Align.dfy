/** Rounding up to a multiple: the mask form used for pointers and the
    divide-and-multiply form used for page counts, both tied to one definition. */
module Align {

  /** `x` is a multiple of `a` (see MultipleIsMod). */
  predicate Multiple(x: nat, a: nat)
    requires a > 0
  {
    x == 0 || (x >= a && Multiple(x - a, a))
  }

  /** The least multiple of `a` that is not below `p` (see AlignUpIsLeast). */
  function AlignUp(p: nat, a: nat): nat
    requires a > 0
  {
    if p == 0 then 0 else if p <= a then a else a + AlignUp(p - a, a)
  }

  function Pow2(k: nat): (r: nat)
    ensures r > 0
  {
    if k == 0 then 1 else 2 * Pow2(k - 1)
  }

  /** Bitwise `x & ~m` on naturals, one binary digit at a time. */
  function AndNot(x: nat, m: nat): nat {
    if x == 0 then 0
    else 2 * AndNot(x / 2, m / 2) + (if x % 2 == 1 && m % 2 == 0 then 1 else 0)
  }

  /** The ALIGN_PTR macro. */
  function AlignPtr(p: nat, a: nat): nat
    requires a > 0
  {
    AndNot(p + (a - 1), a - 1)
  }

  // ----- multiples -----

  lemma {:induction false} MultipleSum(x: nat, y: nat, a: nat)
    requires a > 0 && Multiple(x, a) && Multiple(y, a)
    ensures Multiple(x + y, a)
    decreases x
  {
    if x == 0 {
    } else {
      MultipleSum(x - a, y, a);
      assert x + y - a == (x - a) + y;
    }
  }

  lemma {:induction false} MultipleDifference(x: nat, y: nat, a: nat)
    requires a > 0 && Multiple(x, a) && Multiple(y, a) && y <= x
    ensures Multiple(x - y, a)
    decreases y
  {
    if y == 0 {
    } else {
      MultipleDifference(x - a, y - a, a);
    }
  }

  lemma {:induction false} MultipleTrans(x: nat, b: nat, a: nat)
    requires a > 0 && b > 0 && Multiple(x, b) && Multiple(b, a)
    ensures Multiple(x, a)
    decreases x
  {
    if x == 0 {
    } else {
      MultipleTrans(x - b, b, a);
      MultipleSum(x - b, b, a);
    }
  }

  // ----- rounding -----

  lemma {:induction false} AlignUpIsLeast(p: nat, a: nat)
    requires a > 0
    ensures Multiple(AlignUp(p, a), a)
    ensures p <= AlignUp(p, a) < p + a
    ensures forall m: nat :: p <= m && Multiple(m, a) ==> AlignUp(p, a) <= m
    decreases p
  {
    if p <= a {
    } else {
      AlignUpIsLeast(p - a, a);
      forall m: nat | p <= m && Multiple(m, a)
        ensures AlignUp(p, a) <= m
      {
        assert Multiple(m - a, a);
      }
    }
  }

  /** Rounding distributes over adding a multiple on the left. */
  lemma {:induction false} AlignUpShift(x: nat, n: nat, a: nat)
    requires a > 0 && Multiple(x, a)
    ensures AlignUp(x + n, a) == x + AlignUp(n, a)
    decreases x
  {
    if x == 0 {
    } else {
      AlignUpShift(x - a, n, a);
      assert x + n - a == (x - a) + n;
    }
  }

  /** Multiples are not moved. */
  lemma {:induction false} AlignedStays(x: nat, a: nat)
    requires a > 0 && Multiple(x, a)
    ensures AlignUp(x, a) == x
  {
    AlignUpShift(x, 0, a);
  }

  // ----- division -----

  lemma {:induction false} MulAtLeast(k: int, a: int)
    requires k >= 1 && a >= 1
    ensures k * a >= a
  {
    if k <= 1 {
    } else {
      MulAtLeast(k - 1, a);
      assert k * a == (k - 1) * a + a;
    }
  }

  lemma {:induction false} MulMinus(k: int, q: int, a: int)
    ensures (k - q) * a == k * a - q * a
  {
  }

  /** A quotient and a remainder in range are the only ones. */
  lemma {:induction false} SameQuotient(q: int, r: int, q': int, r': int, a: int)
    requires a > 0 && 0 <= r < a && 0 <= r' < a
    requires q * a + r == q' * a + r'
    ensures q == q' && r == r'
  {
    if q < q' {
      MulAtLeast(q' - q, a);
      MulMinus(q', q, a);
    } else if q' < q {
      MulAtLeast(q - q', a);
      MulMinus(q, q', a);
    }
  }

  lemma {:induction false} DivModUnique(x: int, a: int, q: int, r: int)
    requires a > 0 && 0 <= r < a && x == q * a + r
    ensures x / a == q && x % a == r
  {
    var q', r' := x / a, x % a;
    assert x == q' * a + r';
    SameQuotient(q, r, q', r', a);
  }

  /** Taking away the divisor lowers the quotient by one and keeps the remainder. */
  lemma {:induction false} OneLess(x: int, a: int)
    requires a > 0
    ensures (x - a) / a == x / a - 1 && (x - a) % a == x % a
  {
    var q, r := x / a, x % a;
    assert x == q * a + r;
    MulMinus(q, 1, a);
    DivModUnique(x - a, a, q - 1, r);
  }

  lemma {:induction false} SmallDivision(x: nat, a: nat)
    requires a > 0 && x < a
    ensures x / a == 0 && x % a == x
  {
    DivModUnique(x, a, 0, x);
  }

  lemma {:induction false} MultipleIsMod(x: nat, a: nat)
    requires a > 0
    ensures Multiple(x, a) <==> x % a == 0
    decreases x
  {
    if x < a {
      SmallDivision(x, a);
    } else {
      OneLess(x, a);
      MultipleIsMod(x - a, a);
    }
  }

  /** The page count formula is the same rounding. */
  lemma {:induction false} CeilDivIsAlignUp(x: nat, a: nat)
    requires a > 0
    ensures (x + a - 1) / a * a == AlignUp(x, a)
    decreases x
  {
    if x == 0 {
      SmallDivision(a - 1, a);
    } else if x <= a {
      OneLess(x + a - 1, a);
      SmallDivision(x - 1, a);
    } else {
      OneLess(x + a - 1, a);
      CeilDivIsAlignUp(x - a, a);
      var q := (x + a - 1) / a;
      assert x - a + a - 1 == x - 1;
      MulMinus(q, 1, a);
    }
  }

  // ----- masking -----

  lemma {:induction false} AndNotZero(x: nat)
    ensures AndNot(x, 0) == x
  {
    if x == 0 {
    } else {
      AndNotZero(x / 2);
    }
  }

  /** Halving first and then dividing by `h` is dividing by `2 * h`. */
  lemma {:induction false} ModDouble(x: nat, h: nat)
    requires h > 0
    ensures x % (2 * h) == 2 * ((x / 2) % h) + x % 2
  {
    var q, r := (x / 2) / h, (x / 2) % h;
    assert x / 2 == q * h + r;
    assert 2 * (q * h) == q * (2 * h);
    DivModUnique(x, 2 * h, q, 2 * r + x % 2);
  }

  /** Clearing the low `k` bits rounds down to a multiple of 2^k. */
  lemma {:induction false} ClearLowBits(x: nat, k: nat)
    ensures AndNot(x, Pow2(k) - 1) == x - x % Pow2(k)
  {
    if k == 0 {
      AndNotZero(x);
    } else {
      var h := Pow2(k - 1);
      ClearLowBits(x / 2, k - 1);
      ModDouble(x, h);
      assert (2 * h - 1) / 2 == h - 1 && (2 * h - 1) % 2 == 1;
      assert AndNot(x, 2 * h - 1) == 2 * (x / 2 - (x / 2) % h);
    }
  }

  /** For every power of two the mask form is the rounding. */
  lemma {:induction false} AlignPtrIsAlignUp(p: nat, k: nat)
    ensures AlignPtr(p, Pow2(k)) == AlignUp(p, Pow2(k))
  {
    ClearLowBits(p + (Pow2(k) - 1), k);
    RoundDown(p, Pow2(k));
  }

  lemma {:induction false} RoundDown(p: nat, a: nat)
    requires a > 0
    ensures p + a - 1 - (p + a - 1) % a == AlignUp(p, a)
  {
    CeilDivIsAlignUp(p, a);
    var y := p + a - 1;
    assert y == y / a * a + y % a;
  }
}
