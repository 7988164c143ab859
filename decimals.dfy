/** Exact fixed-point decimals in the manner of java.math.BigDecimal, restricted to what the loan
    engine uses: add, subtract, multiply, integer power, setScale and divide with RoundingMode.HALF_UP.
    A value is `unscaled / 10^scale`. */
module Decimals {

  /** Ten to the power k. */
  function Pow10(k: nat): (p: int)
    ensures p >= 1
  {
    if k == 0 then 1 else 10 * Pow10(k - 1)
  }

  lemma {:induction false} Pow10Add(a: nat, b: nat)
    ensures Pow10(a + b) == Pow10(a) * Pow10(b)
  {
    if a > 0 {
      Pow10Add(a - 1, b);
    }
  }

  /** b to the power n (BigInteger.pow). */
  function Power(b: int, n: nat): int
  {
    if n == 0 then 1 else b * Power(b, n - 1)
  }

  /** Raising to a power is strictly monotone on non-negative bases. */
  lemma {:induction false} PowerStrictlyMonotone(a: int, b: int, n: nat)
    requires 0 <= b < a && n >= 1
    ensures 0 <= Power(b, n) < Power(a, n)
  {
    if n > 1 {
      PowerStrictlyMonotone(a, b, n - 1);
      var pa, pb := Power(a, n - 1), Power(b, n - 1);
      assert b * pb <= b * pa by { MulMonotone(pb, pa, b); }
      assert b * pa < a * pa by { MulStrict(b, a, pa); }
    }
  }

  /** (10^s)^n = 10^(s·n). */
  lemma {:induction false} PowerOfPow10(s: nat, n: nat)
    ensures Power(Pow10(s), n) == Pow10(s * n)
  {
    if n > 0 {
      PowerOfPow10(s, n - 1);
      Pow10Add(s, s * (n - 1));
    }
  }

  lemma MulMonotone(x: int, y: int, c: int)
    requires x <= y && c >= 0
    ensures x * c <= y * c && c * x <= c * y
  {
  }

  lemma MulStrict(x: int, y: int, c: int)
    requires x < y && c > 0
    ensures x * c < y * c
  {
  }

  /** `q` is `n / d` (d > 0) rounded to an integer with the halves rounded away from zero:
      the characterisation of RoundingMode.HALF_UP, independent of how it is computed. */
  predicate IsHalfUp(n: int, d: int, q: int)
    requires d > 0
  {
    if n >= 0 then 2 * q * d - d <= 2 * n < 2 * q * d + d
    else 2 * q * d - d < 2 * n <= 2 * q * d + d
  }

  /** HALF_UP division of integers: round the magnitude half up, keep the sign. */
  function DivHalfUp(n: int, d: int): int
    requires d > 0
  {
    if n >= 0 then (2 * n + d) / (2 * d) else -((2 * -n + d) / (2 * d))
  }

  /** DivHalfUp rounds half up and keeps the sign of the numerator. */
  lemma DivHalfUpCorrect(n: int, d: int)
    requires d > 0
    ensures IsHalfUp(n, d, DivHalfUp(n, d))
    ensures n >= 0 ==> DivHalfUp(n, d) >= 0
    ensures n <= 0 ==> DivHalfUp(n, d) <= 0
  {
    var m := if n >= 0 then n else -n;
    var q := (2 * m + d) / (2 * d);
    EuclideanDivision(2 * m + d, 2 * d);
    HalfUpOfQuotient(m, d, q, (2 * m + d) % (2 * d));
    if n < 0 {
      HalfUpNegate(m, d, q);
    }
  }

  lemma EuclideanDivision(a: int, b: int)
    requires b > 0
    ensures a == b * (a / b) + a % b && 0 <= a % b < b
  {
  }

  lemma HalfUpOfQuotient(m: int, d: int, q: int, r: int)
    requires m >= 0 && d > 0
    requires 2 * m + d == (2 * d) * q + r && 0 <= r < 2 * d
    ensures IsHalfUp(m, d, q) && q >= 0
  {
    assert (2 * d) * q == 2 * q * d;
    if q < 0 {
      MulMonotone(q, -1, 2 * d);
    }
  }

  /** Rounding half up is symmetric about zero. */
  lemma HalfUpNegate(m: int, d: int, q: int)
    requires m > 0 && d > 0 && IsHalfUp(m, d, q)
    ensures IsHalfUp(-m, d, -q)
  {
    assert 2 * (-q) * d == -(2 * q * d);
  }

  /** The characterisation determines the rounded quotient uniquely. */
  lemma HalfUpUnique(n: int, d: int, q1: int, q2: int)
    requires d > 0 && IsHalfUp(n, d, q1) && IsHalfUp(n, d, q2)
    ensures q1 == q2
  {
    if q1 < q2 {
      MulMonotone(q1 + 1, q2, d);
    } else if q2 < q1 {
      MulMonotone(q2 + 1, q1, d);
    }
  }

  /** A non-negative quotient rounds to a non-negative integer. */
  lemma HalfUpNonNegative(n: int, d: int, q: int)
    requires d > 0 && n >= 0 && IsHalfUp(n, d, q)
    ensures q >= 0
  {
    if q < 0 {
      MulMonotone(q, -1, d);
    }
  }

  /** The rounded quotient is within half the divisor of the exact one. */
  lemma HalfUpError(n: int, d: int, q: int)
    requires d > 0 && IsHalfUp(n, d, q)
    ensures -d <= 2 * (n - d * q) <= d
  {
    assert 2 * q * d == 2 * (d * q);
  }

  /** An exact quotient rounds to itself. */
  lemma HalfUpExact(q: int, d: int)
    requires d > 0
    ensures IsHalfUp(q * d, d, q)
  {
  }

  /** Scaling numerator and denominator by the same positive factor does not change the rounding. */
  lemma HalfUpScale(n: int, d: int, q: int, c: int)
    requires d > 0 && c > 0
    ensures d * c > 0
    ensures IsHalfUp(n, d, q) <==> IsHalfUp(n * c, d * c, q)
  {
    assert (2 * q * d - d) * c == 2 * q * (d * c) - d * c;
    assert (2 * q * d + d) * c == 2 * q * (d * c) + d * c;
    assert (2 * n) * c == 2 * (n * c);
    forall x: int, y: int
      ensures x <= y <==> x * c <= y * c
      ensures x < y <==> x * c < y * c
    {
      if x <= y { MulMonotone(x, y, c); } else { MulStrict(y, x, c); }
      if x < y { MulStrict(x, y, c); } else { MulMonotone(y, x, c); }
    }
    assert n >= 0 <==> n * c >= 0 by {
      if n >= 0 { MulMonotone(0, n, c); } else { MulStrict(n, 0, c); }
    }
  }

  datatype Decimal = Decimal(unscaled: int, scale: nat)

  /** BigDecimal.ONE. */
  const One := Decimal(1, 0)

  function Max(a: nat, b: nat): nat { if a >= b then a else b }

  /** The unscaled value of `x` written at the larger scale `s` (exact). */
  function Rescaled(x: Decimal, s: nat): int
    requires s >= x.scale
  {
    x.unscaled * Pow10(s - x.scale)
  }

  /** `x` is the fraction num / den (den > 0): the cross products agree. */
  predicate Denotes(x: Decimal, num: int, den: int)
  {
    x.unscaled * den == num * Pow10(x.scale)
  }

  /** BigDecimal.add: exact, at the larger of the two scales. */
  function Add(x: Decimal, y: Decimal): (r: Decimal)
    ensures r.scale == Max(x.scale, y.scale)
  {
    var s := Max(x.scale, y.scale);
    Decimal(Rescaled(x, s) + Rescaled(y, s), s)
  }

  /** BigDecimal.subtract: exact, at the larger of the two scales. */
  function Sub(x: Decimal, y: Decimal): (r: Decimal)
    ensures r.scale == Max(x.scale, y.scale)
  {
    var s := Max(x.scale, y.scale);
    Decimal(Rescaled(x, s) - Rescaled(y, s), s)
  }

  /** The sum is exact: x + y is (ux·10^sy + uy·10^sx) / (10^sx·10^sy). */
  lemma AddExact(x: Decimal, y: Decimal)
    ensures Denotes(Add(x, y), x.unscaled * Pow10(y.scale) + y.unscaled * Pow10(x.scale),
                    Pow10(x.scale) * Pow10(y.scale))
  {
    var s := Max(x.scale, y.scale);
    var a, b, px, py, p := Pow10(s - x.scale), Pow10(s - y.scale), Pow10(x.scale), Pow10(y.scale), Pow10(s);
    Pow10Add(s - x.scale, x.scale);
    Pow10Add(s - y.scale, y.scale);
    CrossMultiply(x.unscaled, y.unscaled, a, b, px, py, p);
    assert Add(x, y) == Decimal(x.unscaled * a + y.unscaled * b, s);
  }

  /** The difference is exact: x − y is (ux·10^sy − uy·10^sx) / (10^sx·10^sy). */
  lemma SubExact(x: Decimal, y: Decimal)
    ensures Denotes(Sub(x, y), x.unscaled * Pow10(y.scale) - y.unscaled * Pow10(x.scale),
                    Pow10(x.scale) * Pow10(y.scale))
  {
    var s := Max(x.scale, y.scale);
    var a, b, px, py, p := Pow10(s - x.scale), Pow10(s - y.scale), Pow10(x.scale), Pow10(y.scale), Pow10(s);
    Pow10Add(s - x.scale, x.scale);
    Pow10Add(s - y.scale, y.scale);
    var v := -y.unscaled;
    CrossMultiply(x.unscaled, v, a, b, px, py, p);
    var d := Sub(x, y).unscaled;
    assert d == x.unscaled * a - y.unscaled * b;
    assert d == x.unscaled * a + v * b by { Negate(y.unscaled, b); }
    assert x.unscaled * py + v * px == x.unscaled * py - y.unscaled * px by { Negate(y.unscaled, px); }
  }

  lemma Negate(u: int, c: int)
    ensures (-u) * c == -(u * c)
  {
  }

  /** u/px + v/py written over the common power p = a·px = b·py. */
  lemma CrossMultiply(u: int, v: int, a: int, b: int, px: int, py: int, p: int)
    requires p == a * px && p == b * py
    ensures (u * a + v * b) * (px * py) == (u * py + v * px) * p
  {
    calc {
      (u * a + v * b) * (px * py);
      u * (a * px) * py + v * (b * py) * px;
      u * p * py + v * p * px;
      (u * py + v * px) * p;
    }
  }

  /** At a common scale, addition and subtraction act on the unscaled values. */
  lemma SameScale(x: Decimal, y: Decimal)
    requires x.scale == y.scale
    ensures Add(x, y) == Decimal(x.unscaled + y.unscaled, x.scale)
    ensures Sub(x, y) == Decimal(x.unscaled - y.unscaled, x.scale)
  {
    assert Rescaled(x, x.scale) == x.unscaled && Rescaled(y, x.scale) == y.unscaled;
  }

  /** BigDecimal.multiply: exact, scales add up. */
  function Mul(x: Decimal, y: Decimal): (r: Decimal)
  {
    Decimal(x.unscaled * y.unscaled, x.scale + y.scale)
  }

  /** The product is exact: x·y is (ux·uy) / (10^sx·10^sy). */
  lemma MulExact(x: Decimal, y: Decimal)
    ensures Denotes(Mul(x, y), x.unscaled * y.unscaled, Pow10(x.scale) * Pow10(y.scale))
  {
    Pow10Add(x.scale, y.scale);
  }

  /** BigDecimal.pow(n): exact, the scale is multiplied by n. */
  function Pow(x: Decimal, n: nat): (r: Decimal)
  {
    Decimal(Power(x.unscaled, n), x.scale * n)
  }

  /** The power is exact: x^n is ux^n / (10^sx)^n. */
  lemma PowExact(x: Decimal, n: nat)
    ensures Denotes(Pow(x, n), Power(x.unscaled, n), Power(Pow10(x.scale), n))
  {
    PowerOfPow10(x.scale, n);
  }

  /** BigDecimal.setScale(s, HALF_UP): `x` written with `s` fractional digits. */
  function SetScale(x: Decimal, s: nat): (r: Decimal)
    ensures r.scale == s
  {
    if s >= x.scale then Decimal(x.unscaled * Pow10(s - x.scale), s)
    else Decimal(DivHalfUp(x.unscaled, Pow10(x.scale - s)), s)
  }

  /** setScale rounds `x * 10^s` half up. */
  lemma SetScaleRounds(x: Decimal, s: nat)
    ensures IsHalfUp(x.unscaled * Pow10(s), Pow10(x.scale), SetScale(x, s).unscaled)
  {
    if s >= x.scale {
      SetScaleUpCorrect(x.unscaled, s - x.scale, x.scale);
    } else {
      var q := DivHalfUp(x.unscaled, Pow10(x.scale - s));
      DivHalfUpCorrect(x.unscaled, Pow10(x.scale - s));
      SetScaleDownCorrect(x.unscaled, x.scale - s, s, q);
    }
  }

  lemma SetScaleUpCorrect(u: int, up: nat, s0: nat)
    ensures IsHalfUp(u * Pow10(up + s0), Pow10(s0), u * Pow10(up))
  {
    Pow10Add(up, s0);
    var a, b := Pow10(up), Pow10(s0);
    assert u * (a * b) == (u * a) * b;
    HalfUpExact(u * a, b);
  }

  lemma SetScaleDownCorrect(u: int, down: nat, s: nat, q: int)
    requires IsHalfUp(u, Pow10(down), q)
    ensures IsHalfUp(u * Pow10(s), Pow10(down + s), q)
  {
    Pow10Add(down, s);
    HalfUpScale(u, Pow10(down), q, Pow10(s));
  }

  /** Rescaling to the scale a value already has changes nothing. */
  lemma SetScaleSame(x: Decimal)
    ensures SetScale(x, x.scale) == x
  {
  }

  /** BigDecimal.divide(y, s, HALF_UP): the quotient `x / y` with `s` fractional digits. For a
      zero divisor BigDecimal throws; callers check that first. */
  function Divide(x: Decimal, y: Decimal, s: nat): (r: Decimal)
    requires y.unscaled != 0
    ensures r.scale == s
  {
    var n := x.unscaled * Pow10(s + y.scale);
    if y.unscaled > 0 then Decimal(DivHalfUp(n, y.unscaled * Pow10(x.scale)), s)
    else Decimal(DivHalfUp(-n, -y.unscaled * Pow10(x.scale)), s)
  }

  /** divide rounds the exact quotient half up (away from zero on a tie, whatever the signs). */
  lemma DivideRounds(x: Decimal, y: Decimal, s: nat)
    requires y.unscaled != 0
    ensures y.unscaled > 0 ==>
      IsHalfUp(x.unscaled * Pow10(s + y.scale), y.unscaled * Pow10(x.scale), Divide(x, y, s).unscaled)
    ensures y.unscaled < 0 ==>
      IsHalfUp(-x.unscaled * Pow10(s + y.scale), -y.unscaled * Pow10(x.scale), Divide(x, y, s).unscaled)
  {
    if y.unscaled > 0 {
      DivideRoundsPositive(x, y, s);
    } else {
      DivideRoundsNegative(x, y, s);
    }
  }

  lemma DivideRoundsPositive(x: Decimal, y: Decimal, s: nat)
    requires y.unscaled > 0
    ensures IsHalfUp(x.unscaled * Pow10(s + y.scale), y.unscaled * Pow10(x.scale), Divide(x, y, s).unscaled)
  {
    var n, d := x.unscaled * Pow10(s + y.scale), y.unscaled * Pow10(x.scale);
    MulStrict(0, y.unscaled, Pow10(x.scale));
    assert Divide(x, y, s).unscaled == DivHalfUp(n, d);
    DivHalfUpCorrect(n, d);
  }

  lemma DivideRoundsNegative(x: Decimal, y: Decimal, s: nat)
    requires y.unscaled < 0
    ensures IsHalfUp(-x.unscaled * Pow10(s + y.scale), -y.unscaled * Pow10(x.scale), Divide(x, y, s).unscaled)
  {
    var n, d := -x.unscaled * Pow10(s + y.scale), -y.unscaled * Pow10(x.scale);
    MulStrict(0, -y.unscaled, Pow10(x.scale));
    assert n == -(x.unscaled * Pow10(s + y.scale));
    assert Divide(x, y, s).unscaled == DivHalfUp(n, d);
    DivHalfUpCorrect(n, d);
  }
}
