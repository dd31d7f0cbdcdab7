/** Scalar helpers standing for the f64 methods the ray tracer calls
    (`min`, `abs`, `clamp`) and the laws assumed of the square-root
    oracle. `f64` is modelled by `real`; `sqrt`, `tan` and `to_radians`
    are foreign numerics and are passed in as function parameters. */
module Numerics {

  /** What a square root promises on the non-negative reals. Lemmas that
      need exact square roots take this as a hypothesis about the oracle. */
  ghost predicate SqrtLaw(sqrt: real -> real) {
    forall x: real :: 0.0 <= x ==> 0.0 <= sqrt(x) && sqrt(x) * sqrt(x) == x
  }

  /** `f64::min` (NaN handling left out). */
  function Min(a: real, b: real): (r: real)
    ensures r <= a && r <= b
    ensures r == a || r == b
  {
    if a <= b then a else b
  }

  /** `f64::abs`. */
  function Abs(x: real): (r: real)
    ensures 0.0 <= r
    ensures r == x || r == -x
  {
    if x < 0.0 then -x else x
  }

  /** `f64::clamp`, which panics when `lo > hi`. */
  function Clamp(x: real, lo: real, hi: real): (r: real)
    requires lo <= hi
    ensures lo <= r <= hi
    ensures lo <= x <= hi ==> r == x
    ensures x < lo ==> r == lo
    ensures hi < x ==> r == hi
  {
    if x < lo then lo else if x > hi then hi else x
  }

  // The solver's support for products is weak, so facts about them are
  // stated over distinct variables and instantiated where needed.

  lemma MulPositive(a: real, b: real)
    requires 0.0 < a && 0.0 < b
    ensures 0.0 < a * b
  {
  }

  lemma MulNonneg(a: real, b: real)
    requires 0.0 <= a && 0.0 <= b
    ensures 0.0 <= a * b
  {
  }

  /** Scaling by a factor in `[0, 1)` keeps a positive value below itself. */
  lemma MulBelow(a: real, u: real)
    requires 0.0 < a && 0.0 <= u < 1.0
    ensures 0.0 <= a * u < a
  {
    MulNonneg(a, u);
    MulPositive(a, 1.0 - u);
  }

  /** The product of two values in `[0, 1]` lies in `[0, 1]`. */
  lemma MulAtMostOne(a: real, b: real)
    requires 0.0 <= a <= 1.0 && 0.0 <= b <= 1.0
    ensures 0.0 <= a * b <= 1.0
  {
    MulNonneg(a, b);
    MulNonneg(1.0 - a, b);
  }

  /** The product of two values in `(-1, 1)` is below one. */
  lemma MulBelowOne(a: real, b: real)
    requires -1.0 < a < 1.0 && -1.0 < b < 1.0
    ensures a * b < 1.0
  {
    if 0.0 <= a && 0.0 <= b {
      MulNonneg(a, 1.0 - b);
    } else if a < 0.0 && b < 0.0 {
      MulNonneg(-a, 1.0 + b);
    } else if a < 0.0 {
      MulNonneg(-a, b);
    } else {
      MulNonneg(a, -b);
    }
  }

  /** A blend `r + (1 - r) p` of two values in `[0, 1]` stays in `[0, 1]`. */
  lemma BlendAtMostOne(r: real, p: real)
    requires 0.0 <= r <= 1.0 && 0.0 <= p <= 1.0
    ensures 0.0 <= r + (1.0 - r) * p <= 1.0
  {
    MulNonneg(1.0 - r, p);
    MulNonneg(1.0 - r, 1.0 - p);
  }

  /** A positive product `d1 d2` below `p q`, with `p` and `q` not negative,
      makes `p` positive. */
  lemma FactorPositive(d1: real, d2: real, p: real, q: real)
    requires 0.0 < d1 && 0.0 < d2
    requires 0.0 <= p && 0.0 <= q
    requires d1 * d2 <= p * q
    ensures 0.0 < p
  {
    MulPositive(d1, d2);
  }

  lemma ZeroFactor(a: real, d: real)
    requires d == 0.0
    ensures a * d == 0.0
  {
  }

  /** `l == q f` with `q` not negative and `f` below one puts `l` at most `q`. */
  lemma ScaledBelow(l: real, q: real, f: real)
    requires l == q * f && 0.0 <= q && f < 1.0
    ensures l <= q
  {
    MulNonneg(q, 1.0 - f);
  }

  lemma MulNegNeg(a: real, b: real)
    ensures (-a) * (-b) == a * b
  {
  }

  lemma SquarePositive(a: real)
    ensures 0.0 <= a * a
    ensures a != 0.0 ==> 0.0 < a * a
  {
    if 0.0 < a {
      MulPositive(a, a);
    } else if a < 0.0 {
      MulPositive(-a, -a);
      MulNegNeg(a, a);
    }
  }

  /** Squaring is strictly increasing on the non-negative reals. */
  lemma SquareStrict(a: real, b: real)
    requires 0.0 <= a
    ensures a < b ==> a * a < b * b
  {
    if a < b {
      assert 0.0 <= a * (b - a);
      assert 0.0 < b * (b - a);
    }
  }

  lemma SquareInjective(a: real, b: real)
    requires 0.0 <= a && 0.0 <= b
    ensures a * a == b * b ==> a == b
  {
    SquareStrict(a, b);
    SquareStrict(b, a);
  }

  /** Comparing squares compares the values when the bound is non-negative. */
  lemma SquareBound(a: real, b: real)
    requires 0.0 <= b
    ensures a * a <= b * b ==> a <= b
  {
    SquareStrict(b, a);
  }

  lemma SqrtZero(sqrt: real -> real)
    requires SqrtLaw(sqrt)
    ensures sqrt(0.0) == 0.0
  {
    SquareInjective(sqrt(0.0), 0.0);
  }

  /** A nonzero `y` divided by its own absolute value `l` is its sign. */
  lemma UnitOfSigned(u: real, l: real, y: real)
    requires 0.0 <= l && l * l == y * y && u * l == y && y != 0.0
    ensures 0.0 < y ==> u == 1.0
    ensures y < 0.0 ==> u == -1.0
  {
    if 0.0 < y {
      SquareInjective(l, y);
      UnitOfPositive(u, l, y);
    } else {
      MulNegNeg(y, y);
      SquareInjective(l, -y);
      UnitOfNegative(u, l, y);
    }
  }

  lemma UnitOfPositive(u: real, l: real, y: real)
    requires 0.0 < y && l == y && u * l == y
    ensures u == 1.0
  {
    CancelFactor(u, l, 1.0);
  }

  lemma UnitOfNegative(u: real, l: real, y: real)
    requires y < 0.0 && l == -y && u * l == y
    ensures u == -1.0
  {
    CancelFactor(u, l, -1.0);
  }

  /** A positive factor cancels from both sides of an equation. */
  lemma CancelFactor(u: real, l: real, s: real)
    requires 0.0 < l && u * l == s * l
    ensures u == s
  {
    if u < s {
      MulPositive(s - u, l);
    } else if s < u {
      MulPositive(u - s, l);
    }
  }

  lemma SqrtOne(sqrt: real -> real)
    requires SqrtLaw(sqrt)
    ensures sqrt(1.0) == 1.0
  {
    SquareInjective(sqrt(1.0), 1.0);
  }

  lemma SqrtPositive(sqrt: real -> real, x: real)
    requires SqrtLaw(sqrt)
    requires 0.0 < x
    ensures 0.0 < sqrt(x)
  {
    assert sqrt(x) * sqrt(x) == x;
  }

  /** The square root is monotone on the non-negative reals. */
  lemma SqrtMonotone(sqrt: real -> real, x: real, y: real)
    requires SqrtLaw(sqrt)
    requires 0.0 <= x <= y
    ensures sqrt(x) <= sqrt(y)
  {
    assert sqrt(x) * sqrt(x) == x && sqrt(y) * sqrt(y) == y;
    SquareBound(sqrt(x), sqrt(y));
  }
}
