/** Three-component vectors over the reals, used as points, directions and
    colours: the arithmetic operators, dot and cross products, length,
    normalisation, reflection, refraction and the axis-wise near-zero test. */
module Vectors {
  import opened Numerics

  datatype Vec3 = Vec3(x: real, y: real, z: real)

  type Point3 = Vec3

  /** The threshold of the near-zero test, 1e-8. */
  const AlmostZero: real := 0.00000001

  // Operators. The compound assignments (`+=`, `*=`, `/=`) overwrite a
  // local value and are written as plain reassignments where they occur.

  function Neg(v: Vec3): Vec3 {
    Vec3(-v.x, -v.y, -v.z)
  }

  function Add(a: Vec3, b: Vec3): Vec3 {
    Vec3(a.x + b.x, a.y + b.y, a.z + b.z)
  }

  /** Subtraction is defined as addition of the negation. */
  function Sub(a: Vec3, b: Vec3): (r: Vec3)
    ensures r == Vec3(a.x - b.x, a.y - b.y, a.z - b.z)
    ensures Add(r, b) == a
  {
    Add(a, Neg(b))
  }

  /** Component-wise product (`Vec3 * Vec3`, colour attenuation). */
  function Mul(a: Vec3, b: Vec3): Vec3 {
    Vec3(a.x * b.x, a.y * b.y, a.z * b.z)
  }

  /** `Vec3 * f64` and, with the operands swapped, `f64 * Vec3`. */
  function Scale(v: Vec3, s: real): Vec3 {
    Vec3(v.x * s, v.y * s, v.z * s)
  }

  /** Division by `s` is multiplication by `1 / s`; it undoes `Scale`. */
  function Div(v: Vec3, s: real): (r: Vec3)
    requires s != 0.0
    ensures Scale(r, s) == v
  {
    Scale(v, 1.0 / s)
  }

  function Dot(a: Vec3, b: Vec3): real {
    a.x * b.x + a.y * b.y + a.z * b.z
  }

  function Cross(a: Vec3, b: Vec3): Vec3 {
    Vec3(a.y * b.z - a.z * b.y,
         a.z * b.x - a.x * b.z,
         a.x * b.y - a.y * b.x)
  }

  /** The squared length is the dot product of a vector with itself and is
      never negative. */
  function LenSquared(v: Vec3): (r: real)
    ensures 0.0 <= r
    ensures r == Dot(v, v)
  {
    SquarePositive(v.x);
    SquarePositive(v.y);
    SquarePositive(v.z);
    v.x * v.x + v.y * v.y + v.z * v.z
  }

  function Len(v: Vec3, sqrt: real -> real): (r: real)
    ensures SqrtLaw(sqrt) ==> 0.0 <= r && r * r == LenSquared(v)
  {
    sqrt(LenSquared(v))
  }

  /** Normalisation: the result scaled back by the length is the input. */
  function UnitVec(v: Vec3, sqrt: real -> real): (r: Vec3)
    requires Len(v, sqrt) != 0.0
    ensures Scale(r, Len(v, sqrt)) == v
  {
    Div(v, Len(v, sqrt))
  }

  /** Mirror `v` about the plane whose normal is `n`: `v - 2 (v . n) n`. */
  function Reflect(v: Vec3, n: Vec3): Vec3 {
    Sub(v, Scale(Scale(n, Dot(v, n)), 2.0))
  }

  /** The cosine used by `refract`. As written, `-x.dot(n).min(1.0)` parses
      as `-(min(x . n, 1))`. */
  function RefractCos(v: Vec3, n: Vec3): (r: real)
    ensures Dot(v, n) <= 1.0 ==> r == -Dot(v, n)
    ensures 1.0 < Dot(v, n) ==> r == -1.0
  {
    -Min(Dot(v, n), 1.0)
  }

  /** The sine that goes with a cosine, `sqrt(1 - cos^2)`. */
  function Sine(cos: real, sqrt: real -> real): real {
    sqrt(1.0 - cos * cos)
  }

  /** The test `eta * sin > 1`: refraction by the ratio `eta` at an angle
      with sine `sin` has no real solution of Snell's law. */
  predicate NoSnellSolution(eta: real, sin: real) {
    eta * sin > 1.0
  }

  /** The part of the refracted direction perpendicular to the normal. */
  function RefractPerp(v: Vec3, n: Vec3, eta: real): Vec3 {
    Scale(Add(v, Scale(n, RefractCos(v, n))), eta)
  }

  /** Snell's law split into a perpendicular and a parallel component. With
      exact square roots and unit `v` and `n`, the refracted direction leaves
      through the far side of the surface and is never shorter than a unit
      vector; it is a unit vector whenever the perpendicular part is at most
      that long (the case where Snell's law has a solution). */
  function Refract(v: Vec3, n: Vec3, eta: real, sqrt: real -> real): (r: Vec3)
    ensures SqrtLaw(sqrt) && LenSquared(v) == 1.0 && LenSquared(n) == 1.0 ==>
      && Dot(r, n) <= 0.0
      && 1.0 <= LenSquared(r)
      && (LenSquared(RefractPerp(v, n, eta)) <= 1.0 ==> LenSquared(r) == 1.0)
      && Sub(r, Scale(n, Dot(r, n))) == Scale(Sub(v, Scale(n, Dot(v, n))), eta)
  {
    var perp := RefractPerp(v, n, eta);
    var par := Scale(n, -sqrt(Abs(1.0 - LenSquared(perp))));
    RefractSplit(v, n, eta, sqrt);
    Add(perp, par)
  }

  /** True when ANY axis is below the threshold in magnitude: an axis-wise
      test, not a test on the vector's length. */
  predicate IsNearZero(v: Vec3) {
    Abs(v.x) < AlmostZero || Abs(v.y) < AlmostZero || Abs(v.z) < AlmostZero
  }

  // ----- Laws of the operations -----

  lemma DotSymmetric(a: Vec3, b: Vec3)
    ensures Dot(a, b) == Dot(b, a)
  {
  }

  lemma CrossOrthogonal(a: Vec3, b: Vec3)
    ensures Dot(Cross(a, b), a) == 0.0
    ensures Dot(Cross(a, b), b) == 0.0
  {
  }

  /** Lagrange's identity: |a|^2 |b|^2 - (a . b)^2 == |a x b|^2. */
  lemma Lagrange(a: Vec3, b: Vec3)
    ensures LenSquared(a) * LenSquared(b) - Dot(a, b) * Dot(a, b) == LenSquared(Cross(a, b))
  {
  }

  lemma CauchySchwarz(a: Vec3, b: Vec3)
    ensures Dot(a, b) * Dot(a, b) <= LenSquared(a) * LenSquared(b)
  {
    Lagrange(a, b);
  }

  lemma LenSquaredScale(v: Vec3, s: real)
    ensures LenSquared(Scale(v, s)) == s * s * LenSquared(v)
  {
  }

  lemma DotScale(a: Vec3, b: Vec3, k: real)
    ensures Dot(Scale(a, k), b) == k * Dot(a, b)
    ensures Dot(a, Scale(b, k)) == k * Dot(a, b)
  {
  }

  lemma DotAdd(a: Vec3, b: Vec3, c: Vec3)
    ensures Dot(Add(a, b), c) == Dot(a, c) + Dot(b, c)
  {
  }

  lemma LenSquaredAdd(a: Vec3, b: Vec3)
    ensures LenSquared(Add(a, b)) == LenSquared(a) + 2.0 * Dot(a, b) + LenSquared(b)
  {
  }

  lemma ScaleScale(v: Vec3, j: real, k: real)
    ensures Scale(Scale(v, j), k) == Scale(v, j * k)
  {
  }

  /** `Reflect` subtracts twice the component along `n`. */
  lemma ReflectIsSum(v: Vec3, n: Vec3)
    ensures Reflect(v, n) == Add(v, Scale(n, -2.0 * Dot(v, n)))
  {
    ScaleScale(n, Dot(v, n), 2.0);
  }

  lemma LenSquaredNeg(v: Vec3)
    ensures LenSquared(Neg(v)) == LenSquared(v)
  {
  }

  /** A unit normal: reflecting reverses the normal component. */
  lemma ReflectDot(v: Vec3, n: Vec3)
    requires Dot(n, n) == 1.0
    ensures Dot(Reflect(v, n), n) == -Dot(v, n)
  {
    var k := -2.0 * Dot(v, n);
    ReflectIsSum(v, n);
    DotAdd(v, Scale(n, k), n);
    DotScale(n, n, k);
  }

  /** A unit normal: reflecting keeps the length. */
  lemma ReflectLength(v: Vec3, n: Vec3)
    requires Dot(n, n) == 1.0
    ensures LenSquared(Reflect(v, n)) == LenSquared(v)
  {
    var d := Dot(v, n);
    var k := -2.0 * d;
    ReflectIsSum(v, n);
    LenSquaredAdd(v, Scale(n, k));
    DotScale(v, n, k);
    LenSquaredScale(n, k);
    assert LenSquared(Reflect(v, n)) == LenSquared(v) + 2.0 * (k * d) + k * k;
  }

  /** With exact square roots, a non-degenerate vector has a positive length. */
  lemma LenPositive(v: Vec3, sqrt: real -> real)
    requires SqrtLaw(sqrt)
    requires 0.0 < LenSquared(v)
    ensures 0.0 < Len(v, sqrt)
  {
    SqrtPositive(sqrt, LenSquared(v));
  }

  /** With exact square roots, a normalised vector has length one. */
  lemma UnitVecIsUnit(v: Vec3, sqrt: real -> real)
    requires SqrtLaw(sqrt)
    requires Len(v, sqrt) != 0.0
    ensures LenSquared(UnitVec(v, sqrt)) == 1.0
  {
    var l := Len(v, sqrt);
    assert l * l == LenSquared(v);
    var k := 1.0 / l;
    assert UnitVec(v, sqrt) == Scale(v, k);
    LenSquaredScale(v, k);
    assert k * l == 1.0;
    calc {
      k * k * LenSquared(v);
      k * k * (l * l);
      (k * l) * (k * l);
      1.0;
    }
  }

  /** A vector with no axis near zero is not the zero vector; its squared
      length is at least three times the squared threshold. */
  lemma NotNearZeroIsLong(v: Vec3)
    requires !IsNearZero(v)
    ensures LenSquared(v) >= 3.0 * AlmostZero * AlmostZero
  {
    assert v.x * v.x == Abs(v.x) * Abs(v.x) >= AlmostZero * AlmostZero;
    assert v.y * v.y == Abs(v.y) * Abs(v.y) >= AlmostZero * AlmostZero;
    assert v.z * v.z == Abs(v.z) * Abs(v.z) >= AlmostZero * AlmostZero;
  }

  /** The near-zero test is per axis: a long vector with one zero axis is
      near zero, while a vector of length below the threshold whose axes all
      reach the threshold is not. */
  lemma NearZeroIsAxisWise()
    ensures IsNearZero(Vec3(0.0, 1000.0, 1000.0))
    ensures !IsNearZero(Vec3(AlmostZero, AlmostZero, -AlmostZero))
    ensures LenSquared(Vec3(AlmostZero, AlmostZero, -AlmostZero)) < AlmostZero * AlmostZero * 4.0
  {
  }

  /** For unit `v` and `n` the refraction cosine is exactly `-(v . n)`,
      so the precedence of the unary minus in the source does not matter:
      it equals `min(-(v . n), 1)`, the cosine of the angle of incidence. */
  lemma RefractCosOfUnit(v: Vec3, n: Vec3)
    requires LenSquared(v) == 1.0 && LenSquared(n) == 1.0
    ensures RefractCos(v, n) == -Dot(v, n) == Min(-Dot(v, n), 1.0)
  {
    var d := Dot(v, n);
    CauchySchwarz(v, n);
    SquareBound(d, 1.0);
    SquareBound(-d, 1.0);
  }

  lemma RefractPerpOrthogonal(v: Vec3, n: Vec3, eta: real)
    requires LenSquared(v) == 1.0 && LenSquared(n) == 1.0
    ensures Dot(RefractPerp(v, n, eta), n) == 0.0
  {
    var d := Dot(v, n);
    RefractCosOfUnit(v, n);
    var w := Add(v, Scale(n, -d));
    assert RefractPerp(v, n, eta) == Scale(w, eta);
    DotAdd(v, Scale(n, -d), n);
    DotScale(n, n, -d);
    assert Dot(w, n) == 0.0;
    DotScale(w, n, eta);
  }

  /** The two parts of `Refract` for unit `v` and `n`: the perpendicular
      part is orthogonal to the normal, so the parallel part alone decides
      the side and adds its squared length. */
  lemma RefractSplit(v: Vec3, n: Vec3, eta: real, sqrt: real -> real)
    ensures SqrtLaw(sqrt) && LenSquared(v) == 1.0 && LenSquared(n) == 1.0 ==>
      var perp := RefractPerp(v, n, eta);
      var r := Add(perp, Scale(n, -sqrt(Abs(1.0 - LenSquared(perp)))));
      && Dot(perp, n) == 0.0
      && Dot(r, n) <= 0.0
      && 1.0 <= LenSquared(r)
      && (LenSquared(perp) <= 1.0 ==> LenSquared(r) == 1.0)
      && Sub(r, Scale(n, Dot(r, n))) == Scale(Sub(v, Scale(n, Dot(v, n))), eta)
  {
    if SqrtLaw(sqrt) && LenSquared(v) == 1.0 && LenSquared(n) == 1.0 {
      RefractPerpOrthogonal(v, n, eta);
      var perp := RefractPerp(v, n, eta);
      var s := sqrt(Abs(1.0 - LenSquared(perp)));
      assert 0.0 <= s && s * s == Abs(1.0 - LenSquared(perp));
      PerpendicularSum(perp, n, s);
      RefractTangential(v, n, eta, s);
    }
  }

  /** Snell's law in vector form: whatever length is given to the parallel
      part, the part of the refracted direction tangential to the surface
      is the incoming tangential part scaled by the ratio `eta`. */
  lemma RefractTangential(v: Vec3, n: Vec3, eta: real, s: real)
    requires LenSquared(v) == 1.0 && LenSquared(n) == 1.0
    ensures var r := Add(RefractPerp(v, n, eta), Scale(n, -s));
      Sub(r, Scale(n, Dot(r, n))) == Scale(Sub(v, Scale(n, Dot(v, n))), eta)
  {
    var perp := RefractPerp(v, n, eta);
    var r := Add(perp, Scale(n, -s));
    RefractPerpOrthogonal(v, n, eta);
    RefractCosOfUnit(v, n);
    DotAdd(perp, Scale(n, -s), n);
    DotScale(n, n, -s);
    assert Dot(r, n) == -s;
    assert Sub(r, Scale(n, Dot(r, n))) == perp;
  }

  /** The test `eta * sin > 1` of the dielectric, with `sin` the square root
      of `1 - cos^2`, is exactly the case where the perpendicular part of
      the refraction is longer than a unit vector, so Snell's law has no
      solution. */
  lemma SnellCondition(v: Vec3, n: Vec3, eta: real, sqrt: real -> real)
    requires SqrtLaw(sqrt)
    requires LenSquared(v) == 1.0 && LenSquared(n) == 1.0 && 0.0 < eta
    ensures NoSnellSolution(eta, Sine(RefractCos(v, n), sqrt)) <==> 1.0 < LenSquared(RefractPerp(v, n, eta))
  {
    PerpLength(v, n, eta);
    ScaledSine(eta, RefractCos(v, n), sqrt);
    AboveOneBySquare(eta * Sine(RefractCos(v, n), sqrt), LenSquared(RefractPerp(v, n, eta)));
  }

  /** `eta` times the sine of `cos` is not negative and squares to
      `eta^2 (1 - cos^2)`. */
  lemma ScaledSine(eta: real, cos: real, sqrt: real -> real)
    requires SqrtLaw(sqrt)
    requires 0.0 < eta && 0.0 <= 1.0 - cos * cos
    ensures 0.0 <= eta * Sine(cos, sqrt)
    ensures (eta * Sine(cos, sqrt)) * (eta * Sine(cos, sqrt)) == eta * eta * (1.0 - cos * cos)
  {
    var s := Sine(cos, sqrt);
    assert 0.0 <= s && s * s == 1.0 - cos * cos;
    MulNonneg(eta, s);
    assert (eta * s) * (eta * s) == eta * eta * (s * s);
  }

  /** A non-negative value is above one exactly when its square is. */
  lemma AboveOneBySquare(x: real, q: real)
    requires 0.0 <= x && x * x == q
    ensures x > 1.0 <==> 1.0 < q
  {
    SquareStrict(1.0, x);
    SquareStrict(x, 1.0);
  }

  /** The perpendicular part of the refraction of unit vectors is `eta`
      times a vector of squared length `1 - cos^2`. */
  lemma PerpLength(v: Vec3, n: Vec3, eta: real)
    requires LenSquared(v) == 1.0 && LenSquared(n) == 1.0
    ensures 0.0 <= 1.0 - RefractCos(v, n) * RefractCos(v, n)
    ensures LenSquared(RefractPerp(v, n, eta)) == eta * eta * (1.0 - RefractCos(v, n) * RefractCos(v, n))
  {
    var d := Dot(v, n);
    RefractCosOfUnit(v, n);
    var cos := RefractCos(v, n);
    CauchySchwarz(v, n);
    MulNegNeg(d, d);
    var w := Add(v, Scale(n, cos));
    LenSquaredAdd(v, Scale(n, cos));
    DotScale(v, n, cos);
    LenSquaredScale(n, cos);
    assert LenSquared(w) == 1.0 - cos * cos;
    LenSquaredScale(w, eta);
  }

  /** Adding `-s` times a unit normal to a vector perpendicular to it, where
      `s^2 == |1 - |perp|^2|`, gives a vector on the far side that is at
      least as long as a unit vector, and exactly that long when
      `|perp|^2 <= 1`. */
  lemma PerpendicularSum(perp: Vec3, n: Vec3, s: real)
    requires LenSquared(n) == 1.0 && Dot(perp, n) == 0.0
    requires 0.0 <= s && s * s == Abs(1.0 - LenSquared(perp))
    ensures Dot(Add(perp, Scale(n, -s)), n) <= 0.0
    ensures 1.0 <= LenSquared(Add(perp, Scale(n, -s)))
    ensures LenSquared(perp) <= 1.0 ==> LenSquared(Add(perp, Scale(n, -s))) == 1.0
  {
    var par := Scale(n, -s);
    DotAdd(perp, par, n);
    DotScale(n, n, -s);
    DotScale(perp, n, -s);
    LenSquaredAdd(perp, par);
    LenSquaredScale(n, -s);
    assert LenSquared(Add(perp, par)) == LenSquared(perp) + s * s;
  }

  /** A vertical vector is as long as its height. */
  lemma VerticalLength(v: Vec3)
    requires v.x == 0.0 && v.z == 0.0
    ensures LenSquared(v) == v.y * v.y
    ensures v.y != 0.0 ==> 0.0 < LenSquared(v)
  {
    if v.y != 0.0 {
      var n := Vec3(0.0, if 0.0 < v.y then 1.0 else -1.0, 0.0);
      assert 0.0 < Dot(v, n) && LenSquared(n) == 1.0;
      CauchySchwarz(v, n);
      FactorPositive(Dot(v, n), Dot(v, n), LenSquared(v), LenSquared(n));
    }
  }

  /** The inverse under addition. */
  lemma NegIsInverse(v: Vec3)
    ensures Add(v, Neg(v)) == Vec3(0.0, 0.0, 0.0)
    ensures Neg(Neg(v)) == v
  {
  }

  lemma AddZero(v: Vec3)
    ensures Add(v, Vec3(0.0, 0.0, 0.0)) == v
  {
  }

  lemma ScaleZero(v: Vec3, k: real)
    requires k == 0.0
    ensures Scale(v, k) == Vec3(0.0, 0.0, 0.0)
  {
    ZeroFactor(v.x, k);
    ZeroFactor(v.y, k);
    ZeroFactor(v.z, k);
  }

  /** The squared length of `a u + b v` for orthonormal `u`, `v`. */
  lemma PlaneLength(u: Vec3, v: Vec3, a: real, b: real)
    requires LenSquared(u) == 1.0 && LenSquared(v) == 1.0 && Dot(u, v) == 0.0
    ensures LenSquared(Add(Scale(u, a), Scale(v, b))) == a * a + b * b
  {
    LenSquaredAdd(Scale(u, a), Scale(v, b));
    LenSquaredScale(u, a);
    LenSquaredScale(v, b);
    DotScale(u, Scale(v, b), a);
    DotScale(u, v, b);
  }

  /** `a u + b v` is perpendicular to any `w` both `u` and `v` are. */
  lemma PlanePerpendicular(u: Vec3, v: Vec3, w: Vec3, a: real, b: real)
    requires Dot(u, w) == 0.0 && Dot(v, w) == 0.0
    ensures Dot(Add(Scale(u, a), Scale(v, b)), w) == 0.0
  {
    DotAdd(Scale(u, a), Scale(v, b), w);
    DotScale(u, w, a);
    DotScale(v, w, b);
    ZeroFactor(a, Dot(u, w));
    ZeroFactor(b, Dot(v, w));
  }
}
