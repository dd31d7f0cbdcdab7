/** The sphere primitive and its ray intersection: the quadratic
    `a t^2 + 2 half_b t + c == 0` for the ray parameter `t`, whose nearer
    root is tried first against the half-open range. */
module Spheres {
  import opened Numerics
  import opened Vectors
  import opened Options
  import opened Rays
  import opened Hits

  /** `Sphere::new` builds the centre from its three coordinates. */
  datatype Sphere<M> = Sphere(center: Point3, radius: real, material: M)

  // The coefficients of the quadratic. `a` is the squared length of the
  // direction and `c` is `|origin - center|^2 - radius^2`.

  function HalfB<M>(s: Sphere<M>, ray: Ray): real {
    Dot(Sub(ray.origin, s.center), ray.direction)
  }

  function C<M>(s: Sphere<M>, ray: Ray): real {
    LenSquared(Sub(ray.origin, s.center)) - s.radius * s.radius
  }

  function Discriminant<M>(s: Sphere<M>, ray: Ray): real {
    HalfB(s, ray) * HalfB(s, ray) - LenSquared(ray.direction) * C(s, ray)
  }

  /** The `-sqrt` root, `(-half_b - sqrt(discriminant)) / a`. */
  function NearRoot<M>(s: Sphere<M>, ray: Ray, sqrt: real -> real): real
    requires LenSquared(ray.direction) != 0.0
  {
    (-HalfB(s, ray) - sqrt(Discriminant(s, ray))) / LenSquared(ray.direction)
  }

  /** The `+sqrt` root, `(-half_b + sqrt(discriminant)) / a`. */
  function FarRoot<M>(s: Sphere<M>, ray: Ray, sqrt: real -> real): real
    requires LenSquared(ray.direction) != 0.0
  {
    (-HalfB(s, ray) + sqrt(Discriminant(s, ray))) / LenSquared(ray.direction)
  }

  /** The outward normal at a point `p`, `(p - center) / radius`. */
  function Outward<M>(s: Sphere<M>, p: Point3): Vec3
    requires s.radius != 0.0
  {
    Div(Sub(p, s.center), s.radius)
  }

  /** Whether `h` is the record `HitRecord::new` makes from the outward
      normal at its point: the front face is the one the ray travels
      against, and the stored normal is the outward one turned to oppose
      the ray. */
  predicate FacesRay<M>(s: Sphere<M>, ray: Ray, h: HitRecord<M>)
    requires s.radius != 0.0
  {
    && (h.frontFace <==> Dot(ray.direction, Outward(s, h.p)) < 0.0)
    && h.normal == (if h.frontFace then Outward(s, h.p) else Neg(Outward(s, h.p)))
  }

  /** The record for a hit at parameter `t`: the point on the ray and the
      outward normal `(p - center) / radius`, turned to oppose the ray. */
  function RecordAt<M>(s: Sphere<M>, ray: Ray, t: real): (h: HitRecord<M>)
    requires s.radius != 0.0
    ensures h.t == t && h.p == At(ray, t) && h.material == s.material
    ensures FacesRay(s, ray, h)
    ensures Dot(h.normal, ray.direction) <= 0.0
  {
    var p := At(ray, t);
    NewHitRecord(t, p, Outward(s, p), ray, s.material)
  }

  /** `Sphere::try_hit`. The direction must not be the zero vector (the
      source divides by its squared length) and the radius must not be zero
      (the source divides by it). */
  function TryHit<M>(s: Sphere<M>, ray: Ray, interval: Interval, sqrt: real -> real): (r: Option<HitRecord<M>>)
    requires s.radius != 0.0
    requires LenSquared(ray.direction) != 0.0
    ensures r.Some? ==> Contains(interval, r.value.t)
    ensures r.Some? ==> r.value.p == At(ray, r.value.t) && r.value.material == s.material
    ensures r.Some? ==> FacesRay(s, ray, r.value)
    ensures r.Some? ==> Dot(r.value.normal, ray.direction) <= 0.0
    ensures Discriminant(s, ray) < 0.0 ==> r.None?
  {
    if Discriminant(s, ray) < 0.0 then
      None
    else if Contains(interval, NearRoot(s, ray, sqrt)) then
      Some(RecordAt(s, ray, NearRoot(s, ray, sqrt)))
    else if Contains(interval, FarRoot(s, ray, sqrt)) then
      Some(RecordAt(s, ray, FarRoot(s, ray, sqrt)))
    else
      None
  }

  /** Root selection: with a non-negative discriminant the nearer root wins
      whenever it lies in the range; the farther one is used only when the
      nearer one does not, and nothing is hit when neither does. */
  lemma TryHitPrefersNearRoot<M>(s: Sphere<M>, ray: Ray, interval: Interval, sqrt: real -> real)
    requires s.radius != 0.0
    requires LenSquared(ray.direction) != 0.0
    requires 0.0 <= Discriminant(s, ray)
    ensures var r := TryHit(s, ray, interval, sqrt);
      && (Contains(interval, NearRoot(s, ray, sqrt)) ==> r.Some? && r.value.t == NearRoot(s, ray, sqrt))
      && (!Contains(interval, NearRoot(s, ray, sqrt)) && Contains(interval, FarRoot(s, ray, sqrt))
          ==> r.Some? && r.value.t == FarRoot(s, ray, sqrt))
      && (r.None? <==> !Contains(interval, NearRoot(s, ray, sqrt)) && !Contains(interval, FarRoot(s, ray, sqrt)))
  {
  }

  // ----- Exact square roots: the returned point lies on the sphere -----

  lemma MulZero(a: real, x: real)
    requires a != 0.0 && a * x == 0.0
    ensures x == 0.0
  {
  }

  /** Both roots of `a t^2 + 2 hb t + c` are roots, when `q` is an exact
      square root of the discriminant `hb^2 - a c`. */
  lemma RootOfQuadratic(a: real, hb: real, c: real, q: real, t: real)
    requires a != 0.0
    requires q * q == hb * hb - a * c
    requires a * t == -hb - q || a * t == -hb + q
    ensures a * t * t + 2.0 * hb * t + c == 0.0
  {
    var e := a * t + hb;
    assert e * e == q * q;
    assert a * (a * t * t + 2.0 * hb * t + c) == e * e - hb * hb + a * c;
    MulZero(a, a * t * t + 2.0 * hb * t + c);
  }

  /** The distance from the centre to the point at parameter `t`, squared,
      expanded in `t`. */
  lemma DistanceAt<M>(s: Sphere<M>, ray: Ray, t: real)
    ensures LenSquared(Sub(At(ray, t), s.center))
         == LenSquared(ray.direction) * t * t + 2.0 * HalfB(s, ray) * t + C(s, ray) + s.radius * s.radius
  {
    var oc := Sub(ray.origin, s.center);
    var d := ray.direction;
    assert Sub(At(ray, t), s.center) == Add(oc, Scale(d, t));
    LenSquaredAdd(oc, Scale(d, t));
    DotScale(oc, d, t);
    LenSquaredScale(d, t);
  }

  /** With exact square roots, a root of the quadratic is a point on the
      sphere: `|ray.at(t) - center|^2 == radius^2`. */
  lemma RootOnSphere<M>(s: Sphere<M>, ray: Ray, sqrt: real -> real, t: real)
    requires SqrtLaw(sqrt)
    requires LenSquared(ray.direction) != 0.0
    requires 0.0 <= Discriminant(s, ray)
    requires t == NearRoot(s, ray, sqrt) || t == FarRoot(s, ray, sqrt)
    ensures LenSquared(Sub(At(ray, t), s.center)) == s.radius * s.radius
  {
    var a := LenSquared(ray.direction);
    var hb := HalfB(s, ray);
    var c := C(s, ray);
    var q := sqrt(Discriminant(s, ray));
    assert q * q == hb * hb - a * c;
    assert a * t == -hb - q || a * t == -hb + q;
    RootOfQuadratic(a, hb, c, q, t);
    DistanceAt(s, ray, t);
  }

  /** Dividing by the radius normalises a vector whose length is the radius. */
  lemma DivByRadiusIsUnit(w: Vec3, radius: real)
    requires radius != 0.0
    requires LenSquared(w) == radius * radius
    ensures LenSquared(Div(w, radius)) == 1.0
  {
    var k := 1.0 / radius;
    LenSquaredScale(w, k);
    assert k * radius == 1.0;
    calc {
      k * k * LenSquared(w);
      k * k * (radius * radius);
      (k * radius) * (k * radius);
      1.0;
    }
  }

  /** With exact square roots every hit lies on the sphere and carries a
      unit normal. */
  lemma TryHitOnSphere<M>(s: Sphere<M>, ray: Ray, interval: Interval, sqrt: real -> real)
    requires SqrtLaw(sqrt)
    requires s.radius != 0.0
    requires LenSquared(ray.direction) != 0.0
    ensures var r := TryHit(s, ray, interval, sqrt);
      r.Some? ==> (LenSquared(Sub(r.value.p, s.center)) == s.radius * s.radius
                   && LenSquared(r.value.normal) == 1.0)
  {
    var r := TryHit(s, ray, interval, sqrt);
    if r.Some? {
      var t := r.value.t;
      RootOnSphere(s, ray, sqrt, t);
      DivByRadiusIsUnit(Sub(At(ray, t), s.center), s.radius);
    }
  }

  // ----- Narrowing the range -----

  lemma DivMonotone(x: real, y: real, a: real)
    requires 0.0 < a && x <= y
    ensures x / a <= y / a
  {
  }

  /** With a non-negative square root the nearer root is never the larger. */
  lemma NearBeforeFar<M>(s: Sphere<M>, ray: Ray, sqrt: real -> real)
    requires SqrtLaw(sqrt)
    requires LenSquared(ray.direction) != 0.0
    requires 0.0 <= Discriminant(s, ray)
    ensures NearRoot(s, ray, sqrt) <= FarRoot(s, ray, sqrt)
  {
    var q := sqrt(Discriminant(s, ray));
    DivMonotone(-HalfB(s, ray) - q, -HalfB(s, ray) + q, LenSquared(ray.direction));
  }

  /** Testing the sphere against the range cut short at `e` (no later than
      the old end) hits exactly when the test against the old range hits
      before `e`, and then with the same record. This is what makes the scan
      over a list of primitives pick the nearest hit. */
  lemma TryHitNarrowed<M>(s: Sphere<M>, ray: Ray, start: real, end: Bound, e: real, sqrt: real -> real)
    requires SqrtLaw(sqrt)
    requires s.radius != 0.0
    requires LenSquared(ray.direction) != 0.0
    requires AtMost(e, end)
    ensures var h := TryHit(s, ray, Interval(start, end), sqrt);
      TryHit(s, ray, Interval(start, Finite(e)), sqrt) == if h.Some? && h.value.t < e then h else None
  {
    if 0.0 <= Discriminant(s, ray) {
      NearBeforeFar(s, ray, sqrt);
    }
  }
}
