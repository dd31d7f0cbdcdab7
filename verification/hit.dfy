/** Hit records and the half-open parameter ranges a ray is tested against.
    The record is generic in the material so that geometry does not depend
    on the scattering rules (the source stores a shared `dyn Material`). */
module Hits {
  import opened Numerics
  import opened Vectors
  import opened Rays

  /** The end of a `Range<f64>`: a finite value or `f64::INFINITY`. */
  datatype Bound = Finite(value: real) | Infinity

  /** `Range<f64>`, `start..end`. */
  datatype Interval = Interval(start: real, end: Bound)

  /** `Range::contains`: `start <= x < end`, half-open. */
  predicate Contains(i: Interval, x: real) {
    i.start <= x && (i.end.Finite? ==> x < i.end.value)
  }

  /** The range is half-open: it holds its start (when not empty) and never
      its end, and an unbounded range holds everything from its start on. */
  lemma ContainsIsHalfOpen(start: real, end: real, x: real)
    ensures !Contains(Interval(start, Finite(end)), end)
    ensures start < end ==> Contains(Interval(start, Finite(end)), start)
    ensures end <= start ==> !Contains(Interval(start, Finite(end)), x)
    ensures Contains(Interval(start, Infinity), x) <==> start <= x
  {
  }

  /** Is `e` at most the bound `b`? */
  predicate AtMost(e: real, b: Bound) {
    b.Finite? ==> e <= b.value
  }

  datatype HitRecord<M> = HitRecord(t: real, p: Point3, normal: Vec3, frontFace: bool, material: M)

  /** `HitRecord::new`: the face is the front one when the ray travels against
      the outward normal, and the stored normal is turned to oppose the ray. */
  function NewHitRecord<M>(t: real, p: Point3, outward: Vec3, ray: Ray, material: M): (r: HitRecord<M>)
    ensures r.t == t && r.p == p && r.material == material
    ensures r.frontFace <==> Dot(ray.direction, outward) < 0.0
    ensures r.frontFace ==> r.normal == outward
    ensures !r.frontFace ==> r.normal == Neg(outward)
    ensures Dot(r.normal, ray.direction) == -Abs(Dot(ray.direction, outward)) <= 0.0
    ensures LenSquared(r.normal) == LenSquared(outward)
  {
    LenSquaredNeg(outward);
    var frontFace := Dot(ray.direction, outward) < 0.0;
    var normal := if frontFace then outward else Neg(outward);
    HitRecord(t, p, normal, frontFace, material)
  }
}
