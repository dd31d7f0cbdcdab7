/** A ray: an origin and a direction, which need not be normalised. */
module Rays {
  import opened Vectors

  /** `Ray::new` is the constructor: it stores both arguments unchanged. */
  datatype Ray = Ray(origin: Point3, direction: Vec3)

  /** The point reached after travelling `t` along the ray: its offset from
      the origin is `t` times the direction. */
  function At(ray: Ray, t: real): (p: Point3)
    ensures Sub(p, ray.origin) == Scale(ray.direction, t)
  {
    Add(ray.origin, Scale(ray.direction, t))
  }

  lemma AtZero(ray: Ray)
    ensures At(ray, 0.0) == ray.origin
  {
  }

  /** `At` is affine in `t`: two points differ by the difference of their
      parameters times the direction. */
  lemma AtAffine(ray: Ray, s: real, t: real)
    ensures Sub(At(ray, s), At(ray, t)) == Scale(ray.direction, s - t)
  {
  }
}
