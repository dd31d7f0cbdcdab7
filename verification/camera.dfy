/** The thin-lens camera: an orthonormal frame built from the eye point,
    the target and the up vector, a viewport on the plane of perfect focus,
    and primary rays that leave from a point on the lens and pass through
    the viewport. */
module Cameras {
  import opened Numerics
  import opened Vectors
  import opened Rays

  /** `Camera`: the eye point, the two viewport edges, the viewport's
      lower-left corner, the frame `u`, `v`, `w` and the lens radius. */
  datatype Camera = Camera(origin: Point3, xAxis: Vec3, yAxis: Vec3, lowerLeft: Point3,
                           u: Vec3, v: Vec3, w: Vec3, lensRadius: real)

  /** The height of the viewport at unit distance, `2 tan(theta / 2)` for
      the vertical field of view in degrees. */
  function ViewportHeight(fovVertical: real, tan: real -> real, toRadians: real -> real): real {
    2.0 * tan(toRadians(fovVertical) / 2.0)
  }

  /** `w`: the unit vector from the target back to the eye. */
  function Backward(lookfrom: Point3, lookat: Point3, sqrt: real -> real): Vec3
    requires Len(Sub(lookfrom, lookat), sqrt) != 0.0
  {
    UnitVec(Sub(lookfrom, lookat), sqrt)
  }

  /** Can the frame be built? The eye must differ from the target and the up
      vector must not be parallel to the viewing direction; otherwise the
      source normalises a zero vector. */
  predicate CanFrame(lookfrom: Point3, lookat: Point3, vup: Vec3, sqrt: real -> real) {
    && Len(Sub(lookfrom, lookat), sqrt) != 0.0
    && Len(Cross(vup, Backward(lookfrom, lookat, sqrt)), sqrt) != 0.0
  }

  /** `Camera::new`. The tangent and the degrees-to-radians conversion are
      foreign numerics passed in. */
  function NewCamera(lookfrom: Point3, lookat: Point3, vup: Vec3, fovVertical: real, aspectRatio: real,
                     aperture: real, focusDist: real,
                     sqrt: real -> real, tan: real -> real, toRadians: real -> real): (cam: Camera)
    requires CanFrame(lookfrom, lookat, vup, sqrt)
    ensures cam.origin == lookfrom
    ensures cam.lensRadius == aperture / 2.0
    ensures Scale(cam.w, Len(Sub(lookfrom, lookat), sqrt)) == Sub(lookfrom, lookat)
    ensures Scale(cam.u, Len(Cross(vup, cam.w), sqrt)) == Cross(vup, cam.w)
    ensures cam.v == Cross(cam.w, cam.u)
    ensures Dot(cam.v, cam.w) == 0.0 && Dot(cam.v, cam.u) == 0.0
  {
    var viewportHeight := ViewportHeight(fovVertical, tan, toRadians);
    var viewportWidth := aspectRatio * viewportHeight;
    var w := Backward(lookfrom, lookat, sqrt);
    var u := UnitVec(Cross(vup, w), sqrt);
    var v := Cross(w, u);
    CrossOrthogonal(w, u);
    DotSymmetric(v, w);
    DotSymmetric(v, u);
    var origin := lookfrom;
    var xAxis := Scale(u, focusDist * viewportWidth);
    var yAxis := Scale(v, focusDist * viewportHeight);
    var lowerLeft := Sub(Sub(Sub(origin, Div(xAxis, 2.0)), Div(yAxis, 2.0)), Scale(w, focusDist));
    Camera(origin, xAxis, yAxis, lowerLeft, u, v, w, aperture / 2.0)
  }

  /** The viewport is centred on the viewing axis at the focus distance: its
      lower-left corner plus half of each edge is `focus_dist` in front of
      the eye along `-w`. */
  lemma ViewportCentred(lookfrom: Point3, lookat: Point3, vup: Vec3, fovVertical: real, aspectRatio: real,
                        aperture: real, focusDist: real,
                        sqrt: real -> real, tan: real -> real, toRadians: real -> real)
    requires CanFrame(lookfrom, lookat, vup, sqrt)
    ensures var cam := NewCamera(lookfrom, lookat, vup, fovVertical, aspectRatio, aperture, focusDist,
                                 sqrt, tan, toRadians);
      Add(Add(Add(cam.lowerLeft, Scale(cam.xAxis, 0.5)), Scale(cam.yAxis, 0.5)), Scale(cam.w, focusDist))
        == cam.origin
  {
  }

  /** The field of view: half of the vertical edge spans `tan(theta / 2)`
      along `v` per unit of focus distance, and half of the horizontal edge
      `aspect_ratio` times that along `u`. */
  lemma ViewportFieldOfView(lookfrom: Point3, lookat: Point3, vup: Vec3, fovVertical: real, aspectRatio: real,
                      aperture: real, focusDist: real,
                      sqrt: real -> real, tan: real -> real, toRadians: real -> real)
    requires CanFrame(lookfrom, lookat, vup, sqrt)
    ensures var cam := NewCamera(lookfrom, lookat, vup, fovVertical, aspectRatio, aperture, focusDist,
                                 sqrt, tan, toRadians);
      var half := tan(toRadians(fovVertical) / 2.0);
      && ViewportHeight(fovVertical, tan, toRadians) == 2.0 * half
      && Scale(cam.yAxis, 0.5) == Scale(cam.v, focusDist * half)
      && Scale(cam.xAxis, 0.5) == Scale(cam.u, focusDist * (aspectRatio * half))
  {
    VerticalHalfEdge(lookfrom, lookat, vup, fovVertical, aspectRatio, aperture, focusDist, sqrt, tan, toRadians);
    HorizontalHalfEdge(lookfrom, lookat, vup, fovVertical, aspectRatio, aperture, focusDist, sqrt, tan, toRadians);
  }

  lemma VerticalHalfEdge(lookfrom: Point3, lookat: Point3, vup: Vec3, fovVertical: real, aspectRatio: real,
                      aperture: real, focusDist: real,
                      sqrt: real -> real, tan: real -> real, toRadians: real -> real)
    requires CanFrame(lookfrom, lookat, vup, sqrt)
    ensures var cam := NewCamera(lookfrom, lookat, vup, fovVertical, aspectRatio, aperture, focusDist,
                                 sqrt, tan, toRadians);
      Scale(cam.yAxis, 0.5) == Scale(cam.v, focusDist * tan(toRadians(fovVertical) / 2.0))
  {
    CameraAxes(lookfrom, lookat, vup, fovVertical, aspectRatio, aperture, focusDist, sqrt, tan, toRadians);
    var cam := NewCamera(lookfrom, lookat, vup, fovVertical, aspectRatio, aperture, focusDist, sqrt, tan, toRadians);
    HalfEdge(cam.yAxis, cam.v, focusDist, fovVertical, tan, toRadians);
  }

  lemma HorizontalHalfEdge(lookfrom: Point3, lookat: Point3, vup: Vec3, fovVertical: real, aspectRatio: real,
                      aperture: real, focusDist: real,
                      sqrt: real -> real, tan: real -> real, toRadians: real -> real)
    requires CanFrame(lookfrom, lookat, vup, sqrt)
    ensures var cam := NewCamera(lookfrom, lookat, vup, fovVertical, aspectRatio, aperture, focusDist,
                                 sqrt, tan, toRadians);
      Scale(cam.xAxis, 0.5) == Scale(cam.u, focusDist * (aspectRatio * tan(toRadians(fovVertical) / 2.0)))
  {
    CameraAxes(lookfrom, lookat, vup, fovVertical, aspectRatio, aperture, focusDist, sqrt, tan, toRadians);
    var cam := NewCamera(lookfrom, lookat, vup, fovVertical, aspectRatio, aperture, focusDist, sqrt, tan, toRadians);
    HalfWideEdge(cam.xAxis, cam.u, focusDist, aspectRatio, fovVertical, tan, toRadians);
  }

  /** The two edges of the viewport, as `Camera::new` builds them. */
  lemma CameraAxes(lookfrom: Point3, lookat: Point3, vup: Vec3, fovVertical: real, aspectRatio: real,
                      aperture: real, focusDist: real,
                      sqrt: real -> real, tan: real -> real, toRadians: real -> real)
    requires CanFrame(lookfrom, lookat, vup, sqrt)
    ensures var cam := NewCamera(lookfrom, lookat, vup, fovVertical, aspectRatio, aperture, focusDist,
                                 sqrt, tan, toRadians);
      var height := ViewportHeight(fovVertical, tan, toRadians);
      && cam.yAxis == Scale(cam.v, focusDist * height)
      && cam.xAxis == Scale(cam.u, focusDist * (aspectRatio * height))
  {
  }

  /** Half of an edge `k height dir` is `k tan(theta / 2) dir`. */
  lemma HalfEdge(edge: Vec3, dir: Vec3, k: real, fovVertical: real, tan: real -> real, toRadians: real -> real)
    requires edge == Scale(dir, k * ViewportHeight(fovVertical, tan, toRadians))
    ensures Scale(edge, 0.5) == Scale(dir, k * tan(toRadians(fovVertical) / 2.0))
  {
    ScaleScale(dir, k * ViewportHeight(fovVertical, tan, toRadians), 0.5);
  }

  /** Half of an edge `f (r height) dir` is `f (r tan(theta / 2)) dir`. */
  lemma HalfWideEdge(edge: Vec3, dir: Vec3, focusDist: real, ratio: real,
                     fovVertical: real, tan: real -> real, toRadians: real -> real)
    requires edge == Scale(dir, focusDist * (ratio * ViewportHeight(fovVertical, tan, toRadians)))
    ensures Scale(edge, 0.5) == Scale(dir, focusDist * (ratio * tan(toRadians(fovVertical) / 2.0)))
  {
    ScaleScale(dir, focusDist * (ratio * ViewportHeight(fovVertical, tan, toRadians)), 0.5);
  }

  /** With exact square roots the frame is orthonormal, and `u` is
      perpendicular to the up vector: the horizontal viewport edge is level. */
  lemma FrameOrthonormal(lookfrom: Point3, lookat: Point3, vup: Vec3, fovVertical: real, aspectRatio: real,
                         aperture: real, focusDist: real,
                         sqrt: real -> real, tan: real -> real, toRadians: real -> real)
    requires SqrtLaw(sqrt)
    requires CanFrame(lookfrom, lookat, vup, sqrt)
    ensures var cam := NewCamera(lookfrom, lookat, vup, fovVertical, aspectRatio, aperture, focusDist,
                                 sqrt, tan, toRadians);
      && LenSquared(cam.u) == 1.0 && LenSquared(cam.v) == 1.0 && LenSquared(cam.w) == 1.0
      && Dot(cam.u, cam.v) == 0.0 && Dot(cam.v, cam.w) == 0.0 && Dot(cam.w, cam.u) == 0.0
      && Dot(cam.u, vup) == 0.0
  {
    var cam := NewCamera(lookfrom, lookat, vup, fovVertical, aspectRatio, aperture, focusDist,
                         sqrt, tan, toRadians);
    var w := cam.w;
    var c := Cross(vup, w);
    var l := Len(c, sqrt);
    UnitVecIsUnit(Sub(lookfrom, lookat), sqrt);
    UnitVecIsUnit(c, sqrt);
    // u is c scaled by 1 / l, and c is perpendicular to both vup and w.
    assert cam.u == Scale(c, 1.0 / l);
    CrossOrthogonal(vup, w);
    DotScale(c, w, 1.0 / l);
    DotScale(c, vup, 1.0 / l);
    DotSymmetric(cam.u, w);
    DotSymmetric(cam.u, vup);
    CrossOrthogonal(w, cam.u);
    DotSymmetric(cam.u, cam.v);
    DotSymmetric(cam.v, w);
    Lagrange(w, cam.u);
  }

  /** The offset from the eye to the ray origin: the lens sample, scaled by
      the lens radius, laid out along `u` and `v`. */
  function LensOffset(cam: Camera, disk: Vec3): (off: Vec3)
    ensures off == Add(Scale(cam.u, disk.x * cam.lensRadius), Scale(cam.v, disk.y * cam.lensRadius))
  {
    var rd := Scale(disk, cam.lensRadius);
    Add(Scale(cam.u, rd.x), Scale(cam.v, rd.y))
  }

  /** `Camera::gen_ray` for the viewport coordinates `s`, `t` and the sample
      `disk` of `Vec3::rand_in_unit_disk`: the ray leaves from the lens point
      and passes through the point `(s, t)` of the viewport, whatever the
      lens sample. */
  function GenRay(cam: Camera, s: real, t: real, disk: Vec3): (ray: Ray)
    ensures ray.origin == Add(cam.origin, LensOffset(cam, disk))
    ensures Add(ray.origin, ray.direction) == Add(Add(cam.lowerLeft, Scale(cam.xAxis, s)), Scale(cam.yAxis, t))
    ensures cam.lensRadius == 0.0 ==> ray.origin == cam.origin
  {
    var off := LensOffset(cam, disk);
    var sx := Scale(cam.xAxis, s);
    var ty := Scale(cam.yAxis, t);
    var origin := Add(cam.origin, off);
    var direction := Sub(Sub(Add(Add(cam.lowerLeft, sx), ty), cam.origin), off);
    OffsetCancels(cam.origin, off, Add(Add(cam.lowerLeft, sx), ty));
    ClosedLens(cam, disk);
    AddZero(cam.origin);
    Ray(origin, direction)
  }

  /** Moving the start by `off` and the direction back by `off` still
      reaches the same target. */
  lemma OffsetCancels(o: Point3, off: Vec3, target: Point3)
    ensures Add(Add(o, off), Sub(Sub(target, o), off)) == target
  {
  }

  /** A lens of radius zero (a pinhole) gives no offset. */
  lemma ClosedLens(cam: Camera, disk: Vec3)
    ensures cam.lensRadius == 0.0 ==> LensOffset(cam, disk) == Vec3(0.0, 0.0, 0.0)
  {
    if cam.lensRadius == 0.0 {
      ZeroFactor(disk.x, cam.lensRadius);
      ZeroFactor(disk.y, cam.lensRadius);
      ScaleZero(cam.u, disk.x * cam.lensRadius);
      ScaleZero(cam.v, disk.y * cam.lensRadius);
      assert Scale(cam.u, disk.x * cam.lensRadius) == Vec3(0.0, 0.0, 0.0);
      assert Scale(cam.v, disk.y * cam.lensRadius) == Vec3(0.0, 0.0, 0.0);
      assert LensOffset(cam, disk) == Add(Vec3(0.0, 0.0, 0.0), Vec3(0.0, 0.0, 0.0));
    }
  }

  /** Only the first two components of the lens sample matter. */
  lemma GenRayIgnoresDiskHeight(cam: Camera, s: real, t: real, disk: Vec3, z: real)
    ensures GenRay(cam, s, t, disk) == GenRay(cam, s, t, Vec3(disk.x, disk.y, z))
  {
  }

  /** With an orthonormal frame and a sample inside the unit disk, the lens
      offset lies within the lens radius, in the plane perpendicular to `w`. */
  lemma LensOffsetInDisk(cam: Camera, disk: Vec3)
    requires LenSquared(cam.u) == 1.0 && LenSquared(cam.v) == 1.0
    requires Dot(cam.u, cam.v) == 0.0 && Dot(cam.v, cam.w) == 0.0 && Dot(cam.w, cam.u) == 0.0
    requires LenSquared(disk) < 1.0 && disk.z == 0.0
    ensures LenSquared(LensOffset(cam, disk)) <= cam.lensRadius * cam.lensRadius
    ensures Dot(LensOffset(cam, disk), cam.w) == 0.0
  {
    var r := cam.lensRadius;
    ScaledPlaneLength(cam.u, cam.v, disk.x, disk.y, r);
    DiskInside(disk);
    SquarePositive(r);
    ScaledBelow(LenSquared(LensOffset(cam, disk)), r * r, disk.x * disk.x + disk.y * disk.y);
    DotSymmetric(cam.w, cam.u);
    PlanePerpendicular(cam.u, cam.v, cam.w, disk.x * cam.lensRadius, disk.y * cam.lensRadius);
  }

  /** Consequently every primary ray leaves from a point of the lens: within
      the lens radius of the eye, on the plane through the eye perpendicular
      to the viewing axis. */
  lemma RayOriginOnLens(cam: Camera, s: real, t: real, disk: Vec3)
    requires LenSquared(cam.u) == 1.0 && LenSquared(cam.v) == 1.0
    requires Dot(cam.u, cam.v) == 0.0 && Dot(cam.v, cam.w) == 0.0 && Dot(cam.w, cam.u) == 0.0
    requires LenSquared(disk) < 1.0 && disk.z == 0.0
    ensures var off := Sub(GenRay(cam, s, t, disk).origin, cam.origin);
      LenSquared(off) <= cam.lensRadius * cam.lensRadius && Dot(off, cam.w) == 0.0
  {
    LensOffsetInDisk(cam, disk);
    assert Sub(GenRay(cam, s, t, disk).origin, cam.origin) == LensOffset(cam, disk);
  }

  /** The squared length of `x r u + y r v` for orthonormal `u`, `v`. */
  lemma ScaledPlaneLength(u: Vec3, v: Vec3, x: real, y: real, r: real)
    requires LenSquared(u) == 1.0 && LenSquared(v) == 1.0 && Dot(u, v) == 0.0
    ensures LenSquared(Add(Scale(u, x * r), Scale(v, y * r))) == (r * r) * (x * x + y * y)
  {
    PlaneLength(u, v, x * r, y * r);
  }

  /** A point of the unit disk in the plane `z == 0`. */
  lemma DiskInside(disk: Vec3)
    requires LenSquared(disk) < 1.0 && disk.z == 0.0
    ensures disk.x * disk.x + disk.y * disk.y < 1.0
  {
  }

}
