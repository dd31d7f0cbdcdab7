/** The three materials and their scattering rules. A scatter either absorbs
    the ray (`None`) or returns the scattered ray with the colour it is
    attenuated by. The random values a scatter consumes are passed in as a
    `Sample`. */
module Materials {
  import opened Numerics
  import opened Vectors
  import opened Options
  import opened Rays
  import opened Hits
  import opened Colors

  datatype Material =
    | Lambertian(albedo: Color)
    | Metal(albedo: Color, fuzz: real)
    | Dielectric(refraction: real)

  /** Materials whose scattering divides only by nonzero values: the
      dielectric divides by its index and by one plus the ratio it derives
      from it. */
  predicate WellFormed(m: Material) {
    m.Dielectric? ==> m.refraction != 0.0 && m.refraction != -1.0
  }

  /** `Metal::new` caps the fuzz at one. */
  function NewMetal(albedo: Color, fuzz: real): (m: Material)
    ensures m.Metal? && m.albedo == albedo
    ensures m.fuzz <= 1.0
    ensures fuzz <= 1.0 ==> m.fuzz == fuzz
    ensures 1.0 < fuzz ==> m.fuzz == 1.0
  {
    Metal(albedo, Min(fuzz, 1.0))
  }

  /** The random values of one bounce: what `Vec3::rand_unit_vec()`,
      `Vec3::rand_in_unit_sphere()` and `fastrand::f64()` return. */
  datatype Sample = Sample(unitVec: Vec3, inSphere: Vec3, uniform: real)

  /** The `(Ray, Color)` pair of a scatter that is not absorbed. */
  datatype Scattered = Scattered(ray: Ray, attenuation: Color)

  // ----- Lambertian -----

  /** The normal plus the random unit vector, or the bare normal when that
      sum is near zero on some axis. */
  function LambertianDirection(normal: Vec3, unitVec: Vec3): (d: Vec3)
    ensures IsNearZero(Add(normal, unitVec)) ==> d == normal
    ensures !IsNearZero(Add(normal, unitVec)) ==> d == Add(normal, unitVec)
  {
    var direction := Add(normal, unitVec);
    if IsNearZero(direction) then normal else direction
  }

  /** `Lambertian::scatter` never absorbs: the ray leaves the hit point and
      is attenuated by the albedo. */
  function ScatterLambertian(albedo: Color, hit: HitRecord<Material>, sample: Sample): (r: Option<Scattered>)
    ensures r.Some?
    ensures r.value.attenuation == albedo && r.value.ray.origin == hit.p
    ensures r.value.ray.direction == LambertianDirection(hit.normal, sample.unitVec)
  {
    Some(Scattered(Ray(hit.p, LambertianDirection(hit.normal, sample.unitVec)), albedo))
  }

  /** Against a unit normal the diffuse direction is never the zero vector,
      whatever the random vector: the replacement for a near-zero sum is the
      normal itself, and a sum with no axis near zero is long enough. */
  lemma LambertianDirectionNonzero(normal: Vec3, unitVec: Vec3)
    requires LenSquared(normal) == 1.0
    ensures 0.0 < LenSquared(LambertianDirection(normal, unitVec))
  {
    var direction := Add(normal, unitVec);
    if !IsNearZero(direction) {
      NotNearZeroIsLong(direction);
    }
  }

  // ----- Metal -----

  /** The normalised incoming direction mirrored about the normal, perturbed
      by `fuzz` times the in-sphere vector. */
  function MetalDirection(fuzz: real, hit: HitRecord<Material>, ray: Ray, sample: Sample, sqrt: real -> real): Vec3
    requires Len(ray.direction, sqrt) != 0.0
  {
    Add(Reflect(UnitVec(ray.direction, sqrt), hit.normal), Scale(sample.inSphere, fuzz))
  }

  /** `Metal::scatter` absorbs exactly when the perturbed reflection does not
      leave on the side the normal points to. */
  function ScatterMetal(albedo: Color, fuzz: real, hit: HitRecord<Material>, ray: Ray, sample: Sample,
                        sqrt: real -> real): (r: Option<Scattered>)
    requires Len(ray.direction, sqrt) != 0.0
    ensures r.Some? <==> Dot(MetalDirection(fuzz, hit, ray, sample, sqrt), hit.normal) > 0.0
    ensures r.Some? ==> r.value.attenuation == albedo && r.value.ray.origin == hit.p
    ensures r.Some? ==> r.value.ray.direction == MetalDirection(fuzz, hit, ray, sample, sqrt)
    ensures r.Some? ==> Dot(r.value.ray.direction, hit.normal) > 0.0
  {
    var scattered := Ray(hit.p, MetalDirection(fuzz, hit, ray, sample, sqrt));
    if Dot(scattered.direction, hit.normal) > 0.0 then Some(Scattered(scattered, albedo)) else None
  }

  /** A vector with a positive component along another is not the zero
      vector (by the Cauchy-Schwarz inequality). */
  lemma PositiveDotIsNonzero(v: Vec3, n: Vec3)
    requires Dot(v, n) > 0.0
    ensures 0.0 < LenSquared(v)
  {
    CauchySchwarz(v, n);
    FactorPositive(Dot(v, n), Dot(v, n), LenSquared(v), LenSquared(n));
  }

  /** The normalised direction makes the same kind of angle with `n` as the
      direction itself. */
  lemma UnitVecDotSign(v: Vec3, n: Vec3, sqrt: real -> real)
    requires SqrtLaw(sqrt)
    requires Len(v, sqrt) != 0.0
    ensures Dot(v, n) < 0.0 ==> Dot(UnitVec(v, sqrt), n) < 0.0
    ensures Dot(v, n) <= 0.0 ==> Dot(UnitVec(v, sqrt), n) <= 0.0
  {
    var l := Len(v, sqrt);
    var k := 1.0 / l;
    assert 0.0 < k;
    DotScale(v, n, k);
    var d := Dot(v, n);
    if d < 0.0 {
      MulPositive(k, -d);
    } else if d == 0.0 {
      assert k * d == 0.0;
    }
  }

  /** A perfect mirror (`fuzz == 0`) struck from the front never absorbs:
      the reflection of the incoming direction leaves along the normal. */
  lemma MirrorNeverAbsorbs(albedo: Color, hit: HitRecord<Material>, ray: Ray, sample: Sample, sqrt: real -> real)
    requires SqrtLaw(sqrt)
    requires Len(ray.direction, sqrt) != 0.0
    requires LenSquared(hit.normal) == 1.0
    requires Dot(ray.direction, hit.normal) < 0.0
    ensures ScatterMetal(albedo, 0.0, hit, ray, sample, sqrt).Some?
  {
    var u := UnitVec(ray.direction, sqrt);
    UnitVecDotSign(ray.direction, hit.normal, sqrt);
    ReflectDot(u, hit.normal);
    DotAdd(Reflect(u, hit.normal), Scale(sample.inSphere, 0.0), hit.normal);
    DotScale(sample.inSphere, hit.normal, 0.0);
  }

  /** The fuzzed reflection lies within `fuzz` of the mirror reflection when
      the perturbation is drawn inside the unit ball; with no fuzz it is the
      mirror reflection itself. */
  lemma MetalWithinFuzz(fuzz: real, hit: HitRecord<Material>, ray: Ray, sample: Sample, sqrt: real -> real)
    requires Len(ray.direction, sqrt) != 0.0
    requires LenSquared(sample.inSphere) < 1.0
    ensures var mirror := Reflect(UnitVec(ray.direction, sqrt), hit.normal);
      && LenSquared(Sub(MetalDirection(fuzz, hit, ray, sample, sqrt), mirror)) <= fuzz * fuzz
      && (fuzz == 0.0 ==> MetalDirection(fuzz, hit, ray, sample, sqrt) == mirror)
  {
    var mirror := Reflect(UnitVec(ray.direction, sqrt), hit.normal);
    var offset := Scale(sample.inSphere, fuzz);
    assert Sub(Add(mirror, offset), mirror) == offset;
    LenSquaredScale(sample.inSphere, fuzz);
    SquarePositive(fuzz);
    ScaledBelow(LenSquared(offset), fuzz * fuzz, LenSquared(sample.inSphere));
    if fuzz == 0.0 {
      ScaleZero(sample.inSphere, fuzz);
      AddZero(mirror);
    }
  }

  // ----- Dielectric -----

  /** The ratio of refractive indices: entering through the front face the
      ray goes from air (index 1) into the material. */
  function RefractionRatio(refraction: real, frontFace: bool): (r: real)
    requires refraction != 0.0
    ensures frontFace ==> r * refraction == 1.0
    ensures !frontFace ==> r == refraction
  {
    if frontFace then 1.0 / refraction else refraction
  }

  /** Reflectance at normal incidence for the ratio `refraction`. */
  function R0(refraction: real): (r: real)
    requires refraction != -1.0
    ensures 0.0 <= r
  {
    var q := (1.0 - refraction) / (1.0 + refraction);
    SquarePositive(q);
    q * q
  }

  /** `powi(5)`. */
  function Pow5(x: real): real {
    x * x * x * x * x
  }

  lemma Pow5Bound(x: real)
    requires 0.0 <= x <= 1.0
    ensures 0.0 <= Pow5(x) <= 1.0
  {
    var x2 := x * x;
    MulAtMostOne(x, x);
    var x3 := x2 * x;
    MulAtMostOne(x2, x);
    var x4 := x3 * x;
    MulAtMostOne(x3, x);
    MulAtMostOne(x4, x);
    assert Pow5(x) == x4 * x;
  }

  /** `Dielectric::reflectance`, Schlick's approximation. */
  function Reflectance(cos: real, refraction: real): real
    requires refraction != -1.0
  {
    R0(refraction) + (1.0 - R0(refraction)) * Pow5(1.0 - cos)
  }

  /** Schlick's approximation gives the normal-incidence reflectance when
      the cosine is 1, and total reflection at grazing incidence. */
  lemma ReflectanceEnds(refraction: real)
    requires refraction != -1.0
    ensures Reflectance(1.0, refraction) == R0(refraction)
    ensures Reflectance(0.0, refraction) == 1.0
  {
  }

  /** The normal-incidence reflectance does not change when the ratio is
      inverted; so passing the ratio of indices rather than the index gives
      the same reflectance on both faces. */
  lemma R0Reciprocal(refraction: real)
    requires refraction != 0.0 && refraction != -1.0
    ensures 1.0 / refraction != -1.0
    ensures R0(1.0 / refraction) == R0(refraction)
  {
    var r := refraction;
    var s := 1.0 / r;
    assert s * r == 1.0;
    assert (1.0 - s) * r == r - 1.0;
    assert (1.0 + s) * r == r + 1.0;
    var q := (1.0 - r) / (1.0 + r);
    assert (1.0 - s) / (1.0 + s) == -q;
  }

  /** For a positive ratio the normal-incidence reflectance is below one. */
  lemma R0BelowOne(refraction: real)
    requires 0.0 < refraction
    ensures R0(refraction) < 1.0
  {
    var q := (1.0 - refraction) / (1.0 + refraction);
    assert -1.0 < q < 1.0;
    MulBelowOne(q, q);
  }

  /** For a cosine in `[0, 1]` and a positive ratio, the reflectance is a
      probability. */
  lemma ReflectanceIsProbability(cos: real, refraction: real)
    requires 0.0 <= cos <= 1.0
    requires 0.0 < refraction
    ensures 0.0 <= Reflectance(cos, refraction) <= 1.0
  {
    R0BelowOne(refraction);
    Pow5Bound(1.0 - cos);
    BlendAtMostOne(R0(refraction), Pow5(1.0 - cos));
  }

  /** The choice made by `cannot_refract`: no real solution of Snell's law,
      or the random draw falls under the reflectance. */
  predicate DielectricReflects(ratio: real, cos: real, sin: real, draw: real)
    requires ratio != -1.0
  {
    NoSnellSolution(ratio, sin) || Reflectance(cos, ratio) > draw
  }

  /** The direction a dielectric sends the ray in: the reflection or the
      refraction of the normalised direction. */
  function DielectricDirection(refraction: real, hit: HitRecord<Material>, ray: Ray, draw: real,
                               sqrt: real -> real): (d: Vec3)
    requires refraction != 0.0 && refraction != -1.0
    requires Len(ray.direction, sqrt) != 0.0
    ensures var unit := UnitVec(ray.direction, sqrt);
      || d == Reflect(unit, hit.normal)
      || d == Refract(unit, hit.normal, RefractionRatio(refraction, hit.frontFace), sqrt)
  {
    R0Reciprocal(refraction);
    var ratio := RefractionRatio(refraction, hit.frontFace);
    var unit := UnitVec(ray.direction, sqrt);
    var cos := RefractCos(unit, hit.normal);
    var sin := Sine(cos, sqrt);
    if DielectricReflects(ratio, cos, sin, draw) then Reflect(unit, hit.normal)
    else Refract(unit, hit.normal, ratio, sqrt)
  }

  /** `Dielectric::scatter` never absorbs and never tints the ray. */
  function ScatterDielectric(refraction: real, hit: HitRecord<Material>, ray: Ray, sample: Sample,
                             sqrt: real -> real): (r: Option<Scattered>)
    requires refraction != 0.0 && refraction != -1.0
    requires Len(ray.direction, sqrt) != 0.0
    ensures r.Some? && r.value.attenuation == WHITE && r.value.ray.origin == hit.p
    ensures r.value.ray.direction == DielectricDirection(refraction, hit, ray, sample.uniform, sqrt)
  {
    Some(Scattered(Ray(hit.p, DielectricDirection(refraction, hit, ray, sample.uniform, sqrt)), WHITE))
  }

  /** The direction a dielectric returns follows `cannot_refract`. When
      Snell's law has no solution (`ratio * sin > 1`) it is the reflection
      whatever the draw. Otherwise it is the reflection when the reflectance
      exceeds the draw and the refraction when it does not, so a smaller
      draw never turns a reflection into a refraction. */
  lemma DielectricChoice(refraction: real, hit: HitRecord<Material>, ray: Ray, draw: real,
                         other: real, sqrt: real -> real)
    requires refraction != 0.0 && refraction != -1.0
    requires Len(ray.direction, sqrt) != 0.0
    ensures var unit := UnitVec(ray.direction, sqrt);
      var ratio := RefractionRatio(refraction, hit.frontFace);
      var cos := RefractCos(unit, hit.normal);
      var sin := Sine(cos, sqrt);
      var d := DielectricDirection(refraction, hit, ray, draw, sqrt);
      && ratio != -1.0
      && (NoSnellSolution(ratio, sin) ==> d == Reflect(unit, hit.normal))
      && (!NoSnellSolution(ratio, sin) && Reflectance(cos, ratio) > draw ==> d == Reflect(unit, hit.normal))
      && (!NoSnellSolution(ratio, sin) && draw >= Reflectance(cos, ratio) ==>
            d == Refract(unit, hit.normal, ratio, sqrt))
      && (other <= draw && Reflectance(cos, ratio) > draw ==>
            DielectricDirection(refraction, hit, ray, other, sqrt) == Reflect(unit, hit.normal))
  {
    R0Reciprocal(refraction);
  }

  /** Under exact square roots, a positive index and unit vectors, the
      dielectric's test `ratio * sin > 1` is the Snell condition that
      `Refract` uses: the perpendicular part would be longer than a unit
      vector. So a refracted ray is always a unit vector. */
  lemma DielectricRefractsToUnit(refraction: real, hit: HitRecord<Material>, ray: Ray, draw: real,
                                 sqrt: real -> real)
    requires SqrtLaw(sqrt)
    requires 0.0 < refraction
    requires Len(ray.direction, sqrt) != 0.0
    requires LenSquared(hit.normal) == 1.0
    ensures var unit := UnitVec(ray.direction, sqrt);
      var ratio := RefractionRatio(refraction, hit.frontFace);
      var cos := RefractCos(unit, hit.normal);
      && (NoSnellSolution(ratio, Sine(cos, sqrt)) <==> 1.0 < LenSquared(RefractPerp(unit, hit.normal, ratio)))
      && (DielectricDirection(refraction, hit, ray, draw, sqrt) != Reflect(unit, hit.normal) ==>
            LenSquared(DielectricDirection(refraction, hit, ray, draw, sqrt)) == 1.0)
  {
    var unit := UnitVec(ray.direction, sqrt);
    var ratio := RefractionRatio(refraction, hit.frontFace);
    UnitVecIsUnit(ray.direction, sqrt);
    assert 0.0 < ratio;
    SnellCondition(unit, hit.normal, ratio, sqrt);
  }

  /** With exact square roots, a unit normal facing the ray and a nonzero
      direction, the dielectric's direction is never the zero vector; a
      reflection turns back to the normal's side and a refraction crosses
      the surface. */
  lemma DielectricDirectionSide(refraction: real, hit: HitRecord<Material>, ray: Ray, draw: real,
                                sqrt: real -> real)
    requires SqrtLaw(sqrt)
    requires refraction != 0.0 && refraction != -1.0
    requires Len(ray.direction, sqrt) != 0.0
    requires LenSquared(hit.normal) == 1.0
    requires Dot(ray.direction, hit.normal) <= 0.0
    ensures var d := DielectricDirection(refraction, hit, ray, draw, sqrt);
      && 1.0 <= LenSquared(d)
      && (d == Reflect(UnitVec(ray.direction, sqrt), hit.normal) ==> 0.0 <= Dot(d, hit.normal))
      && (d != Reflect(UnitVec(ray.direction, sqrt), hit.normal) ==> Dot(d, hit.normal) <= 0.0)
  {
    var unit := UnitVec(ray.direction, sqrt);
    UnitVecIsUnit(ray.direction, sqrt);
    UnitVecDotSign(ray.direction, hit.normal, sqrt);
    ReflectDot(unit, hit.normal);
    ReflectLength(unit, hit.normal);
    R0Reciprocal(refraction);
    var ratio := RefractionRatio(refraction, hit.frontFace);
  }

  // ----- Dispatch -----

  /** `HitRecord::scatter`: the rule of the material that was hit. Only a
      metal can absorb. */
  function Scatter(hit: HitRecord<Material>, ray: Ray, sample: Sample, sqrt: real -> real): (r: Option<Scattered>)
    requires WellFormed(hit.material)
    requires Len(ray.direction, sqrt) != 0.0
    ensures r.None? ==> hit.material.Metal?
    ensures r.Some? ==> r.value.ray.origin == hit.p
    ensures r.Some? && !hit.material.Dielectric? ==> r.value.attenuation == hit.material.albedo
    ensures r.Some? && hit.material.Dielectric? ==> r.value.attenuation == WHITE
  {
    match hit.material
    case Lambertian(albedo) => ScatterLambertian(albedo, hit, sample)
    case Metal(albedo, fuzz) => ScatterMetal(albedo, fuzz, hit, ray, sample, sqrt)
    case Dielectric(refraction) => ScatterDielectric(refraction, hit, ray, sample, sqrt)
  }

  /** What keeps the path integrator going: off a unit normal that faces the
      ray, every ray that is scattered rather than absorbed has a nonzero
      direction. */
  lemma ScatterKeepsDirection(hit: HitRecord<Material>, ray: Ray, sample: Sample, sqrt: real -> real)
    requires SqrtLaw(sqrt)
    requires WellFormed(hit.material)
    requires Len(ray.direction, sqrt) != 0.0
    requires LenSquared(hit.normal) == 1.0
    requires Dot(ray.direction, hit.normal) <= 0.0
    ensures var r := Scatter(hit, ray, sample, sqrt);
      r.Some? ==> 0.0 < LenSquared(r.value.ray.direction)
  {
    match hit.material
    case Lambertian(_) =>
      LambertianDirectionNonzero(hit.normal, sample.unitVec);
    case Metal(albedo, fuzz) =>
      var r := ScatterMetal(albedo, fuzz, hit, ray, sample, sqrt);
      if r.Some? {
        PositiveDotIsNonzero(r.value.ray.direction, hit.normal);
      }
    case Dielectric(refraction) =>
      DielectricDirectionSide(refraction, hit, ray, sample.uniform, sqrt);
  }
}
