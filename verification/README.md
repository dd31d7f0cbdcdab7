# Ray tracer in a weekend, modelled in Dafny

This project models the decision and control logic of a small Monte Carlo
ray tracer written in Rust (`raytracer-in-a-weekend`) and proves properties of it:

- the vector algebra and the random-vector samplers;
- rays;
- hit records, whose normal is turned to oppose the ray;
- ray–sphere intersection, which tries the nearer root first against a half-open range;
- the nearest-hit scan over a scene;
- the bounded bounce loop that computes a ray's colour;
- the three materials (Lambertian, metal, dielectric);
- conversion of a colour to gamma-corrected 8-bit RGB, and the sky gradient;
- the thin-lens camera.

How the model represents the source:

- **Numbers and foreign numerics.** `f64` is modelled by `real`. The square root, the tangent and the degrees-to-radians conversion are foreign numerics, passed in as function parameters (`sqrt: real -> real`, ...). A result that needs an exact square root takes `SqrtLaw(sqrt)`, the law `0 <= sqrt(x)` and `sqrt(x) * sqrt(x) == x` for `x >= 0`, as a hypothesis.
- **Random draws.** Every value of `fastrand::f64()` is an input. The rejection samplers consume a finite sequence of draws. The integrator reads the samples of bounce `k` from `draws(k)`.

Modules, one file each:

| file | module | source |
|---|---|---|
| numerics.dfy | `Numerics` | `f64::min`/`abs`/`clamp`, the square-root law, sign lemmas |
| vec3.dfy | `Vectors` | `src/vec3.rs` (operators, dot, cross, length, reflect, refract, near-zero) |
| sampling.dfy | `Sampling` | `src/vec3.rs` random generators |
| options.dfy | `Options` | `Option` |
| ray.dfy | `Rays` | `src/ray.rs` |
| hit.dfy | `Hits` | `Range<f64>`, `HitRecord::new` from `src/hit.rs` |
| sphere.dfy | `Spheres` | `src/sphere.rs` |
| color.dfy | `Colors` | `src/color.rs` |
| material.dfy | `Materials` | `src/material.rs`, `HitRecord::scatter` |
| world.dfy | `Worlds` | `HittableList` from `src/hit.rs` and the path integrator |
| camera.dfy | `Cameras` | `src/camera.rs` |

How the state is modelled:

- **`HittableList`** is a class. Its field `hittables` is reassigned by `Add`. `ShootRay` and `FindRayColor` are methods with loops, proved against two reference definitions:
  - `Nearest`, a fold over the primitives that tests each one against the original range;
  - `Walk`/`Radiance`, the path a ray takes and the colour it delivers.
- **The rejection samplers** `rand_in_unit_sphere` and `rand_in_unit_disk` are methods with loops over a finite sequence of draws, proved against the candidate each draw yields.
- **Everything else is functions on values.**
  - `Sphere::try_hit` reassigns a local root, and `Lambertian::scatter` reassigns a local direction; both are written as conditional expressions.
  - The `dyn Material` and `dyn Hit` objects become the closed datatypes `Material` and `Sphere<Material>`.

Where the code and its description disagree, the model follows the code:

- **Tie-break in the nearest-hit scan.** `Range::contains` is half-open, so a later primitive replaces the current hit only when it is strictly nearer. On an exact tie the EARLIER primitive wins (`Worlds.NearestIsEarliest`).
- **What `reflectance` receives.** `Dielectric::reflectance` is passed the refraction ratio, not the index. The normal-incidence reflectance is unchanged when the ratio is inverted (`Materials.R0Reciprocal`), so this changes nothing on either face.
- **`cos_theta` precedence.** `-x.dot(n).min(1.0)` parses as `-(min(x . n, 1))`, and `Vectors.RefractCos` models it so. For unit vectors it equals `min(-(x . n), 1)` (`Vectors.RefractCosOfUnit`).

## Model

| member | source | states |
|---|---|---|
| Numerics.Min | src/material.rs:45 | `f64::min`: the result is one of the operands and at most both |
| Numerics.Abs | src/vec3.rs:112 | `f64::abs`: never negative, and equal to `x` or `-x` |
| Numerics.Clamp | src/color.rs:15-17 | `f64::clamp`: the result lies in `[lo, hi]`, equals `x` inside it and the nearer end outside it |
| Vectors.NegIsInverse | src/vec3.rs:124-138 | `v + (-v)` is the zero vector and negation is an involution |
| Vectors.LenSquaredNeg | src/vec3.rs:124-138 | negation keeps the squared length |
| Vectors.DotAdd | src/vec3.rs:141-147 | the dot product distributes over `+` |
| Vectors.LenSquaredAdd | src/vec3.rs:141-147 | `|a + b|^2 == |a|^2 + 2 a . b + |b|^2` |
| Vectors.LenSquaredScale | src/vec3.rs:192-220 | `|s v|^2 == s^2 |v|^2` |
| Vectors.DotScale | src/vec3.rs:192-220 | a scalar factor moves out of either side of the dot product |
| Vectors.ScaleScale | src/vec3.rs:192-220 | scaling twice is scaling by the product |
| Vectors.Sub | src/vec3.rs:155-169 | subtraction is addition of the negation: componentwise difference, and adding `b` back gives `a` |
| Vectors.Div | src/vec3.rs:222-228 | division by `s` multiplies by `1 / s`; scaling the result by `s` gives the input back |
| Vectors.LenSquared | src/vec3.rs:92-94 | the squared length is `v . v` and never negative |
| Vectors.Len | src/vec3.rs:97-99 | with an exact square root the length is non-negative and squares to the squared length |
| Vectors.UnitVec | src/vec3.rs:101-103 | the normalised vector scaled by the length is the input |
| Vectors.RefractCos | src/vec3.rs:110 | the refraction cosine parses as `-(min(v . n, 1))`: it is `-(v . n)` when `v . n <= 1` and `-1` otherwise |
| Vectors.Refract | src/vec3.rs:109-115 | for unit `v`, `n` and exact square roots the refracted direction leaves through the far side (`r . n <= 0`), has squared length at least 1, is a unit vector whenever the perpendicular part is at most unit length (Snell's law has a solution), and obeys Snell's law in vector form: its part tangential to the surface, `r - (r . n) n`, is `eta` times the incoming `v - (v . n) n` |
| Vectors.DotSymmetric | src/vec3.rs:79-81 | `a . b == b . a` |
| Vectors.CrossOrthogonal | src/vec3.rs:83-89 | `a x b` is orthogonal to both `a` and `b` |
| Vectors.Lagrange | src/vec3.rs:79-94 | `|a|^2 |b|^2 - (a . b)^2 == |a x b|^2` |
| Vectors.CauchySchwarz | src/vec3.rs:79-94 | `(a . b)^2 <= |a|^2 |b|^2` |
| Vectors.ReflectIsSum | src/vec3.rs:105-107 | `reflect(v, n) == v - 2 (v . n) n` |
| Vectors.ReflectDot | src/vec3.rs:105-107 | for a unit normal, `reflect(v, n) . n == -(v . n)` |
| Vectors.ReflectLength | src/vec3.rs:105-107 | for a unit normal, reflection keeps the squared length |
| Vectors.LenPositive | src/vec3.rs:97-99 | with exact square roots a nonzero vector has a positive length |
| Vectors.UnitVecIsUnit | src/vec3.rs:101-103 | with exact square roots `unit_vec` has squared length 1 |
| Vectors.NotNearZeroIsLong | src/vec3.rs:117-120 | a vector with no axis below `1e-8` has squared length at least `3e-16` |
| Vectors.NearZeroIsAxisWise | src/vec3.rs:117-120 | the near-zero test is per axis: a long vector with a zero axis passes, and a vector shorter than `2e-8` with all axes at `1e-8` fails |
| Vectors.RefractCosOfUnit | src/vec3.rs:110 | on unit vectors the parsed cosine equals `-(v . n)` and `min(-(v . n), 1)` |
| Vectors.RefractPerpOrthogonal | src/vec3.rs:111 | on unit vectors the perpendicular part is orthogonal to the normal |
| Vectors.RefractSplit | src/vec3.rs:109-115 | on unit vectors the perpendicular part is orthogonal to `n`, and the sum with the parallel part leaves through the far side, with squared length at least 1, exactly 1 when the perpendicular part is at most unit length, and tangential part `eta` times the incoming one |
| Vectors.RefractTangential | src/vec3.rs:110-114 | whatever the length of the parallel part, the perpendicular part plus `-s n` has tangential part `r - (r . n) n` equal to `eta (v - (v . n) n)` for unit `v` and `n` |
| Vectors.PerpLength | src/vec3.rs:110-111 | for unit `v` and `n`, `1 - cos^2` is not negative and the perpendicular part has squared length `eta^2 (1 - cos^2)` |
| Vectors.SnellCondition | src/vec3.rs:110-112 | for unit vectors, a positive ratio and exact square roots, `eta * sqrt(1 - cos^2) > 1` exactly when the perpendicular part is longer than a unit vector |
| Vectors.PerpendicularSum | src/vec3.rs:112-114 | adding `-s n` with `s^2 == |1 - |perp|^2|` to a vector perpendicular to the unit `n` gives `. n <= 0` and squared length `|perp|^2 + s^2`, at least 1 |
| Vectors.PlaneLength | src/camera.rs:53 | `|a u + b v|^2 == a^2 + b^2` for orthonormal `u`, `v` |
| Vectors.PlanePerpendicular | src/camera.rs:53 | `a u + b v` is perpendicular to any `w` both `u` and `v` are |
| Rays.At | src/ray.rs:14-16 | `at(t) - origin == t * direction` |
| Rays.AtZero | src/ray.rs:14-16 | `at(0) == origin` |
| Rays.AtAffine | src/ray.rs:14-16 | `at(s) - at(t) == (s - t) * direction` |
| Sampling.Stretch | src/vec3.rs:34-37 | a draw in `[0, 1)` stretched over a positive length `len` lands in `[start, start + len)` |
| Sampling.RandRange | src/vec3.rs:33-40 | with `start < end` and draws in `[0, 1)` every component lies in `[start, end)` |
| Sampling.SphereCandidate | src/vec3.rs:45 | with three draws in `[0, 1)` every component of the candidate lies in `[-1, 1)` |
| Sampling.RandInUnitSphere | src/vec3.rs:43-50 | the result, if any, is strictly inside the unit ball and is the first candidate that is; `None` exactly when every candidate is rejected |
| Sampling.DiskCandidate | src/vec3.rs:55-59 | with two draws in `[0, 1)` the candidate's `x` and `y` lie in `[-1, 1)`, and `z == 0` |
| Sampling.RandInUnitDisk | src/vec3.rs:53-64 | the result, if any, is strictly inside the unit disk with `z == 0` and is the first accepted candidate; `None` exactly when all are rejected |
| Sampling.RandUnitVec | src/vec3.rs:66-68 | the unit vector scaled by the sample's length is the sample |
| Sampling.RandUnitVecIsUnit | src/vec3.rs:66-68 | with exact square roots the result has squared length 1 |
| Sampling.RandInHemisphere | src/vec3.rs:70-77 | the sample or its negation, with a non-negative dot product with the normal and the sample's length |
| Hits.ContainsIsHalfOpen | src/sphere.rs:41-43 | `Range::contains` is half-open: it holds the start of a non-empty range, never the end, nothing when empty, and everything from the start on when unbounded |
| Hits.NewHitRecord | src/hit.rs:25-33 | `front_face` iff `dir . outward < 0`; the normal is `outward` on the front face and its negation otherwise, so `normal . dir <= 0`; `t`, `p` and the material are stored unchanged |
| Spheres.RecordAt | src/sphere.rs:48-56 | the record's `p` is `ray.at(t)` and it carries the sphere's material; the outward normal is `(p - center) / radius`, the face is the front one iff the ray travels against it, and the stored normal is the outward one on the front face and its negation otherwise, so it opposes the ray |
| Spheres.TryHit | src/sphere.rs:26-59 | any hit lies in the half-open range, at `ray.at(t)`, with the sphere's material, the front face decided against the outward normal `(p - center) / radius` and the normal turned to oppose the ray; a negative discriminant gives `None` |
| Spheres.TryHitPrefersNearRoot | src/sphere.rs:40-46 | the nearer root wins when it is in the range, the farther root only when the nearer is not, and `None` when neither is |
| Spheres.RootOfQuadratic | src/sphere.rs:32-42 | both roots solve `a t^2 + 2 half_b t + c == 0` for an exact square root of the discriminant |
| Spheres.DistanceAt | src/sphere.rs:27-30 | `|at(t) - center|^2` expands to `a t^2 + 2 half_b t + c + radius^2` |
| Spheres.RootOnSphere | src/sphere.rs:27-42 | with exact square roots either root is a point on the sphere |
| Spheres.DivByRadiusIsUnit | src/sphere.rs:49 | dividing a vector of length `radius` by the radius gives a unit vector |
| Spheres.TryHitOnSphere | src/sphere.rs:26-59 | with exact square roots every hit lies on the sphere and carries a unit normal |
| Spheres.NearBeforeFar | src/sphere.rs:40-42 | with exact square roots the nearer root is at most the farther |
| Spheres.TryHitNarrowed | src/sphere.rs:41-46 | testing against the range cut short at `e` hits exactly when the full range hits before `e`, with the same record |
| Colors.AsU8 | src/color.rs:15-17 | Rust's saturating `as u8`: truncation on `[0, 256)`, 0 below, 255 above |
| Colors.Gamma | src/color.rs:15-17 | the gamma value is clamped to `[0, 0.999]` |
| Colors.GammaIsSquareRoot | src/color.rs:13-17 | gamma 2 under exact square roots, for a positive sample count and a non-negative component: below the clamp the value squares back to `x / samples`, and from `0.999^2` up it is the clamp bound `0.999` |
| Colors.Channel | src/color.rs:15-17 | a channel is the truncation of `256 * gamma` |
| Colors.ToRgb | src/color.rs:14-20 | each channel comes from its own component |
| Colors.ChannelNeverSaturates | src/color.rs:15-17 | `256 * gamma` is in `[0, 256)`, so every channel is in `[0, 255]` and the cast never saturates |
| Colors.ChannelEnds | src/color.rs:15-17 | a zero component gives channel 0; a component equal to the sample count gives 255 |
| Colors.ChannelMonotone | src/color.rs:15-17 | a brighter component never gives a darker channel |
| Colors.ChannelsIndependent | src/color.rs:15-19 | `r` depends only on `x`, `g` only on `y`, `b` only on `z` |
| Colors.SkyGradient | src/color.rs:27-29 | the blend keeps `z == 1` |
| Colors.SkyGradientEnds | src/color.rs:25-30 | height 1 gives LIGHT_BLUE, height -1 gives WHITE |
| Colors.SkyGradientBetween | src/color.rs:6-8 | for heights in `[-1, 1]` every component lies between LIGHT_BLUE's and WHITE's |
| Colors.UnitHeightBound | src/color.rs:26-27 | with exact square roots the height of a normalised direction lies in `[-1, 1]` |
| Colors.BackgroundVertical | src/color.rs:25-30 | with exact square roots a ray pointing straight up shows LIGHT_BLUE and one pointing straight down shows WHITE |
| Colors.AttenuateByWhite | src/vec3.rs:171-181 | the componentwise product: WHITE is its unit, BLACK absorbs, and it commutes |
| Colors.BackgroundBetween | src/color.rs:25-30 | with exact square roots every background lies between LIGHT_BLUE and WHITE, with `z == 1` |
| Materials.NewMetal | src/material.rs:44-47 | the stored fuzz is `min(fuzz, 1)`: at most 1, unchanged when at most 1 |
| Materials.LambertianDirection | src/material.rs:24-29 | the direction is `normal + sample`, replaced by the bare normal exactly when that sum is near zero |
| Materials.ScatterLambertian | src/material.rs:23-35 | never absorbs; the attenuation is the albedo and the ray leaves the hit point |
| Materials.LambertianDirectionNonzero | src/material.rs:24-29 | against a unit normal the diffuse direction is never the zero vector |
| Materials.ScatterMetal | src/material.rs:51-60 | absorbs exactly when the fuzzed reflection's dot with the normal is not positive; otherwise the albedo, the hit point and that direction |
| Materials.PositiveDotIsNonzero | src/material.rs:56 | a direction with a positive dot product with the normal is not the zero vector |
| Materials.UnitVecDotSign | src/material.rs:52 | normalising keeps the sign of the dot product with the normal |
| Materials.MetalWithinFuzz | src/material.rs:52-53 | with an in-sphere sample the fuzzed direction lies within `fuzz` of the mirror reflection of the normalised direction, and equals it when `fuzz == 0` |
| Materials.MirrorNeverAbsorbs | src/material.rs:51-60 | a perfect mirror struck from the front never absorbs |
| Materials.RefractionRatio | src/material.rs:84-87 | `1 / refraction` on the front face, `refraction` otherwise |
| Materials.R0 | src/material.rs:74-75 | the normal-incidence reflectance is never negative |
| Materials.Pow5Bound | src/material.rs:77 | `x^5` stays in `[0, 1]` on `[0, 1]` |
| Materials.ReflectanceEnds | src/material.rs:73-78 | `reflectance(1, r) == r0` and `reflectance(0, r) == 1` |
| Materials.R0Reciprocal | src/material.rs:96 | `r0(1 / r) == r0(r)`, so passing the ratio gives the same reflectance on both faces |
| Materials.R0BelowOne | src/material.rs:74-75 | for a positive ratio `r0 < 1` |
| Materials.ReflectanceIsProbability | src/material.rs:73-78 | for a cosine in `[0, 1]` and a positive ratio the reflectance is in `[0, 1]` |
| Materials.DielectricDirection | src/material.rs:84-101 | the direction is the reflection or the refraction of the normalised direction, with the ratio chosen by the face |
| Materials.ScatterDielectric | src/material.rs:82-104 | never absorbs; white attenuation; the ray leaves the hit point in the reflected-or-refracted direction |
| Materials.DielectricChoice | src/material.rs:84-101 | the direction the dielectric returns, with `cos`, `sin` and the face's ratio computed as the source does: the reflection whenever `ratio * sin > 1`, whatever the draw; otherwise the reflection when the reflectance exceeds the draw and the refraction when the draw is at least the reflectance; a smaller draw keeps a reflection |
| Materials.DielectricRefractsToUnit | src/material.rs:91-101 | for a positive index, unit normal and exact square roots, `ratio * sin > 1` holds exactly when the refraction's perpendicular part is longer than a unit vector, so a refracted direction is always a unit vector |
| Materials.DielectricDirectionSide | src/material.rs:89-101 | with exact square roots a dielectric direction has squared length at least 1; a reflection leaves on the normal's side and a refraction crosses to the other |
| Materials.Scatter | src/hit.rs:40-42 | dispatch on the material: only a metal absorbs; the ray leaves the hit point with the albedo (white for a dielectric) |
| Materials.ScatterKeepsDirection | src/material.rs:23-104 | off a unit normal facing the ray, every scattered ray has a nonzero direction |
| Worlds.Closer | src/hit.rs:62-66 | keeps one of the two; nothing only when both are nothing |
| Worlds.NearestMissesAll | src/hit.rs:57-70 | the nearest hit is `None` iff every primitive misses on the original range |
| Worlds.NearestIsMinimal | src/hit.rs:57-70 | the nearest hit is no farther than any primitive's hit |
| Worlds.NearestIsEarliest | src/hit.rs:62-66 | the nearest hit is some primitive's hit, and every earlier primitive misses or hits strictly farther: the earlier primitive wins a tie |
| Worlds.NearestHitFacts | src/hit.rs:57-70 | with exact square roots the nearest hit is in range, at `ray.at(t)`, with a unit normal facing the ray and a well-formed material |
| Worlds.Walk | src/hit.rs:77-97 | a path has at most `bounces` scatters, ends exhausted iff it used all of them, and an escaping ray has a nonzero direction |
| Worlds.Radiance | src/hit.rs:90-98 | an absorbed or exhausted path is black |
| Worlds.WalkEscapes | src/hit.rs:94 | a ray that hits nothing escapes |
| Worlds.WalkAbsorbed | src/hit.rs:90 | a ray whose scatter is `None` is absorbed |
| Worlds.WalkScatters | src/hit.rs:83-88 | a scattered ray is traceable again and its path continues the walk with one bounce fewer |
| Worlds.ContinueWalk | src/hit.rs:83-88 | after one scattering bounce the walk from the first ray is the attenuations so far, this bounce's, then the walk from the scattered ray, and the running colour is multiplied by this bounce's attenuation |
| Worlds.PrependStep | src/hit.rs:85-87 | one more scatter extends the path prefix and multiplies the running colour by the attenuation |
| Worlds.EmptyWorldShowsSky | src/hit.rs:94 | in an empty scene a ray with a bounce left gets the sky colour |
| Worlds.ProductInUnitCube | src/hit.rs:87 | attenuations in `[0, 1]` multiply to a colour in `[0, 1]` |
| Worlds.RadianceInUnitCube | src/hit.rs:74-99 | with attenuations in `[0, 1]` a path's colour lies in `[0, 1]` |
| Worlds.HittableList.constructor | src/hit.rs:45-48 | the derived `Default` is the empty scene |
| Worlds.HittableList.Add | src/hit.rs:52-54 | appends exactly one primitive at the end |
| Worlds.HittableList.ShootRay | src/hit.rs:57-70 | any result lies in the original range; with exact square roots it equals the reference nearest hit |
| Worlds.HittableList.FindRayColor | src/hit.rs:74-99 | the loop returns the radiance of the walk (black if absorbed or exhausted, running colour times the sky if escaped); zero bounces give black |
| Cameras.NewCamera | src/camera.rs:18-49 | the origin is the eye; the lens radius is `aperture / 2`; `w` and `u` are the normalised `lookfrom - lookat` and `vup x w`; `v == w x u` is orthogonal to both |
| Cameras.ViewportCentred | src/camera.rs:37-39 | `lower_left + x_axis / 2 + y_axis / 2 + focus_dist w == origin` |
| Cameras.CameraAxes | src/camera.rs:27-39 | `x_axis == focus_dist * viewport_width * u` and `y_axis == focus_dist * viewport_height * v` |
| Cameras.ViewportFieldOfView | src/camera.rs:27-39 | `viewport_height == 2 tan(theta / 2)`; half of `y_axis` is `focus_dist tan(theta / 2) v` and half of `x_axis` is `focus_dist aspect_ratio tan(theta / 2) u`: the viewport subtends the vertical field of view |
| Cameras.FrameOrthonormal | src/camera.rs:32-34 | with exact square roots `u`, `v`, `w` are orthonormal and `u` is perpendicular to `vup` |
| Cameras.LensOffset | src/camera.rs:52-53 | the offset is `rd.x u + rd.y v` with `rd` the scaled lens sample |
| Cameras.GenRay | src/camera.rs:51-61 | the ray leaves from the lens point and `origin + direction` is `lower_left + s x_axis + t y_axis` for every lens sample; radius 0 leaves from the eye |
| Cameras.OffsetCancels | src/camera.rs:58-59 | moving the origin by the offset and the direction back by it reaches the same point |
| Cameras.ClosedLens | src/camera.rs:52-53 | a lens of radius 0 gives no offset |
| Cameras.GenRayIgnoresDiskHeight | src/camera.rs:52-53 | only the first two components of the lens sample matter |
| Cameras.LensOffsetInDisk | src/camera.rs:52-53 | for an orthonormal frame and a unit-disk sample the offset is within the lens radius and perpendicular to `w` |
| Cameras.RayOriginOnLens | src/camera.rs:52-58 | every primary ray leaves from a point of the lens disk around the eye |

## Left out

- `src/main.rs` is not part of this model: the random scene, the parallel row loop, the image buffer, saving and printing.
- IEEE-754 behaviour: rounding, NaN and infinity. Divisions are guarded by preconditions instead:
  - the direction must be nonzero where the source divides by its length;
  - the sphere radius must be nonzero;
  - the dielectric index must not be 0 or -1.
  `as u8` on NaN is not modelled.
- `sqrt`, `tan` and `to_radians` are parameters, not implementations. Results that need exact square roots carry `SqrtLaw(sqrt)` as a hypothesis. `powi(5)` is the product of five factors.
- `fastrand` is not modelled; its draws are inputs.
  - A rejection loop consumes a finite sequence of draws and returns `None` when the sequence runs out. The source loops until it accepts.
  - The materials receive the already-accepted samples of one bounce as a `Sample`.
- `Vec3::rand` is left out: it is three independent draws, and those draws are the inputs.
- Compound assignments (`+=`, `*=`, `/=`) on local values are modelled as reassignment.
- `Arc`, `Box<dyn Hit>`, `Send + Sync`: the scene holds only spheres, and materials form a closed datatype.
- Worlds.HittableList.ShootRay: it equals the reference nearest hit only under `SqrtLaw(sqrt)`. For any `sqrt` it promises only that the result lies in the range.
- Worlds.HittableList.FindRayColor: requires exact square roots and a well-formed scene (nonzero radii, dielectric index not 0 or -1). It also requires a nonzero initial direction, so that every bounce is free of division by zero.
- Cameras.NewCamera: the viewport edges are not in its own contract; `CameraAxes` and `ViewportFieldOfView` state them about its result.
- Colors.Gamma, Colors.Channel and Colors.ToRgb require `samples != 0`, because the source divides by the sample count. The source's only caller passes a positive constant sample count; a zero count (division by zero in `f64`) is not modelled.
- The nearest-hit scan (`Nearest`, `ShootRay`) requires only nonzero radii (`NonzeroRadii`); the integrator also requires well-formed materials.
- Statistical claims (convergence, variance) are outside the model.
