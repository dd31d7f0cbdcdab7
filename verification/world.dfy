/** The scene: a list of spheres, the scan that finds the nearest hit along a
    ray, and the path integrator that follows a ray through its bounces. */
module Worlds {
  import opened Numerics
  import opened Vectors
  import opened Options
  import opened Rays
  import opened Hits
  import opened Spheres
  import opened Colors
  import opened Materials

  /** The scene's primitives: the only `Hit` implementation is the sphere. */
  type Primitive = Sphere<Material>

  type Record = HitRecord<Material>

  /** A sphere the scene may hold: its radius is not zero and its material
      divides only by nonzero values. */
  predicate WellFormedSphere(s: Primitive) {
    s.radius != 0.0 && WellFormed(s.material)
  }

  predicate WellFormedWorld(world: seq<Primitive>) {
    forall i :: 0 <= i < |world| ==> WellFormedSphere(world[i])
  }

  /** What the intersection tests alone need: no sphere has radius zero. */
  predicate NonzeroRadii(world: seq<Primitive>) {
    forall i :: 0 <= i < |world| ==> world[i].radius != 0.0
  }

  /** What the integrator needs to trace a ray: exact square roots, a
      well-formed scene and a direction that is not the zero vector. */
  ghost predicate Traceable(world: seq<Primitive>, ray: Ray, sqrt: real -> real) {
    SqrtLaw(sqrt) && WellFormedWorld(world) && 0.0 < LenSquared(ray.direction)
  }

  // ----- The nearest hit -----

  /** Keeps the best hit so far unless the new one is strictly nearer. */
  function Closer(best: Option<Record>, h: Option<Record>): (r: Option<Record>)
    ensures r == best || r == h
    ensures r.None? <==> best.None? && h.None?
  {
    if h.Some? && (best.None? || h.value.t < best.value.t) then h else best
  }

  /** The reference definition of the nearest hit: every primitive is tested
      against the ORIGINAL range, and the results are folded from the first
      primitive to the last, a later hit replacing the current one only when
      it is strictly nearer. */
  function Nearest(world: seq<Primitive>, ray: Ray, interval: Interval, sqrt: real -> real): Option<Record>
    requires NonzeroRadii(world)
    requires LenSquared(ray.direction) != 0.0
    decreases |world|
  {
    if |world| == 0 then None
    else
      var n := |world| - 1;
      Closer(Nearest(world[..n], ray, interval, sqrt), TryHit(world[n], ray, interval, sqrt))
  }

  /** The scan finds nothing exactly when every primitive misses on the
      original range. */
  lemma {:induction false} NearestMissesAll(world: seq<Primitive>, ray: Ray, interval: Interval, sqrt: real -> real)
    requires NonzeroRadii(world)
    requires LenSquared(ray.direction) != 0.0
    ensures Nearest(world, ray, interval, sqrt).None?
        <==> forall i :: 0 <= i < |world| ==> TryHit(world[i], ray, interval, sqrt).None?
    decreases |world|
  {
    if |world| > 0 {
      var n := |world| - 1;
      var prefix := world[..n];
      NearestMissesAll(prefix, ray, interval, sqrt);
      assert forall i :: 0 <= i < n ==> prefix[i] == world[i];
    }
  }

  /** The hit found is no farther than any primitive's own hit on the
      original range. */
  lemma {:induction false} NearestIsMinimal(world: seq<Primitive>, ray: Ray, interval: Interval, sqrt: real -> real)
    requires NonzeroRadii(world)
    requires LenSquared(ray.direction) != 0.0
    ensures var r := Nearest(world, ray, interval, sqrt);
      r.Some? ==> forall i :: 0 <= i < |world| && TryHit(world[i], ray, interval, sqrt).Some?
                    ==> r.value.t <= TryHit(world[i], ray, interval, sqrt).value.t
    decreases |world|
  {
    if |world| > 0 {
      var n := |world| - 1;
      var prefix := world[..n];
      NearestIsMinimal(prefix, ray, interval, sqrt);
      NearestMissesAll(prefix, ray, interval, sqrt);
      assert forall i :: 0 <= i < n ==> prefix[i] == world[i];
    }
  }

  /** The hit found is the hit of some primitive on the original range, and
      every earlier primitive either misses or hits strictly farther: on an
      exact tie the earlier primitive wins. */
  lemma {:induction false} NearestIsEarliest(world: seq<Primitive>, ray: Ray, interval: Interval, sqrt: real -> real)
    requires NonzeroRadii(world)
    requires LenSquared(ray.direction) != 0.0
    ensures var r := Nearest(world, ray, interval, sqrt);
      r.Some? ==> exists i :: 0 <= i < |world| && TryHit(world[i], ray, interval, sqrt) == r
                    && forall j :: 0 <= j < i && TryHit(world[j], ray, interval, sqrt).Some?
                         ==> r.value.t < TryHit(world[j], ray, interval, sqrt).value.t
    decreases |world|
  {
    if |world| > 0 {
      var n := |world| - 1;
      var prefix := world[..n];
      var best := Nearest(prefix, ray, interval, sqrt);
      var h := TryHit(world[n], ray, interval, sqrt);
      var r := Nearest(world, ray, interval, sqrt);
      assert forall i :: 0 <= i < n ==> prefix[i] == world[i];
      if r.Some? {
        if r == best {
          NearestIsEarliest(prefix, ray, interval, sqrt);
          var i :| 0 <= i < n && TryHit(prefix[i], ray, interval, sqrt) == r
                   && forall j :: 0 <= j < i && TryHit(prefix[j], ray, interval, sqrt).Some?
                        ==> r.value.t < TryHit(prefix[j], ray, interval, sqrt).value.t;
          assert TryHit(world[i], ray, interval, sqrt) == r;
        } else {
          NearestIsMinimal(prefix, ray, interval, sqrt);
          NearestMissesAll(prefix, ray, interval, sqrt);
          assert TryHit(world[n], ray, interval, sqrt) == r;
        }
      }
    }
  }

  /** With exact square roots the nearest hit lies in the range, on the
      surface of a sphere of the scene, carries a unit normal that faces the
      ray, and a well-formed material. */
  lemma NearestHitFacts(world: seq<Primitive>, ray: Ray, interval: Interval, sqrt: real -> real)
    requires SqrtLaw(sqrt)
    requires WellFormedWorld(world)
    requires LenSquared(ray.direction) != 0.0
    ensures var r := Nearest(world, ray, interval, sqrt);
      r.Some? ==> && Contains(interval, r.value.t)
                  && r.value.p == At(ray, r.value.t)
                  && LenSquared(r.value.normal) == 1.0
                  && Dot(ray.direction, r.value.normal) <= 0.0
                  && WellFormed(r.value.material)
  {
    var r := Nearest(world, ray, interval, sqrt);
    if r.Some? {
      NearestIsEarliest(world, ray, interval, sqrt);
      var i :| 0 <= i < |world| && TryHit(world[i], ray, interval, sqrt) == r;
      TryHitOnSphere(world[i], ray, interval, sqrt);
      DotSymmetric(ray.direction, r.value.normal);
    }
  }

  // ----- The path integrator, as a specification -----

  /** How a path ends: absorbed by a metal, escaped to the sky (with the
      last ray), or out of bounces. */
  datatype Ending = Absorbed | Escaped(ray: Ray) | Exhausted

  /** The attenuations of the scatters along a path, in order, and how the
      path ends. */
  datatype Path = Path(attenuations: seq<Color>, ending: Ending)

  /** The range every bounce is tested against, `0.001..f64::INFINITY`. */
  const BounceRange: Interval := Interval(0.001, Infinity)

  /** The path of a ray with `bounces` scatters left; the scatter at bounce
      `k` consumes the draws `draws(k)`. Every scattered ray again has a
      nonzero direction, so the walk never divides by zero. */
  function Walk(world: seq<Primitive>, ray: Ray, bounces: nat, draws: nat -> Sample, k: nat,
                sqrt: real -> real): (p: Path)
    requires Traceable(world, ray, sqrt)
    ensures |p.attenuations| <= bounces
    ensures p.ending.Exhausted? <==> |p.attenuations| == bounces
    ensures p.ending.Escaped? ==> 0.0 < LenSquared(p.ending.ray.direction)
    decreases bounces
  {
    if bounces == 0 then Path([], Exhausted)
    else
      match Nearest(world, ray, BounceRange, sqrt)
      case None => Path([], Escaped(ray))
      case Some(hit) =>
        NearestHitFacts(world, ray, BounceRange, sqrt);
        LenPositive(ray.direction, sqrt);
        match Scatter(hit, ray, draws(k), sqrt)
        case None => Path([], Absorbed)
        case Some(s) =>
          ScatterKeepsDirection(hit, ray, draws(k), sqrt);
          var rest := Walk(world, s.ray, bounces - 1, draws, k + 1, sqrt);
          Path([s.attenuation] + rest.attenuations, rest.ending)
  }

  /** The colour the ray carries after the attenuations, in order, starting
      from white. */
  function Product(attenuations: seq<Color>): Color
    decreases |attenuations|
  {
    if |attenuations| == 0 then WHITE
    else
      var n := |attenuations| - 1;
      Mul(Product(attenuations[..n]), attenuations[n])
  }

  /** The colour a path delivers: the attenuated background if it escaped,
      black if it was absorbed or ran out of bounces. */
  function Radiance(p: Path, sqrt: real -> real): (c: Color)
    requires SqrtLaw(sqrt)
    requires p.ending.Escaped? ==> 0.0 < LenSquared(p.ending.ray.direction)
    ensures !p.ending.Escaped? ==> c == BLACK
  {
    match p.ending
    case Escaped(ray) =>
      LenPositive(ray.direction, sqrt);
      Mul(Product(p.attenuations), Background(ray, sqrt))
    case _ => BLACK
  }

  /** The path with `done` scattered attenuations in front. */
  function Prepend(done: seq<Color>, p: Path): (r: Path)
    ensures r.attenuations == done + p.attenuations && r.ending == p.ending
  {
    Path(done + p.attenuations, p.ending)
  }

  /** One bounce of the walk when the ray hits nothing: it escapes. */
  lemma WalkEscapes(world: seq<Primitive>, ray: Ray, bounces: nat, draws: nat -> Sample, k: nat,
                    sqrt: real -> real)
    requires Traceable(world, ray, sqrt)
    requires 0 < bounces
    requires Nearest(world, ray, BounceRange, sqrt).None?
    ensures Walk(world, ray, bounces, draws, k, sqrt) == Path([], Escaped(ray))
  {
  }

  /** One bounce of the walk when the hit material absorbs the ray. */
  lemma WalkAbsorbed(world: seq<Primitive>, ray: Ray, bounces: nat, draws: nat -> Sample, k: nat,
                     sqrt: real -> real, hit: Record)
    requires Traceable(world, ray, sqrt)
    requires 0 < bounces
    requires Nearest(world, ray, BounceRange, sqrt) == Some(hit)
    requires WellFormed(hit.material) && Len(ray.direction, sqrt) != 0.0
    requires Scatter(hit, ray, draws(k), sqrt).None?
    ensures Walk(world, ray, bounces, draws, k, sqrt) == Path([], Absorbed)
  {
  }

  /** One bounce of the walk when the hit material scatters the ray: the
      scattered ray is traceable and the rest of the walk starts from it. */
  lemma WalkScatters(world: seq<Primitive>, ray: Ray, bounces: nat, draws: nat -> Sample, k: nat,
                     sqrt: real -> real, hit: Record, s: Scattered)
    requires Traceable(world, ray, sqrt)
    requires 0 < bounces
    requires Nearest(world, ray, BounceRange, sqrt) == Some(hit)
    requires WellFormed(hit.material) && Len(ray.direction, sqrt) != 0.0
    requires Scatter(hit, ray, draws(k), sqrt) == Some(s)
    ensures Traceable(world, s.ray, sqrt)
    ensures Walk(world, ray, bounces, draws, k, sqrt)
         == Prepend([s.attenuation], Walk(world, s.ray, bounces - 1, draws, k + 1, sqrt))
  {
    NearestHitFacts(world, ray, BounceRange, sqrt);
    ScatterKeepsDirection(hit, ray, draws(k), sqrt);
  }

  /** Scattering once more extends the walk's prefix by one attenuation and
      the running colour by one factor. */
  lemma PrependStep(done: seq<Color>, a: Color, rest: Path)
    ensures Prepend(done, Prepend([a], rest)) == Prepend(done + [a], rest)
    ensures Product(done + [a]) == Mul(Product(done), a)
  {
    assert done + ([a] + rest.attenuations) == (done + [a]) + rest.attenuations;
    assert (done + [a])[..|done|] == done;
  }

  /** The loop of `find_ray_color` after one scattering bounce: the walk
      from the first ray is the attenuations so far, then this bounce's,
      then the walk from the scattered ray. */
  lemma ContinueWalk(world: seq<Primitive>, ray: Ray, bounces: nat, current: Ray, left: nat,
                     draws: nat -> Sample, k: nat, sqrt: real -> real, hit: Record, s: Scattered,
                     done: seq<Color>)
    requires Traceable(world, ray, sqrt) && Traceable(world, current, sqrt)
    requires 0 < left
    requires Walk(world, ray, bounces, draws, 0, sqrt) == Prepend(done, Walk(world, current, left, draws, k, sqrt))
    requires Nearest(world, current, BounceRange, sqrt) == Some(hit)
    requires WellFormed(hit.material) && Len(current.direction, sqrt) != 0.0
    requires Scatter(hit, current, draws(k), sqrt) == Some(s)
    ensures Traceable(world, s.ray, sqrt)
    ensures Walk(world, ray, bounces, draws, 0, sqrt)
         == Prepend(done + [s.attenuation], Walk(world, s.ray, left - 1, draws, k + 1, sqrt))
    ensures Product(done + [s.attenuation]) == Mul(Product(done), s.attenuation)
  {
    WalkScatters(world, current, left, draws, k, sqrt, hit, s);
    PrependStep(done, s.attenuation, Walk(world, s.ray, left - 1, draws, k + 1, sqrt));
  }

  /** In an empty scene every ray with a bounce left escapes at once, and
      its colour is the sky's. */
  lemma EmptyWorldShowsSky(ray: Ray, bounces: nat, draws: nat -> Sample, k: nat, sqrt: real -> real)
    requires Traceable([], ray, sqrt)
    requires 0 < bounces
    ensures Walk([], ray, bounces, draws, k, sqrt) == Path([], Escaped(ray))
    ensures Len(ray.direction, sqrt) != 0.0
         && Radiance(Walk([], ray, bounces, draws, k, sqrt), sqrt) == Background(ray, sqrt)
  {
    LenPositive(ray.direction, sqrt);
    assert Product([]) == WHITE;
    var b := Background(ray, sqrt);
    assert Mul(WHITE, b) == b;
  }

  /** Each component lies in `[0, 1]`. */
  predicate InUnitCube(c: Color) {
    0.0 <= c.x <= 1.0 && 0.0 <= c.y <= 1.0 && 0.0 <= c.z <= 1.0
  }

  /** Attenuations that never amplify give a product that never amplifies. */
  lemma {:induction false} ProductInUnitCube(attenuations: seq<Color>)
    requires forall i :: 0 <= i < |attenuations| ==> InUnitCube(attenuations[i])
    ensures InUnitCube(Product(attenuations))
    decreases |attenuations|
  {
    if |attenuations| > 0 {
      var n := |attenuations| - 1;
      var prefix := attenuations[..n];
      assert forall i :: 0 <= i < n ==> prefix[i] == attenuations[i];
      ProductInUnitCube(prefix);
      var p := Product(prefix);
      var a := attenuations[n];
      MulAtMostOne(p.x, a.x);
      MulAtMostOne(p.y, a.y);
      MulAtMostOne(p.z, a.z);
    }
  }

  /** When every attenuation along a path lies in `[0, 1]` (albedos of at
      most one), the path's colour lies in `[0, 1]` as well: the sky is at
      most white and scattering never adds light. */
  lemma RadianceInUnitCube(p: Path, sqrt: real -> real)
    requires SqrtLaw(sqrt)
    requires p.ending.Escaped? ==> 0.0 < LenSquared(p.ending.ray.direction)
    requires forall i :: 0 <= i < |p.attenuations| ==> InUnitCube(p.attenuations[i])
    ensures InUnitCube(Radiance(p, sqrt))
  {
    if p.ending.Escaped? {
      var ray := p.ending.ray;
      LenPositive(ray.direction, sqrt);
      BackgroundBetween(ray, sqrt);
      ProductInUnitCube(p.attenuations);
      var q := Product(p.attenuations);
      var b := Background(ray, sqrt);
      MulAtMostOne(q.x, b.x);
      MulAtMostOne(q.y, b.y);
      MulAtMostOne(q.z, b.z);
    }
  }

  // ----- The scene as a mutable list -----

  /** `HittableList`: the primitives in the order they were added. */
  class HittableList {
    var hittables: seq<Primitive>

    /** The derived `Default`: an empty scene. */
    constructor ()
      ensures hittables == []
    {
      hittables := [];
    }

    /** `add` appends one primitive at the end. */
    method Add(geometry: Primitive)
      modifies this
      ensures hittables == old(hittables) + [geometry]
    {
      hittables := hittables + [geometry];
    }

    /** `shoot_ray`: every primitive is tested in turn, and each hit cuts the
        end of the range down to its own `t`. The result always lies in the
        range; with exact square roots it is the nearest hit of the
        reference definition, so it misses exactly when every primitive
        misses, is no farther than any primitive's hit, and on a tie is the
        earliest primitive's. */
    method ShootRay(ray: Ray, interval: Interval, sqrt: real -> real) returns (r: Option<Record>)
      requires NonzeroRadii(hittables)
      requires LenSquared(ray.direction) != 0.0
      ensures r.Some? ==> Contains(interval, r.value.t)
      ensures SqrtLaw(sqrt) ==> r == Nearest(hittables, ray, interval, sqrt)
    {
      var current := interval;
      r := None;
      for i := 0 to |hittables|
        invariant current.start == interval.start
        invariant r.None? ==> current == interval
        invariant r.Some? ==> current.end == Finite(r.value.t) && Contains(interval, r.value.t)
        invariant SqrtLaw(sqrt) ==> r == Nearest(hittables[..i], ray, interval, sqrt)
      {
        ghost var before := r;
        var attempt := TryHit(hittables[i], ray, current, sqrt);
        if attempt.Some? {
          current := Interval(current.start, Finite(attempt.value.t));
          r := attempt;
        }
        if SqrtLaw(sqrt) {
          assert hittables[..i + 1][..i] == hittables[..i];
          if before.Some? {
            TryHitNarrowed(hittables[i], ray, interval.start, interval.end, before.value.t, sqrt);
          }
        }
      }
      assert hittables[..|hittables|] == hittables;
    }

    /** `find_ray_color`: the loop follows the ray from bounce to bounce,
        attenuating its colour, until it is absorbed, escapes, or runs out
        of bounces. It computes the radiance of the walk. */
    method FindRayColor(ray: Ray, bounces: nat, draws: nat -> Sample, sqrt: real -> real) returns (c: Color)
      requires Traceable(hittables, ray, sqrt)
      ensures c == Radiance(Walk(hittables, ray, bounces, draws, 0, sqrt), sqrt)
      ensures bounces == 0 ==> c == BLACK
    {
      var current := ray;
      var left := bounces;
      var rayColor := WHITE;
      ghost var done: seq<Color> := [];
      var k: nat := 0;
      while left > 0
        invariant Traceable(hittables, current, sqrt)
        invariant k + left == bounces
        invariant rayColor == Product(done)
        invariant Walk(hittables, ray, bounces, draws, 0, sqrt)
               == Prepend(done, Walk(hittables, current, left, draws, k, sqrt))
        decreases left
      {
        var hit := ShootRay(current, BounceRange, sqrt);
        LenPositive(current.direction, sqrt);
        match hit {
          case None =>
            WalkEscapes(hittables, current, left, draws, k, sqrt);
            assert done + [] == done;
            return Mul(rayColor, Background(current, sqrt));
          case Some(h) =>
            NearestHitFacts(hittables, current, BounceRange, sqrt);
            var scattered := Scatter(h, current, draws(k), sqrt);
            match scattered {
              case None =>
                WalkAbsorbed(hittables, current, left, draws, k, sqrt, h);
                return BLACK;
              case Some(s) =>
                ContinueWalk(hittables, ray, bounces, current, left, draws, k, sqrt, h, s, done);
                left := left - 1;
                current := s.ray;
                rayColor := Mul(rayColor, s.attenuation);
                done := done + [s.attenuation];
                k := k + 1;
            }
        }
      }
      return BLACK;
    }
  }
}
