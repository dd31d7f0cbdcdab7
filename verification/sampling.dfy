/** The random vector generators. Every uniform draw of `fastrand::f64()`
    is an input; a rejection loop consumes a finite stream of draws and
    reports `None` when the stream ends before a candidate is accepted. */
module Sampling {
  import opened Numerics
  import opened Vectors
  import opened Options

  /** A value `fastrand::f64()` can return. */
  predicate IsDraw(u: real) {
    0.0 <= u < 1.0
  }

  predicate IsDrawVec(d: Vec3) {
    IsDraw(d.x) && IsDraw(d.y) && IsDraw(d.z)
  }

  /** Does every component of `v` lie in the half-open range `[start, end)`? */
  predicate InBox(v: Vec3, start: real, end: real) {
    start <= v.x < end && start <= v.y < end && start <= v.z < end
  }

  /** One component of `rand_range`: `start + len * u`. For a draw `u` and a
      positive length it lies in `[start, start + len)`. */
  function Stretch(start: real, len: real, u: real): (r: real)
    ensures 0.0 < len && IsDraw(u) ==> start <= r < start + len
  {
    if 0.0 < len && IsDraw(u) then
      MulBelow(len, u);
      start + len * u
    else
      start + len * u
  }

  /** `Vec3::rand_range` on three draws: each component is stretched into
      the range independently. */
  function RandRange(start: real, end: real, d: Vec3): (r: Vec3)
    ensures start < end && IsDrawVec(d) ==> InBox(r, start, end)
  {
    var len := end - start;
    Vec3(Stretch(start, len, d.x), Stretch(start, len, d.y), Stretch(start, len, d.z))
  }

  /** The candidate `rand_in_unit_sphere` tests for one triple of draws. */
  function SphereCandidate(d: Vec3): (r: Vec3)
    ensures IsDrawVec(d) ==> InBox(r, -1.0, 1.0)
  {
    RandRange(-1.0, 1.0, d)
  }

  /** Every triple in `ds` yields a candidate outside the open unit ball. */
  predicate AllOutsideSphere(ds: seq<Vec3>) {
    forall j :: 0 <= j < |ds| ==> 1.0 <= LenSquared(SphereCandidate(ds[j]))
  }

  /** `Vec3::rand_in_unit_sphere`: the first candidate strictly inside the
      unit ball, after every earlier candidate was rejected. */
  method RandInUnitSphere(draws: seq<Vec3>) returns (r: Option<Vec3>)
    ensures r.Some? ==> LenSquared(r.value) < 1.0
    ensures r.Some? ==> exists i :: 0 <= i < |draws| && r.value == SphereCandidate(draws[i])
                                    && AllOutsideSphere(draws[..i])
    ensures r.None? <==> AllOutsideSphere(draws)
  {
    var i := 0;
    while i < |draws|
      invariant 0 <= i <= |draws|
      invariant AllOutsideSphere(draws[..i])
    {
      var v := SphereCandidate(draws[i]);
      if LenSquared(v) < 1.0 {
        return Some(v);
      }
      assert draws[..i + 1] == draws[..i] + [draws[i]];
      i := i + 1;
    }
    assert draws[..i] == draws;
    return None;
  }

  /** The candidate `rand_in_unit_disk` tests for one pair of draws. */
  function DiskCandidate(u: real, v: real): (r: Vec3)
    ensures IsDraw(u) && IsDraw(v) ==> -1.0 <= r.x < 1.0 && -1.0 <= r.y < 1.0
    ensures r.z == 0.0
  {
    Vec3(-1.0 + 2.0 * u, -1.0 + 2.0 * v, 0.0)
  }

  predicate AllOutsideDisk(ds: seq<(real, real)>) {
    forall j :: 0 <= j < |ds| ==> 1.0 <= LenSquared(DiskCandidate(ds[j].0, ds[j].1))
  }

  /** `Vec3::rand_in_unit_disk`: the first candidate strictly inside the
      unit disk in the plane `z == 0`. */
  method RandInUnitDisk(draws: seq<(real, real)>) returns (r: Option<Vec3>)
    ensures r.Some? ==> LenSquared(r.value) < 1.0 && r.value.z == 0.0
    ensures r.Some? ==> exists i :: 0 <= i < |draws| && r.value == DiskCandidate(draws[i].0, draws[i].1)
                                    && AllOutsideDisk(draws[..i])
    ensures r.None? <==> AllOutsideDisk(draws)
  {
    var i := 0;
    while i < |draws|
      invariant 0 <= i <= |draws|
      invariant AllOutsideDisk(draws[..i])
    {
      var v := DiskCandidate(draws[i].0, draws[i].1);
      if LenSquared(v) < 1.0 {
        return Some(v);
      }
      assert draws[..i + 1] == draws[..i] + [draws[i]];
      i := i + 1;
    }
    assert draws[..i] == draws;
    return None;
  }

  /** `Vec3::rand_unit_vec`: a unit-ball sample normalised; with exact
      square roots the result has length one. */
  function RandUnitVec(sample: Vec3, sqrt: real -> real): (r: Vec3)
    requires Len(sample, sqrt) != 0.0
    ensures Scale(r, Len(sample, sqrt)) == sample
  {
    UnitVec(sample, sqrt)
  }

  lemma RandUnitVecIsUnit(sample: Vec3, sqrt: real -> real)
    requires SqrtLaw(sqrt)
    requires Len(sample, sqrt) != 0.0
    ensures LenSquared(RandUnitVec(sample, sqrt)) == 1.0
  {
    UnitVecIsUnit(sample, sqrt);
  }

  /** `Vec3::rand_in_hemisphere`: the sample, or its negation when it does
      not point into the hemisphere around `normal`. */
  function RandInHemisphere(sample: Vec3, normal: Vec3): (r: Vec3)
    ensures r == sample || r == Neg(sample)
    ensures 0.0 <= Dot(r, normal)
    ensures LenSquared(r) == LenSquared(sample)
  {
    if Dot(sample, normal) > 0.0 then sample else Neg(sample)
  }
}
