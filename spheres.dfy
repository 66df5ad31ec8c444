/** The moving sphere of MacRayTracing/sphere3.h and its ray intersection.

    `trace` substitutes the ray `origin + t * direction` into the sphere
    equation at the centre the sphere has at the ray's time, which gives the
    quadratic `a t^2 + 2 b t + c = 0`; it tries the smaller root, then the
    larger, against the open interval `(t_min, t_max)`, and fills the hit
    record only when one of them lies inside. */
module Spheres {
  import opened Vectors
  import opened Materials

  datatype Option<T> = None | Some(value: T)

  /** `sphere3(center, radius, mat, velocity)`; the velocity defaults to zero. */
  datatype Sphere = Sphere(center: Vec3, radius: real, mat: Material, velocity: Vec3 := Zero)

  /** `getCenter(time)`: the centre moves linearly with the velocity. */
  function GetCenter(s: Sphere, time: real): Vec3
  {
    Add(s.center, Scale(time, s.velocity))
  }

  /** The centre at time 0 is the constructed centre, and between two times
      it moves by the velocity times the elapsed time. */
  lemma CenterMotion(s: Sphere, t0: real, t1: real)
    ensures GetCenter(s, 0.0) == s.center
    ensures Sub(GetCenter(s, t1), GetCenter(s, t0)) == Scale(t1 - t0, s.velocity)
  {
  }

  /** A sphere built without a velocity stands still. */
  lemma StationaryByDefault(center: Vec3, radius: real, mat: Material, time: real)
    ensures Sphere(center, radius, mat).velocity == Zero
    ensures GetCenter(Sphere(center, radius, mat), time) == center
  {
  }

  // ---------------------------------------------------------------------
  // The quadratic.

  /** The coefficients `a`, `b`, `c` of `a t^2 + 2 b t + c`. */
  datatype Quadratic = Quadratic(a: real, b: real, c: real)

  /** The quadratic `trace` sets up for ray `r`, with `oc = origin - center(time)`. */
  function QuadraticOf(s: Sphere, r: Ray): Quadratic
  {
    var oc := Sub(r.origin, GetCenter(s, r.time));
    Quadratic(Dot(r.direction, r.direction), Dot(oc, r.direction), Dot(oc, oc) - s.radius * s.radius)
  }

  function Discriminant(q: Quadratic): real { q.b * q.b - q.a * q.c }

  function Value(q: Quadratic, t: real): real { q.a * t * t + 2.0 * q.b * t + q.c }

  /** `t` is a ray parameter at which the ray meets the sphere. */
  predicate IsRoot(q: Quadratic, t: real) { Value(q, t) == 0.0 }

  function LowerRoot(sqrt: real -> real, q: Quadratic): real
    requires q.a != 0.0
  {
    (-q.b - sqrt(Discriminant(q))) / q.a
  }

  function UpperRoot(sqrt: real -> real, q: Quadratic): real
    requires q.a != 0.0
  {
    (-q.b + sqrt(Discriminant(q))) / q.a
  }

  /** A ray that crosses the sphere has a non-zero direction, and a sphere
      that a ray crosses has a non-zero radius: with `a == 0` the direction is
      zero and the discriminant vanishes, and with radius 0 the discriminant
      is at most 0 by Cauchy-Schwarz. */
  lemma CrossingIsNonDegenerate(s: Sphere, r: Ray)
    requires Discriminant(QuadraticOf(s, r)) > 0.0
    ensures QuadraticOf(s, r).a > 0.0 && s.radius != 0.0
  {
    DotSelf(r.direction);
    ZeroDirectionIsNoCrossing(s, r);
    ZeroRadiusIsNoCrossing(s, r);
  }

  lemma ZeroDirectionIsNoCrossing(s: Sphere, r: Ray)
    ensures r.direction == Zero ==> Discriminant(QuadraticOf(s, r)) == 0.0
  {
  }

  lemma ZeroRadiusIsNoCrossing(s: Sphere, r: Ray)
    ensures s.radius == 0.0 ==> Discriminant(QuadraticOf(s, r)) <= 0.0
  {
    var oc := Sub(r.origin, GetCenter(s, r.time));
    CauchySchwarz(oc, r.direction);
  }

  /** The parameter `trace` reports: the smaller root if it lies strictly
      inside the interval, else the larger root if that does, and nothing when
      the discriminant is not positive. */
  function HitParameter(sqrt: real -> real, s: Sphere, r: Ray, tMin: real, tMax: real): (h: Option<real>)
    ensures h.Some? ==> tMin < h.value < tMax
    ensures h.Some? ==> Discriminant(QuadraticOf(s, r)) > 0.0 && QuadraticOf(s, r).a > 0.0 && s.radius != 0.0
  {
    var q := QuadraticOf(s, r);
    if Discriminant(q) > 0.0 then
      CrossingIsNonDegenerate(s, r);
      if tMin < LowerRoot(sqrt, q) < tMax then Some(LowerRoot(sqrt, q))
      else if tMin < UpperRoot(sqrt, q) < tMax then Some(UpperRoot(sqrt, q))
      else None
    else
      None
  }

  /** The record `trace` writes on a hit at `t`: `t`, the point on the ray,
      the outward normal `(position - center(time)) / radius` and the sphere's
      material; every other field keeps its previous value. */
  function Filled(s: Sphere, r: Ray, t: real, rec0: HitRecord): HitRecord
    requires s.radius != 0.0
  {
    var position := PointAt(r, t);
    rec0.(t := t, position := position, normal := Div(Sub(position, GetCenter(s, r.time)), s.radius), mat := s.mat)
  }

  // ---------------------------------------------------------------------
  // sphere3::trace

  /** `trace(r, t_min, t_max, rec)`. It reports a hit exactly when
      `HitParameter` does. A hit lies strictly inside the interval at the
      nearest parameter there where the ray meets the sphere, its position is
      on the sphere, its normal is a unit vector, and it carries the sphere's
      material. A miss leaves the record as it was, and a miss can only
      ignore a parameter inside the interval where the ray touches the sphere
      tangentially. */
  method Trace(sqrt: real -> real, s: Sphere, r: Ray, tMin: real, tMax: real, rec0: HitRecord)
    returns (hit: bool, rec: HitRecord)
    requires IsSqrt(sqrt)
    ensures hit <==> HitParameter(sqrt, s, r, tMin, tMax).Some?
    ensures hit ==> s.radius != 0.0 && rec == Filled(s, r, HitParameter(sqrt, s, r, tMin, tMax).value, rec0)
    ensures hit ==> tMin < rec.t < tMax && IsRoot(QuadraticOf(s, r), rec.t)
    ensures hit ==> forall t :: tMin < t < tMax && IsRoot(QuadraticOf(s, r), t) ==> rec.t <= t
    ensures hit ==> rec.position == PointAt(r, rec.t)
    ensures hit ==> Dot(Sub(rec.position, GetCenter(s, r.time)), Sub(rec.position, GetCenter(s, r.time)))
                    == s.radius * s.radius
    ensures hit ==> IsUnit(rec.normal) && rec.mat == s.mat && rec.texcoord == rec0.texcoord
    ensures !hit ==> rec == rec0
    ensures !hit ==> forall t :: tMin < t < tMax && IsRoot(QuadraticOf(s, r), t) ==>
                       Discriminant(QuadraticOf(s, r)) == 0.0
  {
    var centert := GetCenter(s, r.time);
    var oc := Sub(r.origin, centert);
    var a := Dot(r.direction, r.direction);
    var b := Dot(oc, r.direction);
    var c := Dot(oc, oc) - s.radius * s.radius;
    var discriminant := b * b - a * c;
    ghost var q := QuadraticOf(s, r);
    assert q == Quadratic(a, b, c) && discriminant == Discriminant(q);
    rec := rec0;

    if discriminant > 0.0 {
      CrossingIsNonDegenerate(s, r);
      var temp := (-b - sqrt(discriminant)) / a;
      if temp < tMax && temp > tMin {
        rec := rec.(t := temp);
        rec := rec.(position := PointAt(r, rec.t));
        rec := rec.(normal := Div(Sub(rec.position, centert), s.radius));
        rec := rec.(mat := s.mat);
        assert temp == LowerRoot(sqrt, q) && HitParameter(sqrt, s, r, tMin, tMax) == Some(temp);
        assert rec == Filled(s, r, temp, rec0);
        HitIsNearestRoot(sqrt, s, r, tMin, tMax);
        HitOnSphere(sqrt, s, r, tMin, tMax, rec0);
        return true, rec;
      }

      temp := (-b + sqrt(discriminant)) / a;
      if temp < tMax && temp > tMin {
        rec := rec.(t := temp);
        rec := rec.(position := PointAt(r, rec.t));
        rec := rec.(normal := Div(Sub(rec.position, centert), s.radius));
        rec := rec.(mat := s.mat);
        assert temp == UpperRoot(sqrt, q) && HitParameter(sqrt, s, r, tMin, tMax) == Some(temp);
        assert rec == Filled(s, r, temp, rec0);
        HitIsNearestRoot(sqrt, s, r, tMin, tMax);
        HitOnSphere(sqrt, s, r, tMin, tMax, rec0);
        return true, rec;
      }
    }

    assert HitParameter(sqrt, s, r, tMin, tMax) == None;
    MissIsTangentAtMost(sqrt, s, r, tMin, tMax);
    return false, rec;
  }

  // ---------------------------------------------------------------------
  // What the reported parameter means.

  /** A discriminant that is not positive, a tangent ray included, is a miss. */
  lemma TangentMisses(sqrt: real -> real, s: Sphere, r: Ray, tMin: real, tMax: real)
    requires Discriminant(QuadraticOf(s, r)) <= 0.0
    ensures HitParameter(sqrt, s, r, tMin, tMax) == None
  {
  }

  /** The smaller root is tried first: when it lies in the interval it is
      reported even if the larger one does too, and the larger one is
      reported exactly when the smaller one lies outside and it inside. */
  lemma SmallerRootFirst(sqrt: real -> real, s: Sphere, r: Ray, tMin: real, tMax: real)
    requires Discriminant(QuadraticOf(s, r)) > 0.0
    ensures QuadraticOf(s, r).a != 0.0
    ensures var q := QuadraticOf(s, r);
            tMin < LowerRoot(sqrt, q) < tMax ==> HitParameter(sqrt, s, r, tMin, tMax) == Some(LowerRoot(sqrt, q))
    ensures var q := QuadraticOf(s, r);
            !(tMin < LowerRoot(sqrt, q) < tMax) && tMin < UpperRoot(sqrt, q) < tMax ==>
              HitParameter(sqrt, s, r, tMin, tMax) == Some(UpperRoot(sqrt, q))
    ensures var q := QuadraticOf(s, r);
            HitParameter(sqrt, s, r, tMin, tMax) == None <==>
              !(tMin < LowerRoot(sqrt, q) < tMax) && !(tMin < UpperRoot(sqrt, q) < tMax)
  {
    CrossingIsNonDegenerate(s, r);
  }

  /** The two roots are exactly the parameters at which the ray meets the
      sphere, and the one `trace` tries first is the smaller. */
  lemma RootsOfCrossing(sqrt: real -> real, s: Sphere, r: Ray)
    requires IsSqrt(sqrt) && Discriminant(QuadraticOf(s, r)) > 0.0
    ensures QuadraticOf(s, r).a > 0.0
    ensures var q := QuadraticOf(s, r);
            && LowerRoot(sqrt, q) < UpperRoot(sqrt, q)
            && IsRoot(q, LowerRoot(sqrt, q)) && IsRoot(q, UpperRoot(sqrt, q))
            && forall t :: IsRoot(q, t) ==> t == LowerRoot(sqrt, q) || t == UpperRoot(sqrt, q)
  {
    CrossingIsNonDegenerate(s, r);
    var q := QuadraticOf(s, r);
    var sd := sqrt(Discriminant(q));
    SqrtPositive(sqrt, Discriminant(q));
    QuadraticSolutions(q, sd);
  }

  /** A quadratic with `a > 0` and a positive discriminant, given any positive
      square root `sd` of that discriminant, vanishes exactly at
      `(-b - sd) / a` and `(-b + sd) / a`, the first being the smaller. */
  lemma QuadraticSolutions(q: Quadratic, sd: real)
    requires 0.0 < q.a && 0.0 < sd && sd * sd == Discriminant(q)
    ensures (-q.b - sd) / q.a < (-q.b + sd) / q.a
    ensures forall t :: IsRoot(q, t) <==> t == (-q.b - sd) / q.a || t == (-q.b + sd) / q.a
  {
    RootsOrdered(q.a, q.b, sd);
    forall t
      ensures IsRoot(q, t) <==> t == (-q.b - sd) / q.a || t == (-q.b + sd) / q.a
    {
      RootIsOneOfTwo(q.a, q.b, q.c, sd, t);
    }
  }

  /** A reported parameter is the nearest parameter in the interval at which
      the ray meets the sphere. */
  lemma HitIsNearestRoot(sqrt: real -> real, s: Sphere, r: Ray, tMin: real, tMax: real)
    requires IsSqrt(sqrt)
    ensures var h := HitParameter(sqrt, s, r, tMin, tMax);
            h.Some? ==>
              && IsRoot(QuadraticOf(s, r), h.value)
              && forall t :: tMin < t < tMax && IsRoot(QuadraticOf(s, r), t) ==> h.value <= t
  {
    var q := QuadraticOf(s, r);
    if Discriminant(q) > 0.0 {
      RootsOfCrossing(sqrt, s, r);
    }
  }

  /** A miss can only skip a parameter inside the interval where the ray
      is tangent to the sphere: wherever the ray meets a sphere the
      discriminant is non-negative, and a positive one is never skipped. */
  lemma MissIsTangentAtMost(sqrt: real -> real, s: Sphere, r: Ray, tMin: real, tMax: real)
    requires IsSqrt(sqrt)
    ensures HitParameter(sqrt, s, r, tMin, tMax) == None ==>
              forall t :: tMin < t < tMax && IsRoot(QuadraticOf(s, r), t) ==>
                Discriminant(QuadraticOf(s, r)) == 0.0
  {
    var q := QuadraticOf(s, r);
    if HitParameter(sqrt, s, r, tMin, tMax) == None {
      forall t | tMin < t < tMax && IsRoot(q, t)
        ensures Discriminant(q) == 0.0
      {
        RootNeedsDiscriminant(sqrt, s, r, t);
        if Discriminant(q) > 0.0 {
          RootsOfCrossing(sqrt, s, r);
        }
      }
    }
  }

  /** Wherever the ray meets the sphere the discriminant is non-negative. */
  lemma RootNeedsDiscriminant(sqrt: real -> real, s: Sphere, r: Ray, t: real)
    requires IsRoot(QuadraticOf(s, r), t)
    ensures Discriminant(QuadraticOf(s, r)) >= 0.0
  {
    var q := QuadraticOf(s, r);
    DotSelf(r.direction);
    ZeroDirectionIsNoCrossing(s, r);
    if q.a != 0.0 {
      CompletedSquare(q.a, q.b, q.c, t);
    }
  }

  /** The point at a reported parameter lies on the sphere at the ray's time,
      and the normal written there is a unit vector. */
  lemma HitOnSphere(sqrt: real -> real, s: Sphere, r: Ray, tMin: real, tMax: real, rec0: HitRecord)
    requires IsSqrt(sqrt)
    ensures var h := HitParameter(sqrt, s, r, tMin, tMax);
            h.Some? ==>
              var rec := Filled(s, r, h.value, rec0);
              var v := Sub(rec.position, GetCenter(s, r.time));
              && Dot(v, v) == s.radius * s.radius
              && IsUnit(rec.normal)
  {
    var h := HitParameter(sqrt, s, r, tMin, tMax);
    if h.Some? {
      HitIsNearestRoot(sqrt, s, r, tMin, tMax);
      var t := h.value;
      var rec := Filled(s, r, t, rec0);
      var v := Sub(rec.position, GetCenter(s, r.time));
      DistanceToCenter(s, r, t);
      NormalIsUnit(v, s.radius);
    }
  }

  /** `|origin + t * direction - center|^2` is the quadratic's value plus `radius^2`. */
  lemma DistanceToCenter(s: Sphere, r: Ray, t: real)
    ensures var v := Sub(PointAt(r, t), GetCenter(s, r.time));
            Dot(v, v) == Value(QuadraticOf(s, r), t) + s.radius * s.radius
  {
    var oc := Sub(r.origin, GetCenter(s, r.time));
    var d := r.direction;
    var v := Sub(PointAt(r, t), GetCenter(s, r.time));
    assert v == Add(oc, Scale(t, d));
    ExpandSquare(oc.x, d.x, t);
    ExpandSquare(oc.y, d.y, t);
    ExpandSquare(oc.z, d.z, t);
    assert Dot(v, v) == Dot(oc, oc) + 2.0 * t * Dot(oc, d) + t * t * Dot(d, d);
  }

  lemma ExpandSquare(o: real, d: real, t: real)
    ensures (o + t * d) * (o + t * d) == o * o + 2.0 * t * (o * d) + t * t * (d * d)
  {
  }

  /** A vector of length `|radius|`, divided by `radius`, is a unit vector. */
  lemma NormalIsUnit(v: Vec3, radius: real)
    requires radius != 0.0 && Dot(v, v) == radius * radius
    ensures IsUnit(Div(v, radius))
  {
    var k := 1.0 / radius;
    assert Div(v, radius) == Scale(k, v);
    DotScale(k, v);
    calc {
      k * k * Dot(v, v);
      k * k * (radius * radius);
      (k * radius) * (k * radius);
      1.0;
    }
  }

  /** A moving sphere meets a ray as the stationary sphere does that stands
      where the moving one is at the ray's time, whatever time the ray then
      carries. */
  lemma MotionEquivalence(sqrt: real -> real, s: Sphere, r: Ray, tMin: real, tMax: real, time: real, rec0: HitRecord)
    ensures var still := Sphere(GetCenter(s, r.time), s.radius, s.mat);
            var r2 := r.(time := time);
            && HitParameter(sqrt, s, r, tMin, tMax) == HitParameter(sqrt, still, r2, tMin, tMax)
            && (HitParameter(sqrt, s, r, tMin, tMax).Some? ==>
                  var t := HitParameter(sqrt, s, r, tMin, tMax).value;
                  Filled(s, r, t, rec0) == Filled(still, r2, t, rec0))
  {
    var still := Sphere(GetCenter(s, r.time), s.radius, s.mat);
    var r2 := r.(time := time);
    assert Scale(time, Zero) == Zero;
    assert GetCenter(still, r2.time) == GetCenter(s, r.time);
    assert QuadraticOf(still, r2) == QuadraticOf(s, r);
  }

  /** A sphere of radius 1 at the origin, hit head-on from `(0, 0, -5)` along
      `+z` with the interval `(0.001, 1000)`, is hit at `t = 4`. Every square
      root function maps 1 to 1, which is all the computation needs. */
  lemma HeadOnHit(sqrt: real -> real, mat: Material)
    requires sqrt(1.0) == 1.0
    ensures var s := Sphere(Zero, 1.0, mat);
            var r := Ray(Vec3(0.0, 0.0, -5.0), Vec3(0.0, 0.0, 1.0), 0.0);
            HitParameter(sqrt, s, r, 0.001, 1000.0) == Some(4.0)
  {
    var s := Sphere(Zero, 1.0, mat);
    var r := Ray(Vec3(0.0, 0.0, -5.0), Vec3(0.0, 0.0, 1.0), 0.0);
    var q := HeadOnQuadratic(mat);
    HeadOnLowerRoot(sqrt);
    SmallerRootFirst(sqrt, s, r, 0.001, 1000.0);
  }

  /** At `t = 4` that ray is at `(0, 0, -1)`, where the normal is `(0, 0, -1)`. */
  lemma HeadOnHitPoint(mat: Material)
    ensures var s := Sphere(Zero, 1.0, mat);
            var r := Ray(Vec3(0.0, 0.0, -5.0), Vec3(0.0, 0.0, 1.0), 0.0);
            var position := PointAt(r, 4.0);
            && position == Vec3(0.0, 0.0, -1.0)
            && Div(Sub(position, GetCenter(s, r.time)), s.radius) == Vec3(0.0, 0.0, -1.0)
  {
  }

  lemma HeadOnLowerRoot(sqrt: real -> real)
    requires sqrt(1.0) == 1.0
    ensures LowerRoot(sqrt, Quadratic(1.0, -5.0, 24.0)) == 4.0
  {
  }

  lemma HeadOnQuadratic(mat: Material) returns (q: Quadratic)
    ensures var s := Sphere(Zero, 1.0, mat);
            var r := Ray(Vec3(0.0, 0.0, -5.0), Vec3(0.0, 0.0, 1.0), 0.0);
            && q == QuadraticOf(s, r) == Quadratic(1.0, -5.0, 24.0)
            && Discriminant(q) == 1.0
  {
    var s := Sphere(Zero, 1.0, mat);
    var r := Ray(Vec3(0.0, 0.0, -5.0), Vec3(0.0, 0.0, 1.0), 0.0);
    q := QuadraticOf(s, r);
  }

  /** The same sphere is missed by the ray from `(0, 0, -5)` along `+y`. */
  lemma ParallelRayMisses(sqrt: real -> real, mat: Material)
    ensures var s := Sphere(Zero, 1.0, mat);
            var r := Ray(Vec3(0.0, 0.0, -5.0), Vec3(0.0, 1.0, 0.0), 0.0);
            HitParameter(sqrt, s, r, 0.001, 1000.0) == None
  {
    var s := Sphere(Zero, 1.0, mat);
    var r := Ray(Vec3(0.0, 0.0, -5.0), Vec3(0.0, 1.0, 0.0), 0.0);
    assert QuadraticOf(s, r) == Quadratic(1.0, 0.0, 24.0);
  }

  // ---------------------------------------------------------------------
  // Algebra of the quadratic, over plain reals.

  /** The quadratic vanishes exactly at its two roots. */
  lemma RootIsOneOfTwo(a: real, b: real, c: real, sd: real, t: real)
    requires a != 0.0 && sd * sd == b * b - a * c
    ensures a * t * t + 2.0 * b * t + c == 0.0 <==> t == (-b - sd) / a || t == (-b + sd) / a
  {
    Factorisation(a, b, c, sd, t);
    ZeroProduct(a, t - (-b - sd) / a, t - (-b + sd) / a);
  }

  /** `a t^2 + 2 b t + c == a (t - t1) (t - t2)` for the roots `t1`, `t2`. */
  lemma Factorisation(a: real, b: real, c: real, sd: real, t: real)
    requires a != 0.0 && sd * sd == b * b - a * c
    ensures a * t * t + 2.0 * b * t + c == a * ((t - (-b - sd) / a) * (t - (-b + sd) / a))
  {
    var t1 := (-b - sd) / a;
    var t2 := (-b + sd) / a;
    var p := a * t1;
    var q := a * t2;
    assert p == -b - sd;
    assert q == -b + sd;
    var x := a * ((t - t1) * (t - t2));
    var y := a * t * t + 2.0 * b * t + c;
    calc {
      a * x;
      (a * t - p) * (a * t - q);
      (a * t + b + sd) * (a * t + b - sd);
      (a * t + b) * (a * t + b) - sd * sd;
      a * y;
    }
    Cancel(a, x, y);
  }

  /** The quadratic times `a` is a completed square minus the discriminant,
      so where it vanishes the discriminant is a square. */
  lemma CompletedSquare(a: real, b: real, c: real, t: real)
    requires a != 0.0 && a * t * t + 2.0 * b * t + c == 0.0
    ensures b * b - a * c >= 0.0
  {
    Square(a * t + b);
    calc {
      b * b - a * c;
      (a * t + b) * (a * t + b) - a * (a * t * t + 2.0 * b * t + c);
      (a * t + b) * (a * t + b);
    >=
      0.0;
    }
  }

  lemma RootsOrdered(a: real, b: real, sd: real)
    requires 0.0 < a && 0.0 < sd
    ensures (-b - sd) / a < (-b + sd) / a
  {
  }

  lemma ZeroProduct(a: real, x: real, y: real)
    requires a != 0.0
    ensures a * (x * y) == 0.0 <==> x == 0.0 || y == 0.0
  {
    if x != 0.0 && y != 0.0 {
      NonZeroProduct(x, y);
      NonZeroProduct(a, x * y);
    }
  }

  lemma NonZeroProduct(x: real, y: real)
    requires x != 0.0 && y != 0.0
    ensures x * y != 0.0
  {
    if 0.0 < x && 0.0 < y {
      ProductPositive(x, y);
    } else if 0.0 < x {
      ProductPositive(x, -y);
    } else if 0.0 < y {
      ProductPositive(-x, y);
    } else {
      ProductPositive(-x, -y);
    }
  }
}
