/** The optics helpers that `transmissive`, `metal` and `dielectric` each
    declare as member functions in MacRayTracing/material.h: Schlick's
    reflectance approximation, mirror reflection and Snell's-law refraction.
    The copies in the three classes are identical, so each is modelled once. */
module Optics {
  import opened Vectors

  /** `pow(x, 5)`. */
  function Pow5(x: real): real { x * x * x * x * x }

  /** The reflectance at normal incidence, `((1 - ior) / (1 + ior))^2`. */
  function SchlickR0(ior: real): real
    requires ior != -1.0
  {
    ((1.0 - ior) / (1.0 + ior)) * ((1.0 - ior) / (1.0 + ior))
  }

  /** `schlick(cosine, ior)`. */
  function Schlick(cosine: real, ior: real): real
    requires ior != -1.0
  {
    var r0 := (1.0 - ior) / (1.0 + ior);
    var r0 := r0 * r0;
    r0 + (1.0 - r0) * Pow5(1.0 - cosine)
  }

  /** `reflect(v, n)`: `v - 2 * dot(v, n) * n`. */
  function Reflect(v: Vec3, n: Vec3): Vec3
  {
    Sub(v, Scale(2.0 * Dot(v, n), n))
  }

  /** The discriminant `1 - eta^2 * (1 - dt^2)` that `refract` tests, where
      `dt` is the cosine between the unit incoming direction and `n`. */
  function RefractionDiscriminant(sqrt: real -> real, v: Vec3, n: Vec3, niOverNt: real): real
    requires IsSqrt(sqrt) && v != Zero
  {
    var dt := Dot(Unit(sqrt, v), n);
    1.0 - niOverNt * niOverNt * (1.0 - dt * dt)
  }

  /** Refraction is possible exactly when the discriminant is positive; otherwise
      the ray is totally internally reflected. */
  predicate CanRefract(sqrt: real -> real, v: Vec3, n: Vec3, niOverNt: real)
    requires IsSqrt(sqrt) && v != Zero
  {
    RefractionDiscriminant(sqrt, v, n, niOverNt) > 0.0
  }

  /** The tangential part of `u` with respect to `n`, `u - dot(u, n) * n`. */
  function Tangential(u: Vec3, n: Vec3): Vec3 { Sub(u, Scale(Dot(u, n), n)) }

  /** Snell's law in vector form: `eta * (uv - n * dt) - n * sqrt(discriminant)`. */
  function Refracted(sqrt: real -> real, v: Vec3, n: Vec3, niOverNt: real): Vec3
    requires IsSqrt(sqrt) && v != Zero && CanRefract(sqrt, v, n, niOverNt)
  {
    var uv := Unit(sqrt, v);
    Sub(Scale(niOverNt, Tangential(uv, n)), Scale(sqrt(RefractionDiscriminant(sqrt, v, n, niOverNt)), n))
  }

  /** `refract(v, n, ni_over_nt, refracted)`: on success writes the refracted
      direction, which for a unit `n` is a unit vector obeying Snell's law and
      leaving through the far side of `n`; on failure `refracted` keeps its value. */
  method Refract(sqrt: real -> real, v: Vec3, n: Vec3, niOverNt: real, refracted0: Vec3)
    returns (ok: bool, refracted: Vec3)
    requires IsSqrt(sqrt) && v != Zero
    ensures ok <==> CanRefract(sqrt, v, n, niOverNt)
    ensures ok ==> refracted == Refracted(sqrt, v, n, niOverNt)
    ensures !ok ==> refracted == refracted0
    ensures ok && IsUnit(n) ==> IsUnit(refracted)
    ensures ok && IsUnit(n) ==> Tangential(refracted, n) == Scale(niOverNt, Tangential(Unit(sqrt, v), n))
    ensures ok && IsUnit(n) ==> Dot(refracted, n) < 0.0
  {
    var uv := Unit(sqrt, v);
    var dt := Dot(uv, n);
    var discriminant := 1.0 - niOverNt * niOverNt * (1.0 - dt * dt);
    assert discriminant == RefractionDiscriminant(sqrt, v, n, niOverNt);
    refracted := refracted0;
    if discriminant > 0.0 {
      refracted := Sub(Scale(niOverNt, Sub(uv, Scale(dt, n))), Scale(sqrt(discriminant), n));
      ok := true;
      if IsUnit(n) {
        RefractedIsUnit(sqrt, v, n, niOverNt);
        SnellsLaw(sqrt, v, n, niOverNt);
      }
    } else {
      ok := false;
    }
  }

  // ---------------------------------------------------------------------
  // Vector identities used below.

  lemma DotSubLeft(a: Vec3, b: Vec3, n: Vec3)
    ensures Dot(Sub(a, b), n) == Dot(a, n) - Dot(b, n)
  {
  }

  lemma DotScaleLeft(k: real, a: Vec3, n: Vec3)
    ensures Dot(Scale(k, a), n) == k * Dot(a, n)
  {
  }

  lemma DotSymmetric(a: Vec3, b: Vec3)
    ensures Dot(a, b) == Dot(b, a)
  {
  }

  /** `|a*t - b*n|^2` expanded. */
  lemma DotCombination(a: real, t: Vec3, b: real, n: Vec3)
    ensures Dot(Sub(Scale(a, t), Scale(b, n)), Sub(Scale(a, t), Scale(b, n)))
         == a * a * Dot(t, t) - 2.0 * a * b * Dot(t, n) + b * b * Dot(n, n)
  {
  }

  // ---------------------------------------------------------------------
  // Reflection.

  /** For a unit normal, reflection negates the normal component ... */
  lemma ReflectNegatesNormalComponent(v: Vec3, n: Vec3)
    requires IsUnit(n)
    ensures Dot(Reflect(v, n), n) == -Dot(v, n)
  {
    var d := Dot(v, n);
    DotSubLeft(v, Scale(2.0 * d, n), n);
    DotScaleLeft(2.0 * d, n, n);
  }

  /** ... keeps the tangential component ... */
  lemma ReflectKeepsTangential(v: Vec3, n: Vec3)
    requires IsUnit(n)
    ensures Tangential(Reflect(v, n), n) == Tangential(v, n)
  {
    ReflectNegatesNormalComponent(v, n);
  }

  /** ... preserves length ... */
  lemma ReflectPreservesLength(v: Vec3, n: Vec3)
    requires IsUnit(n)
    ensures Dot(Reflect(v, n), Reflect(v, n)) == Dot(v, v)
  {
    var d := Dot(v, n);
    DotCombination(1.0, v, 2.0 * d, n);
    assert Scale(1.0, v) == v;
    calc {
      Dot(Reflect(v, n), Reflect(v, n));
      1.0 * 1.0 * Dot(v, v) - 2.0 * 1.0 * (2.0 * d) * d + (2.0 * d) * (2.0 * d) * 1.0;
      Dot(v, v);
    }
  }

  /** ... and undoes itself. */
  lemma ReflectInvolution(v: Vec3, n: Vec3)
    requires IsUnit(n)
    ensures Reflect(Reflect(v, n), n) == v
  {
    ReflectNegatesNormalComponent(v, n);
  }

  // ---------------------------------------------------------------------
  // Refraction.

  lemma TangentialFacts(u: Vec3, n: Vec3)
    requires IsUnit(u) && IsUnit(n)
    ensures Dot(Tangential(u, n), n) == 0.0
    ensures Dot(Tangential(u, n), Tangential(u, n)) == 1.0 - Dot(u, n) * Dot(u, n)
  {
    var dt := Dot(u, n);
    DotSubLeft(u, Scale(dt, n), n);
    DotScaleLeft(dt, n, n);
    DotCombination(1.0, u, dt, n);
    assert Scale(1.0, u) == u;
    calc {
      Dot(Tangential(u, n), Tangential(u, n));
      1.0 * 1.0 * 1.0 - 2.0 * 1.0 * dt * dt + dt * dt * 1.0;
      1.0 - dt * dt;
    }
  }

  /** The refracted direction is a unit vector. */
  lemma RefractedIsUnit(sqrt: real -> real, v: Vec3, n: Vec3, niOverNt: real)
    requires IsSqrt(sqrt) && v != Zero && CanRefract(sqrt, v, n, niOverNt) && IsUnit(n)
    ensures IsUnit(Refracted(sqrt, v, n, niOverNt))
  {
    var uv := Unit(sqrt, v);
    var dt := Dot(uv, n);
    var t := Tangential(uv, n);
    var disc := RefractionDiscriminant(sqrt, v, n, niOverNt);
    var s := sqrt(disc);
    assert s * s == disc;
    TangentialFacts(uv, n);
    DotCombination(niOverNt, t, s, n);
    calc {
      Dot(Refracted(sqrt, v, n, niOverNt), Refracted(sqrt, v, n, niOverNt));
      niOverNt * niOverNt * (1.0 - dt * dt) - 2.0 * niOverNt * s * 0.0 + s * s * 1.0;
      niOverNt * niOverNt * (1.0 - dt * dt) + disc;
      1.0;
    }
  }

  /** Snell's law: the refracted direction's tangential part is `eta` times the
      incoming unit direction's, and it leaves on the far side of `n`. */
  lemma SnellsLaw(sqrt: real -> real, v: Vec3, n: Vec3, niOverNt: real)
    requires IsSqrt(sqrt) && v != Zero && CanRefract(sqrt, v, n, niOverNt) && IsUnit(n)
    ensures Dot(Refracted(sqrt, v, n, niOverNt), n) == -sqrt(RefractionDiscriminant(sqrt, v, n, niOverNt)) < 0.0
    ensures Tangential(Refracted(sqrt, v, n, niOverNt), n) == Scale(niOverNt, Tangential(Unit(sqrt, v), n))
  {
    var uv := Unit(sqrt, v);
    var t := Tangential(uv, n);
    var disc := RefractionDiscriminant(sqrt, v, n, niOverNt);
    var s := sqrt(disc);
    var r := Refracted(sqrt, v, n, niOverNt);
    TangentialFacts(uv, n);
    DotSubLeft(Scale(niOverNt, t), Scale(s, n), n);
    DotScaleLeft(niOverNt, t, n);
    DotScaleLeft(s, n, n);
    assert Dot(r, n) == -s;
    SqrtPositive(sqrt, disc);
  }

  /** Between media of equal index (`eta = 1`), a ray arriving against `n`
      passes straight through. */
  lemma MatchedIndexPassesStraight(sqrt: real -> real, v: Vec3, n: Vec3)
    requires IsSqrt(sqrt) && v != Zero && IsUnit(n) && Dot(v, n) < 0.0
    ensures CanRefract(sqrt, v, n, 1.0)
    ensures Refracted(sqrt, v, n, 1.0) == Unit(sqrt, v)
  {
    var uv := Unit(sqrt, v);
    var dt := Dot(uv, n);
    var l := Length(sqrt, v);
    DotUnit(sqrt, n, v);
    DotSymmetric(uv, n);
    DotSymmetric(v, n);
    NegativeQuotient(Dot(v, n), l);
    var disc := RefractionDiscriminant(sqrt, v, n, 1.0);
    assert disc == dt * dt;
    var m := -dt;
    assert m * m == dt * dt;
    ProductPositive(m, m);
    assert 0.0 < disc;
    SqrtOfSquare(sqrt, m, disc);
    StraightThrough(uv, n, dt);
  }

  lemma StraightThrough(u: Vec3, n: Vec3, k: real)
    ensures Sub(Scale(1.0, Sub(u, Scale(k, n))), Scale(-k, n)) == u
  {
  }

  lemma NegativeQuotient(x: real, l: real)
    requires x < 0.0 && 0.0 < l
    ensures x / l < 0.0
  {
    assert x / l * l == x;
  }

  // ---------------------------------------------------------------------
  // Schlick's approximation.

  lemma SchlickAtNormalIncidence(ior: real)
    requires ior != -1.0
    ensures Schlick(1.0, ior) == SchlickR0(ior)
  {
  }

  lemma R0Bounds(ior: real)
    requires 0.0 < ior
    ensures 0.0 <= SchlickR0(ior) < 1.0
  {
    var q := (1.0 - ior) / (1.0 + ior);
    assert -1.0 < q < 1.0;
    Square(q);
    if q >= 0.0 {
      assert q * q <= q * 1.0;
    } else {
      assert q * q <= (-q) * 1.0;
    }
  }

  lemma Pow5Monotone(a: real, b: real)
    requires a <= b
    ensures Pow5(a) <= Pow5(b)
  {
    if 0.0 <= a {
      Pow5MonotoneNonNegative(a, b);
    } else if b <= 0.0 {
      Pow5MonotoneNonNegative(-b, -a);
      Pow5Odd(a);
      Pow5Odd(b);
    } else {
      Pow5Sign(a);
      Pow5Sign(b);
    }
  }

  lemma Pow5MonotoneNonNegative(a: real, b: real)
    requires 0.0 <= a <= b
    ensures Pow5(a) <= Pow5(b)
  {
    MonotoneFactor(a, b, a, b);
    MonotoneFactor(a * a, b * b, a, b);
    MonotoneFactor(a * a * a, b * b * b, a, b);
    assert 0.0 <= a * a * a * a <= b * b * b * b;
    LastFactor(a * a * a * a, b * b * b * b, a, b);
  }

  lemma LastFactor(p: real, q: real, a: real, b: real)
    requires 0.0 <= p <= q && 0.0 <= a <= b
    ensures p * a <= q * b
  {
    MonotoneFactor(p, q, a, b);
  }

  lemma Pow5Odd(a: real)
    ensures Pow5(-a) == -Pow5(a)
  {
  }

  lemma MonotoneFactor(p: real, q: real, a: real, b: real)
    requires 0.0 <= p <= q && 0.0 <= a <= b
    ensures 0.0 <= p * a <= q * b
  {
    assert p * a <= q * a;
    assert q * a <= q * b;
  }

  lemma ScaleMonotone(k: real, x: real, y: real)
    requires 0.0 <= k && x <= y
    ensures k * x <= k * y
  {
    assert k * y - k * x == k * (y - x);
  }

  lemma Pow5Sign(a: real)
    ensures a < 0.0 ==> Pow5(a) < 0.0
    ensures 0.0 <= a ==> 0.0 <= Pow5(a)
  {
    if a < 0.0 {
      Pow5Positive(-a);
      Pow5Odd(a);
    } else {
      Pow5MonotoneNonNegative(0.0, a);
    }
  }

  lemma Pow5Positive(b: real)
    requires 0.0 < b
    ensures 0.0 < Pow5(b)
  {
    assert 0.0 < b * b;
    assert 0.0 < b * b * b;
    assert 0.0 < b * b * b * b;
    assert 0.0 < b * b * b * b * b;
  }

  lemma SchlickForm(cosine: real, ior: real)
    requires ior != -1.0
    ensures Schlick(cosine, ior) == SchlickR0(ior) + (1.0 - SchlickR0(ior)) * Pow5(1.0 - cosine)
  {
  }

  /** Grazing angles reflect more: for a positive index, Schlick's reflectance
      does not increase as the cosine increases. */
  lemma SchlickMonotone(c1: real, c2: real, ior: real)
    requires 0.0 < ior && c1 <= c2
    ensures Schlick(c2, ior) <= Schlick(c1, ior)
  {
    R0Bounds(ior);
    var r0 := SchlickR0(ior);
    var p1, p2 := Pow5(1.0 - c1), Pow5(1.0 - c2);
    Pow5Monotone(1.0 - c2, 1.0 - c1);
    ScaleMonotone(1.0 - r0, p2, p1);
    SchlickForm(c1, ior);
    SchlickForm(c2, ior);
  }

  /** For a positive index and a cosine in `[0, 1]`, the reflectance lies
      between its normal-incidence value and 1. */
  lemma SchlickBounds(cosine: real, ior: real)
    requires 0.0 < ior && 0.0 <= cosine <= 1.0
    ensures SchlickR0(ior) <= Schlick(cosine, ior) <= 1.0
  {
    R0Bounds(ior);
    var r0 := SchlickR0(ior);
    var x := 1.0 - cosine;
    var p := Pow5(x);
    Pow5Sign(x);
    Pow5Monotone(x, 1.0);
    assert Pow5(1.0) == 1.0;
    ScaleMonotone(1.0 - r0, p, 1.0);
    ScaleMonotone(1.0 - r0, 0.0, p);
    SchlickForm(cosine, ior);
  }
}
