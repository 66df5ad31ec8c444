/** Exact-real model of the vector and ray algebra the tracer's core uses.
    The C++ `vec3` and `ray3` classes are not part of this model; their
    operations are written here from their usual definitions. Square roots
    are a parameter `sqrt` constrained by `IsSqrt`. */
module Vectors {

  datatype Vec3 = Vec3(x: real, y: real, z: real)

  const Zero: Vec3 := Vec3(0.0, 0.0, 0.0)

  function Add(u: Vec3, v: Vec3): Vec3 { Vec3(u.x + v.x, u.y + v.y, u.z + v.z) }

  function Sub(u: Vec3, v: Vec3): Vec3 { Vec3(u.x - v.x, u.y - v.y, u.z - v.z) }

  function Neg(v: Vec3): Vec3 { Vec3(-v.x, -v.y, -v.z) }

  /** `k * v` and `v * k` of the C++ vector class. */
  function Scale(k: real, v: Vec3): Vec3 { Vec3(k * v.x, k * v.y, k * v.z) }

  /** `v / k`, componentwise. */
  function Div(v: Vec3, k: real): Vec3
    requires k != 0.0
  {
    Vec3(v.x / k, v.y / k, v.z / k)
  }

  function Dot(u: Vec3, v: Vec3): real { u.x * v.x + u.y * v.y + u.z * v.z }

  predicate IsUnit(v: Vec3) { Dot(v, v) == 1.0 }

  /** What the core assumes of the square root it calls. */
  ghost predicate IsSqrt(sqrt: real -> real)
  {
    forall x: real :: 0.0 <= x ==> 0.0 <= sqrt(x) && sqrt(x) * sqrt(x) == x
  }

  /** `v.length()`. */
  function Length(sqrt: real -> real, v: Vec3): (l: real)
    requires IsSqrt(sqrt)
    ensures 0.0 <= l && l * l == Dot(v, v)
    ensures v != Zero ==> 0.0 < l
  {
    DotSelf(v);
    var l := sqrt(Dot(v, v));
    assert 0.0 <= l && l * l == Dot(v, v);
    assert l == 0.0 ==> l * l == 0.0;
    l
  }

  /** `unit_vector(v)`: `v` divided by its length. */
  function Unit(sqrt: real -> real, v: Vec3): (u: Vec3)
    requires IsSqrt(sqrt) && v != Zero
    ensures IsUnit(u)
    ensures Dot(u, v) == Length(sqrt, v)
  {
    var l := Length(sqrt, v);
    var u := Div(v, l);
    assert Dot(u, v) == Dot(v, v) / l;
    assert v == Scale(l, u);
    DotScale(l, u);
    Square(l);
    Cancel(l * l, Dot(u, u), 1.0);
    u
  }

  /** Projecting on a unit vector divides the projection by the length. */
  lemma DotUnit(sqrt: real -> real, a: Vec3, w: Vec3)
    requires IsSqrt(sqrt) && w != Zero
    ensures Dot(a, Unit(sqrt, w)) == Dot(a, w) / Length(sqrt, w)
  {
    var l := Length(sqrt, w);
    assert Unit(sqrt, w) == Div(w, l);
  }

  datatype Ray = Ray(origin: Vec3, direction: Vec3, time: real)

  /** `r.point_at_parameter(t)`. */
  function PointAt(r: Ray, t: real): Vec3 { Add(r.origin, Scale(t, r.direction)) }

  /** The square of a length is non-negative and zero only for the zero vector. */
  lemma DotSelf(v: Vec3)
    ensures 0.0 <= Dot(v, v)
    ensures v != Zero ==> 0.0 < Dot(v, v)
  {
    DotSelfNonNegative(v);
    if v != Zero {
      DotSelfPositive(v);
    }
  }

  lemma DotSelfNonNegative(v: Vec3)
    ensures 0.0 <= Dot(v, v)
  {
    SumOfSquares(v.x, v.y, v.z);
    calc {
      Dot(v, v);
      v.x * v.x + v.y * v.y + v.z * v.z;
    >=
      0.0;
    }
  }

  lemma DotSelfPositive(v: Vec3)
    requires v != Zero
    ensures 0.0 < Dot(v, v)
  {
    NonZeroComponent(v);
    SumOfSquares(v.x, v.y, v.z);
    calc {
      Dot(v, v);
      v.x * v.x + v.y * v.y + v.z * v.z;
    >
      0.0;
    }
  }

  lemma NonZeroComponent(v: Vec3)
    requires v != Zero
    ensures v.x != 0.0 || v.y != 0.0 || v.z != 0.0
  {
  }

  lemma SumOfSquares(a: real, b: real, c: real)
    ensures 0.0 <= a * a + b * b + c * c
    ensures a != 0.0 || b != 0.0 || c != 0.0 ==> 0.0 < a * a + b * b + c * c
  {
    Square(a);
    Square(b);
    Square(c);
  }

  lemma Square(a: real)
    ensures 0.0 <= a * a
    ensures a != 0.0 ==> 0.0 < a * a
  {
    if a > 0.0 {
      ProductPositive(a, a);
    } else if a < 0.0 {
      ProductPositive(-a, -a);
      assert (-a) * (-a) == a * a;
    }
  }

  lemma ProductPositive(a: real, b: real)
    requires 0.0 < a && 0.0 < b
    ensures 0.0 < a * b
  {
  }

  lemma Cancel(k: real, a: real, b: real)
    requires k != 0.0 && k * a == k * b
    ensures a == b
  {
    assert k * (a - b) == k * a - k * b;
  }

  lemma DotScale(k: real, u: Vec3)
    ensures Dot(Scale(k, u), Scale(k, u)) == k * k * Dot(u, u)
  {
  }

  /** Lagrange's identity, the algebra behind Cauchy-Schwarz. */
  lemma Lagrange(u: Vec3, v: Vec3)
    ensures Dot(u, u) * Dot(v, v) - Dot(u, v) * Dot(u, v)
         == (u.x * v.y - u.y * v.x) * (u.x * v.y - u.y * v.x)
          + (u.y * v.z - u.z * v.y) * (u.y * v.z - u.z * v.y)
          + (u.z * v.x - u.x * v.z) * (u.z * v.x - u.x * v.z)
  {
  }

  lemma CauchySchwarz(u: Vec3, v: Vec3)
    ensures Dot(u, v) * Dot(u, v) <= Dot(u, u) * Dot(v, v)
  {
    Lagrange(u, v);
    var p := u.x * v.y - u.y * v.x;
    var q := u.y * v.z - u.z * v.y;
    var w := u.z * v.x - u.x * v.z;
    assert 0.0 <= p * p && 0.0 <= q * q && 0.0 <= w * w;
  }

  /** A non-negative square root is unique. */
  lemma SqrtOfSquare(sqrt: real -> real, x: real, y: real)
    requires IsSqrt(sqrt) && 0.0 <= x && y == x * x
    ensures sqrt(y) == x
  {
    Square(x);
    var s := sqrt(y);
    assert 0.0 <= s && s * s == x * x;
    SquareRootUnique(s, x);
  }

  lemma SqrtPositive(sqrt: real -> real, x: real)
    requires IsSqrt(sqrt) && 0.0 < x
    ensures 0.0 < sqrt(x)
  {
    var s := sqrt(x);
    assert 0.0 <= s && s * s == x;
  }

  lemma SquareRootUnique(s: real, x: real)
    requires 0.0 <= s && 0.0 <= x && s * s == x * x
    ensures s == x
  {
    if s > x {
      ProductPositive(s - x, s + x);
    } else if s < x {
      ProductPositive(x - s, s + x);
    }
  }
}
