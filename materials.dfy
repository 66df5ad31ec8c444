/** The material family of MacRayTracing/material.h as a closed datatype,
    one constructor per class, with each class's `scatter` and `emit`.

    The C++ `scatter` writes through the reference parameters `attenuation`,
    `scattered` and `pdf`, and some classes leave some of them unwritten. Each
    scatter method below therefore takes the prior value of every parameter
    that its class may leave unwritten (`attenuation0`, `scattered0`, `pdf0`)
    and returns the value the parameter holds afterwards.

    The random draws of `random_in_unit_sphere()` and `random()` are the
    parameters `p` and `draw`; texture sampling is the uninterpreted function
    a `Texture` value stands for. */
module Materials {
  import opened Vectors
  import opened Optics

  /** `texture::sample(texcoord, position)`, left uninterpreted. */
  type Texture = (Vec3, Vec3) -> Vec3

  /** One constructor per material class. The C++ field `albedo` is a
      texture in some classes and a colour in others; here the texture-valued
      fields are called `texture` and the colour-valued ones `albedo`. */
  datatype Material =
    | Isotropic(texture: Texture)
    | Lambertian(texture: Texture)
    | Transmissive(texture: Texture, ior: real)
    | Metal(albedo: Vec3, fuzz: real := 0.0)
    | Dielectric(albedo: Vec3, ior: real)
    | DiffuseLight(color: Vec3)
    | DiffuseTexLight(emission: Texture)

  /** The hit record (`trace_record`) that primitives fill and materials read. */
  datatype HitRecord = HitRecord(t: real, position: Vec3, normal: Vec3, texcoord: Vec3, mat: Material)

  /** `ONE_PI`; its definition is not part of this model, only its value. */
  const OnePi: real := 3.14159265358979323846

  predicate IsLight(m: Material) { m.DiffuseLight? || m.DiffuseTexLight? }

  // ---------------------------------------------------------------------
  // material::scatter_pdf

  /** The cosine-weighted density `max(0, dot(normal, unit(dir))) / pi` that
      `scatter_pdf` computes before converting it to its `bool` result. */
  function CosineDensity(sqrt: real -> real, rec: HitRecord, scattered: Ray): (d: real)
    requires IsSqrt(sqrt) && scattered.direction != Zero
    ensures 0.0 <= d
    ensures d == 0.0 <==> Dot(rec.normal, Unit(sqrt, scattered.direction)) <= 0.0
  {
    var cosine := Dot(rec.normal, Unit(sqrt, scattered.direction));
    if cosine < 0.0 then 0.0 else cosine / OnePi
  }

  /** `scatter_pdf(in, record, scattered)`. The function is declared to return
      `bool`, so the clamped density is converted to a truth value: the
      result says only whether the scattered direction lies strictly in the
      normal's hemisphere. */
  method ScatterPdf(sqrt: real -> real, rayIn: Ray, rec: HitRecord, scattered: Ray) returns (b: bool)
    requires IsSqrt(sqrt) && scattered.direction != Zero
    ensures b <==> 0.0 < Dot(rec.normal, Unit(sqrt, scattered.direction))
    ensures b <==> CosineDensity(sqrt, rec, scattered) != 0.0
  {
    var cosine := Dot(rec.normal, Unit(sqrt, scattered.direction));
    if cosine < 0.0 {
      cosine := 0.0;
    }
    b := cosine / OnePi != 0.0;
  }

  /** The density is not a truth value: for a direction along the normal it is
      `1/pi`, while the `bool` result, read back as a number, is 1. */
  lemma ScatterPdfLosesDensity(sqrt: real -> real)
    requires IsSqrt(sqrt)
    ensures var n := Vec3(0.0, 0.0, 1.0);
            var rec := HitRecord(1.0, Zero, n, Zero, DiffuseLight(Zero));
            var scattered := Ray(Zero, n, 0.0);
            && 0.0 < Dot(rec.normal, Unit(sqrt, scattered.direction))
            && CosineDensity(sqrt, rec, scattered) == 1.0 / OnePi
            && CosineDensity(sqrt, rec, scattered) != 1.0
  {
    var n := Vec3(0.0, 0.0, 1.0);
    SqrtOfSquare(sqrt, 1.0, 1.0);
    assert Length(sqrt, n) == 1.0;
    assert Unit(sqrt, n) == n;
  }

  // ---------------------------------------------------------------------
  // emit

  /** `emit(u, v, p)` of every class that implements it. `diffuse_texlight`
      declares `emit(texcoord, position)` instead, which does not override this
      one (see `TexLightEmit`). */
  function Emit(m: Material, u: real, v: real, p: Vec3): Vec3
    requires !m.DiffuseTexLight?
  {
    match m
    case DiffuseLight(color) => color
    case _ => Zero
  }

  /** Only `diffuse_light` emits, and what it emits does not depend on where
      it is asked. */
  lemma EmitLaw(m: Material, u: real, v: real, p: Vec3)
    requires !m.DiffuseTexLight?
    ensures m.DiffuseLight? ==> Emit(m, u, v, p) == m.color
    ensures !m.DiffuseLight? ==> Emit(m, u, v, p) == Zero
  {
  }

  /** `diffuse_texlight::emit(texcoord, position)`: the emission texture sampled there. */
  function TexLightEmit(m: Material, texcoord: Vec3, position: Vec3): Vec3
    requires m.DiffuseTexLight?
  {
    m.emission(texcoord, position)
  }

  // ---------------------------------------------------------------------
  // The emitters' scatter.

  /** `diffuse_light::scatter` and `diffuse_texlight::scatter`: the path ends
      and none of the out-parameters is written. */
  method LightScatter(rayIn: Ray, rec: HitRecord, attenuation0: Vec3, scattered0: Ray, pdf0: real)
    returns (ok: bool, attenuation: Vec3, scattered: Ray, pdf: real)
    ensures !ok
    ensures attenuation == attenuation0 && scattered == scattered0 && pdf == pdf0
  {
    attenuation, scattered, pdf := attenuation0, scattered0, pdf0;
    ok := false;
  }

  // ---------------------------------------------------------------------
  // isotropic::scatter

  /** Scatters in the direction of the sphere sample, with the texture's
      colour at the hit; `pdf` is not written. */
  method IsotropicScatter(texture: Texture, rayIn: Ray, rec: HitRecord, p: Vec3, pdf0: real)
    returns (ok: bool, attenuation: Vec3, scattered: Ray, pdf: real)
    ensures ok
    ensures scattered.origin == rec.position && scattered.time == rayIn.time
    ensures scattered.direction == p
    ensures attenuation == texture(rec.texcoord, rec.position)
    ensures pdf == pdf0
  {
    pdf := pdf0;
    scattered := Ray(rec.position, p, rayIn.time);
    attenuation := texture(rec.texcoord, rec.position);
    ok := true;
  }

  // ---------------------------------------------------------------------
  // lambertian::scatter

  /** Scatters towards `position + normal + p`, so along `normal + p`, with
      the texture's colour and the unclamped cosine density of that direction.
      For a unit normal and a sample inside the unit ball the density is
      positive and agrees with the clamped `CosineDensity`. */
  method LambertianScatter(sqrt: real -> real, texture: Texture, rayIn: Ray, rec: HitRecord, p: Vec3)
    returns (ok: bool, attenuation: Vec3, scattered: Ray, pdf: real)
    requires IsSqrt(sqrt) && Add(rec.normal, p) != Zero
    ensures ok
    ensures scattered.origin == rec.position && scattered.time == rayIn.time
    ensures scattered.direction == Add(rec.normal, p)
    ensures attenuation == texture(rec.texcoord, rec.position)
    ensures pdf == Dot(rec.normal, Unit(sqrt, Add(rec.normal, p))) / OnePi
    ensures IsUnit(rec.normal) && Dot(p, p) < 1.0 ==>
              0.0 < pdf && pdf == CosineDensity(sqrt, rec, scattered)
  {
    var target := Add(Add(rec.position, rec.normal), p);
    scattered := Ray(rec.position, Sub(target, rec.position), rayIn.time);
    assert scattered.direction == Add(rec.normal, p);
    attenuation := texture(rec.texcoord, rec.position);
    pdf := Dot(rec.normal, Unit(sqrt, scattered.direction)) / OnePi;
    if IsUnit(rec.normal) && Dot(p, p) < 1.0 {
      LambertianDirectionInHemisphere(sqrt, rec.normal, p);
    }
    ok := true;
  }

  /** A unit normal offset by a point of the open unit ball points strictly
      into the normal's hemisphere. */
  lemma LambertianDirectionInHemisphere(sqrt: real -> real, n: Vec3, p: Vec3)
    requires IsSqrt(sqrt) && IsUnit(n) && Dot(p, p) < 1.0
    ensures Add(n, p) != Zero
    ensures 0.0 < Dot(n, Unit(sqrt, Add(n, p)))
  {
    var w := Add(n, p);
    var d := Dot(n, p);
    UnitCauchySchwarz(n, p);
    AboveMinusOne(d, Dot(p, p));
    assert Dot(n, w) == 1.0 + d;
    DotUnit(sqrt, n, w);
    QuotientPositive(Dot(n, w), Length(sqrt, w));
  }

  lemma UnitCauchySchwarz(n: Vec3, p: Vec3)
    requires IsUnit(n)
    ensures Dot(n, p) * Dot(n, p) <= Dot(p, p)
  {
    CauchySchwarz(n, p);
    calc {
      Dot(n, p) * Dot(n, p);
    <=
      Dot(n, n) * Dot(p, p);
      1.0 * Dot(p, p);
    }
  }

  lemma AboveMinusOne(d: real, q: real)
    requires d * d <= q < 1.0
    ensures -1.0 < d
  {
    if d <= -1.0 {
      MonotoneFactor(1.0, -d, 1.0, -d);
    }
  }

  lemma QuotientPositive(a: real, l: real)
    requires 0.0 < a && 0.0 < l
    ensures 0.0 < a / l
  {
  }

  lemma QuotientNonNegative(a: real, l: real)
    requires 0.0 <= a && 0.0 < l
    ensures 0.0 <= a / l
  {
  }

  // ---------------------------------------------------------------------
  // metal::scatter

  /** Reflects the unit incoming direction about the normal, perturbs it by
      `fuzz * p`, and continues exactly when the result lies strictly above
      the surface. A perfect mirror (`fuzz == 0`) with a unit normal continues
      exactly when the ray arrives against the normal. */
  method MetalScatter(sqrt: real -> real, albedo: Vec3, fuzz: real, rayIn: Ray, rec: HitRecord, p: Vec3)
    returns (ok: bool, attenuation: Vec3, scattered: Ray, pdf: real)
    requires IsSqrt(sqrt) && rayIn.direction != Zero
    ensures scattered.origin == rec.position && scattered.time == rayIn.time
    ensures scattered.direction == Add(Reflect(Unit(sqrt, rayIn.direction), rec.normal), Scale(fuzz, p))
    ensures attenuation == albedo && pdf == 1.0
    ensures ok <==> 0.0 < Dot(scattered.direction, rec.normal)
    ensures fuzz == 0.0 && IsUnit(rec.normal) ==>
              (ok <==> Dot(rayIn.direction, rec.normal) < 0.0) && IsUnit(scattered.direction)
  {
    var reflected := Reflect(Unit(sqrt, rayIn.direction), rec.normal);
    scattered := Ray(rec.position, Add(reflected, Scale(fuzz, p)), rayIn.time);
    attenuation := albedo;
    pdf := 1.0;
    ok := 0.0 < Dot(scattered.direction, rec.normal);
    if fuzz == 0.0 && IsUnit(rec.normal) {
      MirrorMetal(sqrt, rayIn.direction, rec.normal, p);
    }
  }

  lemma MirrorMetal(sqrt: real -> real, d: Vec3, n: Vec3, p: Vec3)
    requires IsSqrt(sqrt) && d != Zero && IsUnit(n)
    ensures var s := Add(Reflect(Unit(sqrt, d), n), Scale(0.0, p));
            && (0.0 < Dot(s, n) <==> Dot(d, n) < 0.0)
            && IsUnit(s)
  {
    var u := Unit(sqrt, d);
    var r := Reflect(u, n);
    assert Add(r, Scale(0.0, p)) == r;
    ReflectNegatesNormalComponent(u, n);
    ReflectPreservesLength(u, n);
    var l := Length(sqrt, d);
    DotUnit(sqrt, n, d);
    DotSymmetric(u, n);
    DotSymmetric(d, n);
    if Dot(d, n) < 0.0 {
      NegativeQuotient(Dot(d, n), l);
    } else {
      QuotientNonNegative(Dot(d, n), l);
    }
  }

  /** A grazing ray on a rough metal can be rejected: the unit direction
      `(0.96, 0, -0.28)`, about 16 degrees above the surface, mirrors to
      `(0.96, 0, 0.28)`, and the perturbation `1.0 * (0, 0, -0.5)` pushes it
      below the surface `z = 0`. */
  lemma MetalRejectsGrazingFuzzyRay(sqrt: real -> real)
    requires IsSqrt(sqrt)
    ensures var n := Vec3(0.0, 0.0, 1.0);
            var d := Vec3(0.96, 0.0, -0.28);
            var p := Vec3(0.0, 0.0, -0.5);
            && Dot(p, p) < 1.0
            && Dot(Add(Reflect(Unit(sqrt, d), n), Scale(1.0, p)), n) <= 0.0
  {
    var d := Vec3(0.96, 0.0, -0.28);
    assert Dot(d, d) == 1.0;
    SqrtOfSquare(sqrt, 1.0, 1.0);
    assert Length(sqrt, d) == 1.0;
    assert Unit(sqrt, d) == d;
  }

  // ---------------------------------------------------------------------
  // transmissive::scatter2 and dielectric::scatter2

  /** The locals `outward_normal`, `ni_over_nt` and `cosine` of `scatter2`. */
  datatype Interface = Interface(outwardNormal: Vec3, niOverNt: real, cosine: real)

  /** The inside/outside decision of `scatter2`: a ray with a positive cosine
      against the normal hits the surface from inside. */
  function Orientation(sqrt: real -> real, d: Vec3, n: Vec3, ior: real): (f: Interface)
    requires IsSqrt(sqrt) && d != Zero && ior != 0.0
    ensures Dot(d, f.outwardNormal) <= 0.0
  {
    if Dot(d, n) > 0.0 then
      Interface(Neg(n), ior, ior * Dot(d, n) / Length(sqrt, d))
    else
      Interface(n, 1.0 / ior, -Dot(d, n) / Length(sqrt, d))
  }

  /** `reflect_prob`: Schlick's reflectance when refraction is possible, and
      1 under total internal reflection. */
  function ReflectProbability(sqrt: real -> real, d: Vec3, n: Vec3, ior: real): real
    requires IsSqrt(sqrt) && d != Zero && ior != 0.0 && ior != -1.0
  {
    var f := Orientation(sqrt, d, n, ior);
    if CanRefract(sqrt, d, f.outwardNormal, f.niOverNt) then Schlick(f.cosine, ior) else 1.0
  }

  /** For a positive index the cosine `scatter2` passes to Schlick's
      approximation is non-negative on both branches. */
  lemma OrientationCosineNonNegative(sqrt: real -> real, d: Vec3, n: Vec3, ior: real)
    requires IsSqrt(sqrt) && d != Zero && 0.0 < ior
    ensures 0.0 <= Orientation(sqrt, d, n, ior).cosine
  {
    var l := Length(sqrt, d);
    var dn := Dot(d, n);
    if dn > 0.0 {
      ProductPositive(ior, dn);
      QuotientPositive(ior * dn, l);
      assert Orientation(sqrt, d, n, ior).cosine == ior * dn / l;
    } else {
      QuotientNonNegative(-dn, l);
      assert Orientation(sqrt, d, n, ior).cosine == -dn / l;
    }
  }

  /** Seen from outside, with a unit normal, that cosine is at most 1. */
  lemma OrientationCosineAtMostOne(sqrt: real -> real, d: Vec3, n: Vec3, ior: real)
    requires IsSqrt(sqrt) && d != Zero && ior != 0.0 && IsUnit(n) && Dot(d, n) <= 0.0
    ensures Orientation(sqrt, d, n, ior).cosine <= 1.0
  {
    var l := Length(sqrt, d);
    var dn := Dot(d, n);
    CauchySchwarz(d, n);
    assert dn * dn <= l * l;
    var c := -dn;
    assert c * c == dn * dn;
    AtMostLength(c, l);
    assert Orientation(sqrt, d, n, ior).cosine == c / l;
  }

  /** A component of a vector along a unit direction, divided by the vector's
      length, is at most 1. */
  lemma AtMostLength(c: real, l: real)
    requires 0.0 <= c && 0.0 < l && c * c <= l * l
    ensures c / l <= 1.0
  {
    if c > l {
      ProductPositive(c - l, c + l);
    }
    assert c / l * l == c;
  }

  /** Seen from outside, with a unit normal and a positive index, the
      reflect probability is a probability: at least Schlick's normal-incidence
      value when refraction is possible, and exactly 1 when it is not. */
  lemma ReflectProbabilityFromOutside(sqrt: real -> real, d: Vec3, n: Vec3, ior: real)
    requires IsSqrt(sqrt) && d != Zero && 0.0 < ior && IsUnit(n) && Dot(d, n) <= 0.0
    ensures 0.0 <= ReflectProbability(sqrt, d, n, ior) <= 1.0
    ensures var f := Orientation(sqrt, d, n, ior);
            CanRefract(sqrt, d, f.outwardNormal, f.niOverNt) ==>
              SchlickR0(ior) <= ReflectProbability(sqrt, d, n, ior)
  {
    var f := Orientation(sqrt, d, n, ior);
    OrientationCosineNonNegative(sqrt, d, n, ior);
    OrientationCosineAtMostOne(sqrt, d, n, ior);
    R0Bounds(ior);
    SchlickBounds(f.cosine, ior);
  }

  /** From inside, the cosine `scatter2` passes to Schlick's approximation is
      `ior` times the true cosine, so near normal incidence it exceeds 1 and
      the reflect probability falls below 0. With index 2 and the ray leaving
      along the normal `(0, 0, 1)`, the cosine is 2, refraction is possible,
      the reflect probability is `-7/9`, and every draw in `[0, 1)` takes the
      refracted ray. */
  lemma InsideNormalIncidenceNeverReflects(sqrt: real -> real, draw: real)
    requires IsSqrt(sqrt) && 0.0 <= draw < 1.0
    ensures var d := Vec3(0.0, 0.0, 1.0);
            var f := Orientation(sqrt, d, d, 2.0);
            && f.cosine == 2.0
            && CanRefract(sqrt, d, f.outwardNormal, f.niOverNt)
            && ReflectProbability(sqrt, d, d, 2.0) < 0.0
            && RefractiveDirection(sqrt, d, d, 2.0, draw) == Refracted(sqrt, d, f.outwardNormal, f.niOverNt)
  {
    var d := Vec3(0.0, 0.0, 1.0);
    SqrtOfSquare(sqrt, 1.0, 1.0);
    assert Length(sqrt, d) == 1.0;
    assert Unit(sqrt, d) == d;
    var f := Orientation(sqrt, d, d, 2.0);
    assert f == Interface(Vec3(0.0, 0.0, -1.0), 2.0, 2.0);
    assert RefractionDiscriminant(sqrt, d, f.outwardNormal, f.niOverNt) == 1.0;
    SchlickInsideAtIndexTwo();
  }

  lemma SchlickInsideAtIndexTwo()
    ensures Schlick(2.0, 2.0) == -7.0 / 9.0
  {
    assert SchlickR0(2.0) == 1.0 / 9.0;
    assert Pow5(1.0 - 2.0) == -1.0;
  }

  /** The direction `scatter2` gives the scattered ray: the mirror image of
      the (not normalised) incoming direction when the draw falls below the
      reflect probability, and the refracted direction otherwise. */
  function RefractiveDirection(sqrt: real -> real, d: Vec3, n: Vec3, ior: real, draw: real): Vec3
    requires IsSqrt(sqrt) && d != Zero && ior != 0.0 && ior != -1.0 && draw < 1.0
  {
    var f := Orientation(sqrt, d, n, ior);
    if draw < ReflectProbability(sqrt, d, n, ior) then Reflect(d, n)
    else Refracted(sqrt, d, f.outwardNormal, f.niOverNt)
  }

  /** Under total internal reflection the mirrored ray is chosen, whatever
      the draw in `[0, 1)`. */
  lemma TotalInternalReflectionReflects(sqrt: real -> real, d: Vec3, n: Vec3, ior: real, draw: real)
    requires IsSqrt(sqrt) && d != Zero && ior != 0.0 && ior != -1.0 && 0.0 <= draw < 1.0
    requires var f := Orientation(sqrt, d, n, ior);
             !CanRefract(sqrt, d, f.outwardNormal, f.niOverNt)
    ensures RefractiveDirection(sqrt, d, n, ior, draw) == Reflect(d, n)
  {
  }

  /** When the refracted ray is chosen with a unit normal, it is a unit vector
      that crosses to the far side of the surface, and its tangential part is
      `ni_over_nt` times that of the unit incoming direction. */
  lemma RefractedBranchCrosses(sqrt: real -> real, d: Vec3, n: Vec3, ior: real, draw: real)
    requires IsSqrt(sqrt) && d != Zero && ior != 0.0 && ior != -1.0 && 0.0 <= draw < 1.0
    requires IsUnit(n) && ReflectProbability(sqrt, d, n, ior) <= draw
    ensures var f := Orientation(sqrt, d, n, ior);
            var r := RefractiveDirection(sqrt, d, n, ior, draw);
            && IsUnit(r)
            && Dot(r, f.outwardNormal) < 0.0
            && Tangential(r, f.outwardNormal) == Scale(f.niOverNt, Tangential(Unit(sqrt, d), f.outwardNormal))
  {
    var f := Orientation(sqrt, d, n, ior);
    assert IsUnit(f.outwardNormal) by {
      assert Dot(Neg(n), Neg(n)) == Dot(n, n);
    }
    RefractedIsUnit(sqrt, d, f.outwardNormal, f.niOverNt);
    SnellsLaw(sqrt, d, f.outwardNormal, f.niOverNt);
  }

  /** `scatter2`, shared by `transmissive` (whose `albedo` is its texture's
      colour at the hit) and `dielectric` (whose `albedo` is a constant): it
      always continues, with `pdf == 1`, from the hit point at the incoming
      ray's time, in the direction `RefractiveDirection` chooses. */
  method Scatter2(sqrt: real -> real, albedo: Vec3, ior: real, rayIn: Ray, rec: HitRecord, draw: real)
    returns (ok: bool, attenuation: Vec3, scattered: Ray, pdf: real)
    requires IsSqrt(sqrt) && rayIn.direction != Zero && ior != 0.0 && ior != -1.0
    requires 0.0 <= draw < 1.0
    ensures ok && attenuation == albedo && pdf == 1.0
    ensures scattered.origin == rec.position && scattered.time == rayIn.time
    ensures scattered.direction == RefractiveDirection(sqrt, rayIn.direction, rec.normal, ior, draw)
  {
    var reflected := Reflect(rayIn.direction, rec.normal);
    var refracted: Vec3 := Zero;  // default-constructed; never read when refraction fails
    var reflectProb: real;
    attenuation := albedo;
    pdf := 1.0;

    // The inside/outside branch that sets `outward_normal`, `ni_over_nt` and `cosine`.
    var Interface(outwardNormal, niOverNt, cosine) := Orientation(sqrt, rayIn.direction, rec.normal, ior);

    var refracts;
    refracts, refracted := Refract(sqrt, rayIn.direction, outwardNormal, niOverNt, refracted);
    if refracts {
      reflectProb := Schlick(cosine, ior);
    } else {
      reflectProb := 1.0;
    }
    assert reflectProb == ReflectProbability(sqrt, rayIn.direction, rec.normal, ior);

    if draw < reflectProb {
      scattered := Ray(rec.position, reflected, rayIn.time);
    } else {
      scattered := Ray(rec.position, refracted, rayIn.time);
    }
    ok := true;
  }

  /** `transmissive::scatter`: `scatter2` with the texture's colour at the hit
      as attenuation. */
  method TransmissiveScatter(sqrt: real -> real, texture: Texture, ior: real, rayIn: Ray, rec: HitRecord, draw: real)
    returns (ok: bool, attenuation: Vec3, scattered: Ray, pdf: real)
    requires IsSqrt(sqrt) && rayIn.direction != Zero && ior != 0.0 && ior != -1.0
    requires 0.0 <= draw < 1.0
    ensures ok && attenuation == texture(rec.texcoord, rec.position) && pdf == 1.0
    ensures scattered.origin == rec.position && scattered.time == rayIn.time
    ensures scattered.direction == RefractiveDirection(sqrt, rayIn.direction, rec.normal, ior, draw)
  {
    ok, attenuation, scattered, pdf := Scatter2(sqrt, texture(rec.texcoord, rec.position), ior, rayIn, rec, draw);
  }

  /** `dielectric::scatter`: `scatter2` with the constant albedo as attenuation. */
  method DielectricScatter(sqrt: real -> real, albedo: Vec3, ior: real, rayIn: Ray, rec: HitRecord, draw: real)
    returns (ok: bool, attenuation: Vec3, scattered: Ray, pdf: real)
    requires IsSqrt(sqrt) && rayIn.direction != Zero && ior != 0.0 && ior != -1.0
    requires 0.0 <= draw < 1.0
    ensures ok && attenuation == albedo && pdf == 1.0
    ensures scattered.origin == rec.position && scattered.time == rayIn.time
    ensures scattered.direction == RefractiveDirection(sqrt, rayIn.direction, rec.normal, ior, draw)
  {
    ok, attenuation, scattered, pdf := Scatter2(sqrt, albedo, ior, rayIn, rec, draw);
  }

  // ---------------------------------------------------------------------
  // material::scatter, dispatched on the class.

  /** What `scatter` demands of its inputs, class by class: a non-degenerate
      scatter direction for `lambertian`, a non-zero incoming direction for
      the classes that normalise it, and an index of refraction that keeps
      `1 / ior` and Schlick's `1 + ior` defined. */
  predicate ScatterDefined(m: Material, rayIn: Ray, rec: HitRecord, p: Vec3, draw: real)
  {
    && (m.Lambertian? ==> Add(rec.normal, p) != Zero)
    && (m.Metal? || m.Transmissive? || m.Dielectric? ==> rayIn.direction != Zero)
    && (m.Transmissive? || m.Dielectric? ==> m.ior != 0.0 && m.ior != -1.0 && 0.0 <= draw < 1.0)
  }

  /** The virtual `scatter`: emitters end the path and write nothing; every
      other class writes a scattered ray that starts at the hit point and
      carries the incoming ray's time, and continues unless it is a metal whose
      perturbed reflection falls below the surface. */
  method Scatter(sqrt: real -> real, m: Material, rayIn: Ray, rec: HitRecord, p: Vec3, draw: real,
                 attenuation0: Vec3, scattered0: Ray, pdf0: real)
    returns (ok: bool, attenuation: Vec3, scattered: Ray, pdf: real)
    requires IsSqrt(sqrt) && ScatterDefined(m, rayIn, rec, p, draw)
    ensures IsLight(m) ==> !ok && attenuation == attenuation0 && scattered == scattered0 && pdf == pdf0
    ensures !IsLight(m) ==> scattered.origin == rec.position && scattered.time == rayIn.time
    ensures ok <==> !IsLight(m) && (m.Metal? ==> 0.0 < Dot(scattered.direction, rec.normal))
    ensures m.Metal? || m.Transmissive? || m.Dielectric? ==> pdf == 1.0
    ensures m.Isotropic? ==> pdf == pdf0
    ensures m.Isotropic? ==> scattered.direction == p
    ensures m.Lambertian? ==>
              scattered.direction == Add(rec.normal, p) &&
              pdf == Dot(rec.normal, Unit(sqrt, Add(rec.normal, p))) / OnePi
    ensures m.Metal? ==>
              scattered.direction == Add(Reflect(Unit(sqrt, rayIn.direction), rec.normal), Scale(m.fuzz, p))
    ensures m.Transmissive? || m.Dielectric? ==>
              scattered.direction == RefractiveDirection(sqrt, rayIn.direction, rec.normal, m.ior, draw)
    ensures m.Isotropic? || m.Lambertian? || m.Transmissive? ==>
              attenuation == m.texture(rec.texcoord, rec.position)
    ensures m.Metal? || m.Dielectric? ==> attenuation == m.albedo
  {
    match m
    case Isotropic(texture) =>
      ok, attenuation, scattered, pdf := IsotropicScatter(texture, rayIn, rec, p, pdf0);
    case Lambertian(texture) =>
      ok, attenuation, scattered, pdf := LambertianScatter(sqrt, texture, rayIn, rec, p);
    case Transmissive(texture, ior) =>
      ok, attenuation, scattered, pdf := TransmissiveScatter(sqrt, texture, ior, rayIn, rec, draw);
    case Metal(albedo, fuzz) =>
      ok, attenuation, scattered, pdf := MetalScatter(sqrt, albedo, fuzz, rayIn, rec, p);
    case Dielectric(albedo, ior) =>
      ok, attenuation, scattered, pdf := DielectricScatter(sqrt, albedo, ior, rayIn, rec, draw);
    case DiffuseLight(_) =>
      ok, attenuation, scattered, pdf := LightScatter(rayIn, rec, attenuation0, scattered0, pdf0);
    case DiffuseTexLight(_) =>
      ok, attenuation, scattered, pdf := LightScatter(rayIn, rec, attenuation0, scattered0, pdf0);
  }
}
