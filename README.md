# Materials and sphere intersection of a Monte Carlo ray tracer

This project models the shading and intersection core of the MacRayTracing
path tracer. Everything is exact real arithmetic in Dafny.

- `Vectors` (vectors.dfy) holds the vector and ray algebra the core calls:
  `vec3` as a triple of reals, dot product, length, `unit_vector`, and
  `point_at_parameter`. The square root is a parameter `sqrt` that is
  constrained by `IsSqrt`: for `x >= 0`, `sqrt(x) >= 0` and `sqrt(x)^2 == x`.
- `Optics` (optics.dfy) holds the member functions `schlick`, `reflect` and
  `refract`. `transmissive` and `dielectric` (and, for `reflect`, `metal`)
  declare identical copies of these; each is modelled once.
- `Materials` (materials.dfy) holds the material family as a closed
  datatype with one constructor per class, together with each class's
  `scatter`/`scatter2`, `emit` and the base class's `scatter_pdf`.
  - A C++ `scatter` writes through reference parameters and sometimes
    leaves some of them unwritten. Each modelled `scatter` therefore takes
    the prior value of every parameter it may leave alone and returns the
    value afterwards.
  - The samples of `random_in_unit_sphere()` and `random()` are the
    parameters `p` and `draw`.
  - A texture is an uninterpreted function of `(texcoord, position)`.
- `Spheres` (spheres.dfy) holds the moving sphere: `getCenter` and the live
  `trace`.
  - `trace` is a method with an in/out hit record.
  - It is proved against `HitParameter`, the parameter that `trace`
    reports.
  - Lemmas prove what that parameter means: it is the nearest crossing
    of the sphere inside the open interval, it lies on the sphere, its
    normal has unit length, and a moving sphere behaves like a stationary
    one.

The model follows the code as written in three places where a reader might
expect otherwise:

- `scatter_pdf` is declared `bool` (see Findings).
- A sphere's radius is not required to be positive. The model shows that a
  zero radius, and likewise a zero ray direction, can only give a miss, so
  `trace` needs no precondition.
- `metal`'s `fuzz` is not restricted to `[0, 1]`.

## Model

| member | source | states |
|---|---|---|
| Optics.SchlickAtNormalIncidence | MacRayTracing/material.h:91-96 | at `cosine == 1` Schlick's reflectance is the normal-incidence value `((1-ior)/(1+ior))^2` |
| Optics.R0Bounds | MacRayTracing/material.h:93-94 | for a positive index the normal-incidence reflectance lies in `[0, 1)` |
| Optics.SchlickBounds | MacRayTracing/material.h:91-96 | for `ior > 0` and `cosine` in `[0, 1]` the reflectance lies between the normal-incidence value and 1 |
| Optics.SchlickMonotone | MacRayTracing/material.h:91-96 | for `ior > 0` the reflectance does not increase as the cosine increases (grazing rays reflect more) |
| Optics.ReflectNegatesNormalComponent | MacRayTracing/material.h:98-101 | for a unit normal, `dot(reflect(v, n), n) == -dot(v, n)` |
| Optics.ReflectKeepsTangential | MacRayTracing/material.h:98-101 | for a unit normal, reflection keeps the part of `v` tangential to the surface |
| Optics.ReflectPreservesLength | MacRayTracing/material.h:98-101 | for a unit normal, reflection preserves length |
| Optics.ReflectInvolution | MacRayTracing/material.h:98-101 | for a unit normal, reflecting twice gives back `v` |
| Optics.Refract | MacRayTracing/material.h:103-115 | `refract` succeeds exactly when `1 - eta^2 (1 - dt^2) > 0` and then writes `eta (uv - n dt) - n sqrt(disc)`; on failure `refracted` keeps its prior value; for a unit normal the written direction is a unit vector, obeys Snell's law tangentially and leaves through the far side of `n` |
| Optics.RefractedIsUnit | MacRayTracing/material.h:110 | for a unit normal the refracted direction is a unit vector |
| Optics.SnellsLaw | MacRayTracing/material.h:110 | the refracted direction's tangential part is `eta` times that of the unit incoming direction, and its normal component is `-sqrt(disc) < 0` |
| Optics.MatchedIndexPassesStraight | MacRayTracing/material.h:103-115 | with `eta == 1` a ray arriving against the normal always refracts, and it refracts to its own unit direction |
| Materials.CosineDensity | MacRayTracing/material.h:18-22 | the clamped density `max(0, dot(normal, unit(dir))) / pi` is non-negative, and zero exactly when the direction is not strictly in the normal's hemisphere |
| Materials.ScatterPdf | MacRayTracing/material.h:16-23 | the `bool` result is true exactly when the clamped cosine is positive, that is, exactly when the density is non-zero |
| Materials.ScatterPdfLosesDensity | MacRayTracing/material.h:16-23 | for a direction along a unit normal the density is `1/pi`, not the 1 that a `true` result stands for |
| Materials.EmitLaw | MacRayTracing/material.h:321-324 | `diffuse_light` emits its colour whatever `u`, `v`, `p` are; isotropic, lambertian, transmissive, metal and dielectric emit `(0,0,0)` (lines 45-48, 74-77, 169-172, 203-206, 299-302) |
| Materials.LightScatter | MacRayTracing/material.h:316-319 | the emitters' `scatter` (also lines 337-340) returns false and writes none of `attenuation`, `scattered` and `pdf` |
| Materials.IsotropicScatter | MacRayTracing/material.h:38-43 | returns true; the scattered ray starts at the hit position, carries the incoming time and points along the sphere sample; the attenuation is the texture sample; `pdf` is not written |
| Materials.LambertianScatter | MacRayTracing/material.h:61-72 | returns true; the scattered ray starts at the hit position along `normal + p`, carries the incoming time, and has the texture's attenuation; `pdf` is the unclamped `dot(normal, unit(dir)) / pi`; for a unit normal and a sample in the open unit ball that `pdf` is positive and equals the clamped density |
| Materials.LambertianDirectionInHemisphere | MacRayTracing/material.h:63-69 | a unit normal offset by a point of the open unit ball is non-zero and points strictly into the normal's hemisphere |
| Materials.MetalScatter | MacRayTracing/material.h:192-201 | the scattered ray starts at the hit position along `reflect(unit(in), n) + fuzz p` and carries the incoming time; attenuation is `albedo` and `pdf == 1`; the result is true exactly when `dot(scattered, normal) > 0`; a perfect mirror with a unit normal continues exactly when the ray arrives against the normal, in a unit direction |
| Materials.MetalRejectsGrazingFuzzyRay | MacRayTracing/material.h:194-200 | a grazing ray (about 16 degrees above the surface) whose fuzzy perturbation points below the surface makes the mirrored direction fall below the surface, so `scatter` rejects it |
| Materials.Orientation | MacRayTracing/material.h:128-141 | the outward normal that the inside/outside branch picks (`-normal` when `dot(d, normal) > 0`, `normal` otherwise) never points along the incoming direction: `dot(d, outward_normal) <= 0` |
| Materials.OrientationCosineNonNegative | MacRayTracing/material.h:128-141 | for a positive index the cosine passed to `schlick` is non-negative on both branches |
| Materials.OrientationCosineAtMostOne | MacRayTracing/material.h:135-141 | from outside, with a unit normal, the cosine passed to `schlick` is at most 1 |
| Materials.ReflectProbabilityFromOutside | MacRayTracing/material.h:143-150 | from outside, with a unit normal and a positive index, `reflect_prob` lies in `[0, 1]`; and it is at least the normal-incidence reflectance when refraction is possible |
| Materials.InsideNormalIncidenceNeverReflects | MacRayTracing/material.h:128-150 | from inside with `ior = 2` along the normal, the cosine handed to `schlick` is 2, refraction is possible and `reflect_prob` is `-7/9 < 0`, so every draw in `[0, 1)` takes the refracted ray |
| Materials.TotalInternalReflectionReflects | MacRayTracing/material.h:143-159 | under total internal reflection the reflected ray is chosen for every draw in `[0, 1)` |
| Materials.RefractedBranchCrosses | MacRayTracing/material.h:152-159 | when the refracted ray is chosen with a unit normal, its direction is a unit vector that crosses the outward normal and obeys Snell's law |
| Materials.Scatter2 | MacRayTracing/material.h:117-162 | `scatter2` (the dielectric copy is lines 247-292) always returns true with `pdf == 1` and the given attenuation; the ray starts at the hit position and carries the incoming time; its direction is the unnormalised mirror image when the draw is below `reflect_prob`, and the refracted direction otherwise |
| Materials.TransmissiveScatter | MacRayTracing/material.h:164-167 | `transmissive::scatter` is `scatter2` with the texture sample as attenuation |
| Materials.DielectricScatter | MacRayTracing/material.h:294-297 | `dielectric::scatter` is `scatter2` with the constant albedo as attenuation |
| Materials.Scatter | MacRayTracing/material.h:25 | the virtual `scatter`, per class: emitters write nothing and stop; every other class starts the ray at the hit, keeps the time, and continues unless it is a metal whose direction falls below the surface; gives each class's `pdf`, attenuation and direction |
| Spheres.StationaryByDefault | MacRayTracing/sphere3.h:10-16 | a sphere built without a velocity has zero velocity, and its centre does not depend on time |
| Spheres.CenterMotion | MacRayTracing/sphere3.h:89-92 | the centre at time 0 is the constructed centre, and it moves by `velocity * (t1 - t0)` between two times |
| Spheres.CrossingIsNonDegenerate | MacRayTracing/sphere3.h:20-29 | a positive discriminant forces `a > 0` and a non-zero radius, so the divisions at lines 29, 34, 39 and 44 are defined |
| Spheres.HitParameter | MacRayTracing/sphere3.h:25-50 | a reported parameter lies strictly inside `(t_min, t_max)` and comes from a positive discriminant |
| Spheres.Trace | MacRayTracing/sphere3.h:18-51 | hit exactly when `HitParameter` reports one. On a hit, `rec` gets that `t` (strictly inside the interval and the nearest crossing there), `point_at_parameter(t)` on the sphere at the ray's time, the unit normal `(position - centert)/radius` and the sphere's material, and every other field is unchanged. On a miss, `rec` is unchanged, and any root left inside the interval is a tangency |
| Spheres.TangentMisses | MacRayTracing/sphere3.h:25-27 | a discriminant that is not positive, the tangent case included, is a miss |
| Spheres.SmallerRootFirst | MacRayTracing/sphere3.h:29-47 | the smaller root is reported whenever it lies in the interval, even if the larger one also does; the larger root is reported exactly when it alone lies inside; otherwise the result is a miss |
| Spheres.RootsOfCrossing | MacRayTracing/sphere3.h:29-39 | with a positive discriminant, the two roots `(-b -/+ sqrt(disc))/a` are, smaller first, exactly the solutions of `a t^2 + 2 b t + c = 0` |
| Spheres.HitIsNearestRoot | MacRayTracing/sphere3.h:29-47 | a reported parameter solves the quadratic and is not greater than any solution inside the interval |
| Spheres.MissIsTangentAtMost | MacRayTracing/sphere3.h:27-50 | if `trace` misses, any solution inside the interval has a zero discriminant: the ray only grazes the sphere |
| Spheres.HitOnSphere | MacRayTracing/sphere3.h:33-34 | at a reported parameter the point lies at distance `radius` from the centre at the ray's time, and the normal written there has unit length |
| Spheres.MotionEquivalence | MacRayTracing/sphere3.h:20-24 | a sphere moving with velocity `V`, traced with a ray at time `T`, behaves like the stationary sphere at `center + V T` traced with the same ray at any time: same reported parameter, same record |
| Spheres.HeadOnHit | MacRayTracing/sphere3.h:18-51 | the unit sphere at the origin, traced from `(0,0,-5)` along `+z` in `(0.001, 1000)`, is hit at `t = 4` |
| Spheres.HeadOnHitPoint | MacRayTracing/sphere3.h:33-34 | that hit is at `(0,0,-1)` with normal `(0,0,-1)` |
| Spheres.ParallelRayMisses | MacRayTracing/sphere3.h:25-27 | the same sphere traced from `(0,0,-5)` along `+y` is missed |

## Left out

- Floating point: rounding, NaN, infinities and overflow are not modelled. All quantities are reals. `sqrt` is any function satisfying `IsSqrt`, and `pow(x, 5)` is `x*x*x*x*x`.
- Random number generation: `random_in_unit_sphere()` and `random()` are foreign and stochastic. Their samples are the parameters `p` and `draw`. The range `[0, 1)` of `draw` is a precondition wherever the proof needs it. The bound `|p| < 1` is a hypothesis of the clauses that use it.
- Texture sampling: `texture::sample` is an uninterpreted function; its internals are not part of this model.
- MacRayTracing's `vec3.h`, `ray3.h`, `trace_record.h`, `texture.h` and `object3.h` are not part of this model. The vector operations are written from their usual definitions. The hit record has only the fields these two files read and write: `t`, `position`, `normal`, `texcoord` and `mat`.
- `ONE_PI` is defined outside these files; the model uses its usual value `3.14159265358979323846`.
- `shared_ptr` and `material*` ownership are not modelled; neither are the material constructors beyond storing their arguments. `metal`'s default `fuzz = 0` is the datatype's default.
- The commented-out stationary `trace` (sphere3.h:53-87) is dead code. `Spheres.MotionEquivalence` covers the behaviour it had.
- Virtual dispatch of `emit`: `diffuse_texlight` declares `emit(texcoord, position)`, which does not override `emit(u, v, p)`, so in C++ that class stays abstract. `Materials.Emit` therefore excludes it, and its own `emit` is the separate `Materials.TexLightEmit`, which is the emission texture's sample and carries no contract of its own.
- Degenerate inputs are preconditions, because the C++ divides by zero on them:
  - `Materials.LambertianScatter` requires `normal + p` to be non-zero (`unit_vector` of the zero vector).
  - `Materials.MetalScatter`, `Materials.Scatter2`, `Materials.TransmissiveScatter` and `Materials.DielectricScatter` require a non-zero incoming direction.
  - The last three also require `ior` to be neither 0 nor -1.
  - `Materials.Scatter` collects these per class in `ScatterDefined`.
  - `Optics.Refract` requires a non-zero incoming direction (`unit_vector` of it).
  - `Materials.ScatterPdf` and `Materials.CosineDensity` require a non-zero scattered direction; in C++ the zero vector gives NaN, which converts to `true`.
  - `Optics.Schlick` and `Optics.SchlickR0` require `ior != -1` (division by `1 + ior`).
- In `scatter2` the local `refracted` is default-constructed and stays unwritten when refraction fails. The model starts it at the zero vector. Under total internal reflection with `draw < 1` the reflected ray is always chosen, so that value is never used.
- `Materials.Scatter2`: the inside/outside branch that assigns `outward_normal`, `ni_over_nt` and `cosine` is taken from the function `Materials.Orientation`, not assigned branch by branch.
- `Materials.OrientationCosineAtMostOne` and `Materials.ReflectProbabilityFromOutside` are stated for rays arriving from outside only. From inside, the cosine `ior * dot / |d|` that `scatter2` passes to `schlick` is `ior` times the true cosine, so for `ior > 1` it exceeds 1 near normal incidence (true cosine above `1/ior`). Schlick's reflectance then falls below the normal-incidence value and can fall below 0, so the reflected ray is never chosen there. At grazing angles from inside the ray is totally internally reflected and `schlick` is not consulted. The model keeps this as written; `Materials.InsideNormalIncidenceNeverReflects` exhibits it.
- `Spheres.HeadOnHit` assumes only `sqrt(1) == 1`, which every `IsSqrt` function satisfies (`Vectors.SqrtOfSquare`).
- The integrator, scene dispatch, camera and rendering loop are not in these files.

## Findings

| source | as written | input that shows it | evidently intended | confidence | as-written member | corrected member |
|---|---|---|---|---|---|---|
| MacRayTracing/material.h:16-23 | `scatter_pdf` is declared `bool`, so the density `cosine / ONE_PI` it computes is converted to a truth value | unit normal `(0,0,1)` and scattered direction `(0,0,1)`: the density is `1/pi`, but the function returns `true`, which reads back as 1 | return the clamped cosine-weighted density `max(0, cosine) / pi` as a `float` | not executed | Materials.ScatterPdf, with Materials.ScatterPdfLosesDensity | Materials.CosineDensity |
