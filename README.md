# Ray/sphere intersection and Phong shading, modelled in Dafny

This project models the geometric and photometric core of a small JavaScript
ray tracer. There are two parts:

- `helper.js`: the vector kernel (`add`, `subtract`, `scale`, `dot`), the
  `Ray` and `Sphere` records, `intersectRaySphere` (the ray/sphere quadratic
  with its near root and its `-1` "no intersection" sentinel), and
  `findClosestIntersection` (a left-to-right scan that keeps the sphere with
  the smallest strictly positive distance).
- `lighting.js`: the `Material` and `Light` constructors with their checks
  and defaults, the ambient, diffuse and specular terms, `reflect`, and
  `calculatePhongColor`, which adds the three terms per channel and clamps
  the sum from above at 1.0.

Numbers are Dafny `real`s. `Math.sqrt` and `Math.pow` are function-typed
parameters. The only facts the proofs use about them are `IsSqrt` (for
x >= 0, sqrt(x) >= 0 and sqrt(x) * sqrt(x) == x) and `IsPow` (pow(0, s) == 0
for s > 0, and pow(x, s) >= 0 for x >= 0). A JavaScript argument that may be
absent is an `Option`. Each `throw` becomes a `Failure` that carries the
source's message. JavaScript's `Infinity` for "no hit yet" and its `null` for
"no sphere" are both `None`.

Files:

- `Wrappers.dfy`: `Option` and `Result`.
- `Colors.dfy`: the `{ r, g, b }` record and a channel selector, so that
  per-channel properties are stated once.
- `Vectors.dfy`: the vector kernel and its algebra.
- `Intersection.dfy`: rays, spheres, the quadratic, and the nearest-hit scan.
  The scan is specified three ways. `Scan` is the loop as a fold.
  `IsClosest` is the declarative rule: membership, minimality, first found
  wins on ties, and the no-hit sentinel. `FindClosestIntersection` is the
  loop itself, proved equal to both.
- `Lighting.dfy`: materials, lights, the three Phong terms, reflection and
  the clamped sum.

Behaviour of the code that the model keeps as written:

- `Material` has no default colours: `lighting.js:7-9` throws unless
  ambient, diffuse and specular are all given.
- `Sphere` stores any radius, zero and negative ones included
  (`helper.js:40-44`).
- The record `findClosestIntersection` returns holds only `t` and `sphere`;
  there is no hit point (`helper.js:76`).
- The specular term is not gated by dot(normal, lightDir). Only the diffuse
  term depends on that sign (`lighting.js:47`); the specular term depends on
  dot(viewDir, reflect(lightDir, normal)) alone (`lighting.js:60-61`).
  `Lighting.SpecularIgnoresLightSide` and `Lighting.LightBehindWithHighlight`
  state this behaviour.

## Model

| member | source | states |
|---|---|---|
| `Vectors.Add` | helper.js:6-8 | the component-wise sum, from which subtracting b gives a back |
| `Vectors.Subtract` | helper.js:10-12 | the component-wise difference, which is the zero vector exactly when the two vectors are equal |
| `Vectors.Scale` | helper.js:14-16 | each component multiplied by the factor; its laws are stated by `ScaleLaws` and `DotLinear` |
| `Vectors.Dot` | helper.js:22-24 | the sum of the three component products; its symmetry, linearity and sign are stated by the `Dot…` lemmas |
| `Vectors.SubtractUndoesAdd` | helper.js:6-12 | subtracting b undoes adding b, in both orders, and a - a is the zero vector |
| `Vectors.AddCommutes` | helper.js:6-8 | addition is commutative and has the zero vector as identity |
| `Vectors.ScaleLaws` | helper.js:14-16 | scaling by 1 is the identity, by 0 gives zero, and two scalings compose by multiplying the factors |
| `Vectors.DotSymmetric` | helper.js:22-24 | dot(a, b) == dot(b, a) |
| `Vectors.DotLinear` | helper.js:22-24 | dot is linear over add, subtract and scale |
| `Vectors.DotOfSum` | helper.js:22-24 | dot(u + w, u + w) == dot(u, u) + 2 dot(u, w) + dot(w, w) |
| `Vectors.DotSelfNonNegative` | helper.js:22-24 | dot(v, v) >= 0 for every v |
| `Intersection.NewSphere` | helper.js:40-44 | centre and radius are stored as given; the colour is the given one when present and { r: 255, g: 0, b: 0 } when absent |
| `Intersection.NewSphereRoundTrip` | helper.js:40-44 | rebuilding a sphere from its own fields gives the same sphere |
| `Intersection.IntersectRaySphere` | helper.js:48-61 | the result is exactly -1 when b*b - 4ac < 0, with a, b, c the coefficients set up from the ray and the sphere |
| `Intersection.CoefficientsDescribeSurface` | helper.js:49-52 | for every t, a*t*t + b*t + c is the squared distance of origin + t*direction from the centre minus radius squared, so its roots are exactly the surface points on the ray's line |
| `Intersection.QuadraticRoots` | helper.js:53-60 | when a > 0 and s is a square root of the discriminant, both (-b - s)/2a and (-b + s)/2a are roots, the first is <= the second, and the quadratic factors through them |
| `Intersection.RootIsNearOrFar` | helper.js:59 | every root of a quadratic with a > 0 is at or above the near root (-b - s)/2a |
| `Intersection.NearRootIsFirstSurfacePoint` | helper.js:53-60 | for a discriminant >= 0 the returned t solves the quadratic, is on the sphere, is <= the far root (which also solves it), and is <= every t at which the ray's line meets the sphere |
| `Intersection.MissMeansNoSurfacePoint` | helper.js:53-57 | when the discriminant is negative, no point of the ray's line lies on the sphere |
| `Intersection.FrontHitExample` | helper.js:48-61 | a ray from the origin along -z meets the unit sphere at (0,0,-5) at t = 4, the point (0,0,-4) |
| `Intersection.MissExample` | helper.js:55-57 | the ray along +x misses that sphere and gets the sentinel -1 |
| `Intersection.Step` | helper.js:68-74 | one iteration of the loop: the best is kept, or replaced by this sphere with its value, which is then positive; a present best distance never grows |
| `Intersection.Scan` | helper.js:64-77 | the loop as a left-to-right fold: t and sphere are absent together, and a present sphere is one of the spheres, with its own value as t, and that value is positive |
| `Intersection.NewBestIsClosest` | helper.js:70-73 | a sphere whose value is positive and strictly below the current best wins the extended sequence |
| `Intersection.BestIsKept` | helper.js:70 | a sphere that does not beat the current best leaves the winner unchanged, so equal values keep the earlier sphere |
| `Intersection.NoHitIsKept` | helper.js:65-70 | with no positive value so far and none for the next sphere, there is still none |
| `Intersection.ScanIsClosest` | helper.js:64-77 | the scan's result is either (Infinity, null) with no sphere having a positive value, or the earliest sphere of the sequence whose value is the smallest positive one, together with that value |
| `Intersection.ClosestIsUnique` | helper.js:64-77 | at most one result meets that rule, so the rule fully specifies the scan |
| `Intersection.ScanDistance` | helper.js:64-77 | the returned t is Infinity exactly when no sphere in the sequence has a positive value; otherwise it is positive, it is the value of some sphere in the sequence, and it is <= every positive value |
| `Intersection.ClosestDistanceIgnoresOrder` | helper.js:68-74 | reordering the spheres never changes the returned distance |
| `Intersection.FindClosestIntersection` | helper.js:64-77 | the loop returns the scan's result, so it meets the rule: membership, minimality, first found wins on ties, and (Infinity, null) when nothing is hit |
| `Lighting.NewMaterial` | lighting.js:6-14 | fails with the source's message exactly when ambient, diffuse or specular is absent; otherwise it stores them, keeps a given non-zero shininess, and uses 32.0 when the shininess is absent or 0, so a built material never has shininess 0 |
| `Lighting.NewMaterialRoundTrip` | lighting.js:10-13 | a material with non-zero shininess is rebuilt unchanged from its own fields |
| `Lighting.NewLight` | lighting.js:19-27 | fails exactly when the position is absent; otherwise it keeps the position, and each absent colour becomes 0.2, 0.8 or 1.0 in every channel (ambient, diffuse, specular) |
| `Lighting.NewLightRoundTrip` | lighting.js:23-26 | a light is rebuilt unchanged from its own fields |
| `Lighting.CalculateAmbient` | lighting.js:31-40 | fails exactly when the material or the light is absent; otherwise each channel is material ambient times light ambient |
| `Lighting.AmbientDependsOnlyOnAmbientColors` | lighting.js:35-39 | two materials and lights with the same ambient colours give the same ambient term |
| `Lighting.CalculateDiffuse` | lighting.js:43-53 | fails exactly when an argument is absent; it is black when dot(normal, lightDir) <= 0, and otherwise each channel is material diffuse times light diffuse times that dot product |
| `Lighting.DiffuseVanishesWhenLitFromBehind` | lighting.js:47-52 | the diffuse term is black whenever dot(normal, lightDir) <= 0 |
| `Lighting.Reflection` | lighting.js:74-75 | 2 dot(i, n) n - i; the normal bisects i and its reflection, their sum being 2 dot(i, n) n |
| `Lighting.Reflect` | lighting.js:70-76 | fails exactly when the incident or the normal vector is absent; otherwise returns 2 dot(i, n) n - i |
| `Lighting.ReflectionOfNormal` | lighting.js:74-75 | for a unit n, reflect(n, n) == n |
| `Lighting.ReflectionKeepsNormalComponent` | lighting.js:74-75 | for a unit n, dot(reflect(i, n), n) == dot(i, n) |
| `Lighting.ReflectionKeepsLength` | lighting.js:74-75 | for a unit n, dot(reflect(i, n), reflect(i, n)) == dot(i, i) |
| `Lighting.ReflectionIsInvolution` | lighting.js:74-75 | for a unit n, reflecting twice gives the vector back |
| `Lighting.SpecularFactor` | lighting.js:60-61 | pow(max(dot(viewDir, reflect(lightDir, normal)), 0), shininess); never negative, and 0 when the shininess is positive and the view is away from the reflected light |
| `Lighting.CalculateSpecular` | lighting.js:56-67 | fails exactly when an argument is absent; otherwise each channel is material specular times light specular times pow(max(dot(viewDir, reflect(lightDir, normal)), 0), shininess) |
| `Lighting.SpecularVanishesWhenViewedAway` | lighting.js:60-66 | with shininess > 0, the specular term is black whenever dot(viewDir, reflect(lightDir, normal)) <= 0 |
| `Lighting.SpecularIgnoresLightSide` | lighting.js:47-66 | with the light behind the surface the diffuse term is black, while the specular term keeps its full value whenever the view lies on the side of the reflected light |
| `Lighting.LightBehindWithHighlight` | lighting.js:60-61 | for every unit normal n, light and view direction -n put the light behind the surface while dot(viewDir, reflect(lightDir, n)) > 0 |
| `Lighting.CalculatePhongColor` | lighting.js:79-92 | fails with the source's message exactly when one of the five arguments is absent; otherwise every channel is <= 1.0, equals ambient + diffuse + specular when that sum is <= 1.0, and is 1.0 when the sum is above |
| `Lighting.PhongColorInUnitRange` | lighting.js:83-91 | with non-negative material and light colours, every channel of the Phong colour is in [0, 1] |
| `Lighting.UnlitSurfaceShowsAmbientOnly` | lighting.js:83-91 | with the light behind the surface, the view away from the reflected light and shininess > 0, each channel is min(material ambient times light ambient, 1) |
| `Lighting.TermsAgreeOn` | lighting.js:35-66 | each of the three terms, on one channel, depends only on that channel of the colours (and on the shared geometry and shininess) |
| `Lighting.PhongChannelsAreIndependent` | lighting.js:87-91 | one channel of the Phong colour depends only on that channel of the six material and light colours |

## Left out

- IEEE-754 behaviour (rounding, NaN, signed zero, overflow) is not modelled: numbers are exact reals, and `Infinity` is only the `None` of `Hit.t`.
- Intersection.IntersectRaySphere: requires a = dot(direction, direction) > 0 (`NonDegenerate`). The source divides by 2a without a guard, and a zero direction would give a JavaScript infinity or NaN, which has no real-number counterpart.
- Intersection.FindClosestIntersection: requires `NonDegenerate` as well, like `Step`, `Scan` and `IsClosest`, because each sphere's value comes from `IntersectRaySphere`. For a zero direction the source gets b = 0, a discriminant of 0 and t = 0/0 = NaN for every sphere; `NaN > 0` is false at helper.js:70, so it returns `{ t: Infinity, sphere: null }`, which is `NoHit`. The model does not cover that case.
- `normalize` and `length` (helper.js:18-28) are not modelled: they need `Math.sqrt`, are undefined for the zero vector, and nothing in the modelled core calls them.
- `Math.sqrt` and `Math.pow` have no concrete values: only the facts in `IsSqrt` and `IsPow` are used.
- gl-matrix itself (`vec3`, `mat4`) is not part of this model. A vector is a three-field value. Because every operation builds a new value, aliasing and in-place updates of `vec3.create()` results cannot arise, and "the arguments are left unchanged" holds by construction rather than being proved.
- `findClosestIntersection` returns the sphere object by reference in JavaScript. Here spheres are values, so two equal spheres cannot be told apart; first found wins is stated by position in the sequence.
- JavaScript truthiness is modelled only as "absent": `shininess || 32.0` also treats 0 as absent. Other falsy values (NaN, empty strings) and present arguments of the wrong shape (a material object without an `ambient` field) are not modelled.
- `Sphere.getIntersectionPoint` and `Sphere.getNormal` are not part of this model: neither file defines them. `PointAt` and `OnSurface` are used only to state what the roots of the quadratic mean.
- The light's `position` is stored but no modelled operation reads it. The light direction is passed in by the caller, as in the source.
- Rendering, camera, framebuffer and pixel output are not part of these files.
