/** The geometry and intersection part of helper.js: the `Ray` and `Sphere`
    records, the ray/sphere quadratic, and the scan that picks the nearest
    sphere a ray hits. `Math.sqrt` is a parameter; IsSqrt states the only
    facts about it that the proofs use. */
module Intersection {
  import opened Wrappers
  import opened Colors
  import opened Vectors

  datatype Ray = Ray(origin: Vec3, direction: Vec3)

  datatype Sphere = Sphere(center: Vec3, radius: real, color: Color)

  /** The flat colour a sphere gets when none is given: `{ r: 255, g: 0, b: 0 }`. */
  const DefaultSphereColor := Color(255.0, 0.0, 0.0)

  /** The `Sphere` constructor: centre and radius are stored as given, an
      absent colour is replaced by the default red. */
  function NewSphere(center: Vec3, radius: real, color: Option<Color>): (s: Sphere)
    ensures s.center == center && s.radius == radius
    ensures color.Some? ==> s.color == color.value
    ensures color.None? ==> s.color == DefaultSphereColor
  {
    Sphere(center, radius, if color.Some? then color.value else DefaultSphereColor)
  }

  /** Building a sphere from the fields of another gives that sphere back. */
  lemma NewSphereRoundTrip(s: Sphere)
    ensures NewSphere(s.center, s.radius, Some(s.color)) == s
  {
  }

  /** What `Math.sqrt` returns for a non-negative argument: a non-negative
      number whose square is the argument. */
  ghost predicate IsSqrt(sqrt: real -> real)
  {
    forall x :: 0.0 <= x ==> 0.0 <= sqrt(x) && sqrt(x) * sqrt(x) == x
  }

  /** The coefficients of a * t * t + b * t + c. */
  datatype Quadratic = Quadratic(a: real, b: real, c: real)

  function Eval(q: Quadratic, t: real): real
  {
    q.a * t * t + q.b * t + q.c
  }

  function Discriminant(q: Quadratic): real
  {
    q.b * q.b - 4.0 * q.a * q.c
  }

  /** The quadratic that `intersectRaySphere` sets up for a ray and a sphere. */
  function Coefficients(ray: Ray, sphere: Sphere): Quadratic
  {
    var oc := Subtract(ray.origin, sphere.center);
    Quadratic(Dot(ray.direction, ray.direction),
              2.0 * Dot(oc, ray.direction),
              Dot(oc, oc) - sphere.radius * sphere.radius)
  }

  /** A ray whose leading coefficient a = dot(direction, direction) is not
      zero, so that the division in `intersectRaySphere` is defined. */
  predicate NonDegenerate(ray: Ray)
  {
    Dot(ray.direction, ray.direction) > 0.0
  }

  /** The point origin + t * direction on the ray's line. */
  function PointAt(ray: Ray, t: real): Vec3
  {
    Add(ray.origin, Scale(ray.direction, t))
  }

  predicate OnSurface(sphere: Sphere, p: Vec3)
  {
    var d := Subtract(p, sphere.center);
    Dot(d, d) == sphere.radius * sphere.radius
  }

  /** `intersectRaySphere`: the sentinel -1 when the discriminant is
      negative, otherwise the near root (-b - sqrt(disc)) / (2a), which may
      itself be negative. */
  function IntersectRaySphere(ray: Ray, sphere: Sphere, sqrt: real -> real): (t: real)
    requires NonDegenerate(ray)
    ensures Discriminant(Coefficients(ray, sphere)) < 0.0 ==> t == -1.0
  {
    var q := Coefficients(ray, sphere);
    var discriminant := Discriminant(q);
    if discriminant < 0.0 then -1.0
    else (-q.b - sqrt(discriminant)) / (2.0 * q.a)
  }

  /** The quadratic of a ray and a sphere measures, at each t, the squared
      distance of PointAt(ray, t) from the centre minus the squared radius;
      so its roots are exactly the parameters of the surface points. */
  lemma CoefficientsDescribeSurface(ray: Ray, sphere: Sphere, t: real)
    ensures var p := Subtract(PointAt(ray, t), sphere.center);
            Eval(Coefficients(ray, sphere), t) == Dot(p, p) - sphere.radius * sphere.radius
    ensures Eval(Coefficients(ray, sphere), t) == 0.0 <==> OnSurface(sphere, PointAt(ray, t))
  {
    var oc := Subtract(ray.origin, sphere.center);
    var d := ray.direction;
    var w := Scale(d, t);
    assert Subtract(PointAt(ray, t), sphere.center) == Add(oc, w);
    DotOfSum(oc, w);
    DotLinear(d, oc, oc, t);
    assert Dot(oc, w) == t * Dot(oc, d);
    DotLinear(d, oc, w, t);
    assert Dot(w, w) == t * Dot(d, w);
    assert Dot(d, w) == t * Dot(d, d);
  }

  /** The two roots of a quadratic with a > 0 and a square root s of its
      discriminant: both solve it, the near one is not above the far one,
      and the quadratic factors through them. */
  lemma QuadraticRoots(q: Quadratic, s: real)
    requires q.a > 0.0 && s >= 0.0 && s * s == Discriminant(q)
    ensures var near := (-q.b - s) / (2.0 * q.a);
            var far := (-q.b + s) / (2.0 * q.a);
            && near <= far
            && Eval(q, near) == 0.0
            && Eval(q, far) == 0.0
            && forall u :: Eval(q, u) == q.a * (u - near) * (u - far)
  {
    var a, b, c := q.a, q.b, q.c;
    var near := (-b - s) / (2.0 * a);
    var far := (-b + s) / (2.0 * a);
    assert 2.0 * a * near == -b - s;
    assert 2.0 * a * far == -b + s;
    assert 4.0 * a * (a * near * near + b * near + c)
        == (2.0 * a * near) * (2.0 * a * near) + 2.0 * b * (2.0 * a * near) + 4.0 * a * c;
    assert 4.0 * a * (a * far * far + b * far + c)
        == (2.0 * a * far) * (2.0 * a * far) + 2.0 * b * (2.0 * a * far) + 4.0 * a * c;
    assert a * (near + far) == -b;
    assert 4.0 * a * (a * near * far) == (2.0 * a * near) * (2.0 * a * far);
    assert a * near * far == c;
    forall u ensures Eval(q, u) == a * (u - near) * (u - far) {
      assert a * (u - near) * (u - far) == a * u * u - a * (near + far) * u + a * near * far;
    }
  }

  /** When the discriminant is not negative, the value returned is a root of
      the quadratic, so the ray's line meets the surface there; it is at
      most the far root, and no surface point lies at a smaller t. */
  lemma NearRootIsFirstSurfacePoint(ray: Ray, sphere: Sphere, sqrt: real -> real)
    requires IsSqrt(sqrt) && NonDegenerate(ray)
    requires Discriminant(Coefficients(ray, sphere)) >= 0.0
    ensures var q := Coefficients(ray, sphere);
            var t := IntersectRaySphere(ray, sphere, sqrt);
            var far := (-q.b + sqrt(Discriminant(q))) / (2.0 * q.a);
            && Eval(q, t) == 0.0
            && OnSurface(sphere, PointAt(ray, t))
            && t <= far && Eval(q, far) == 0.0
            && forall u :: OnSurface(sphere, PointAt(ray, u)) ==> t <= u
  {
    var q := Coefficients(ray, sphere);
    var s := sqrt(Discriminant(q));
    QuadraticRoots(q, s);
    var t := IntersectRaySphere(ray, sphere, sqrt);
    CoefficientsDescribeSurface(ray, sphere, t);
    forall u | OnSurface(sphere, PointAt(ray, u)) ensures t <= u {
      CoefficientsDescribeSurface(ray, sphere, u);
      RootIsNearOrFar(q, s, u);
    }
  }

  /** Every root of a quadratic with a > 0 is at or above its near root. */
  lemma RootIsNearOrFar(q: Quadratic, s: real, u: real)
    requires q.a > 0.0 && s >= 0.0 && s * s == Discriminant(q)
    requires Eval(q, u) == 0.0
    ensures (-q.b - s) / (2.0 * q.a) <= u
  {
    QuadraticRoots(q, s);
    var near := (-q.b - s) / (2.0 * q.a);
    var far := (-q.b + s) / (2.0 * q.a);
    assert q.a * (u - near) * (u - far) == 0.0;
    ZeroProduct(q.a, u - near, u - far);
  }

  lemma ZeroProduct(a: real, x: real, y: real)
    requires a > 0.0 && a * x * y == 0.0
    ensures x == 0.0 || y == 0.0
  {
    if y != 0.0 {
      assert a * x == (a * x * y) / y;
      assert x == (a * x) / a;
    }
  }

  /** When the discriminant is negative (and the sentinel -1 is returned), no
      point of the ray's line lies on the sphere. */
  lemma MissMeansNoSurfacePoint(ray: Ray, sphere: Sphere)
    requires NonDegenerate(ray)
    requires Discriminant(Coefficients(ray, sphere)) < 0.0
    ensures forall u :: !OnSurface(sphere, PointAt(ray, u))
  {
    var q := Coefficients(ray, sphere);
    forall u ensures !OnSurface(sphere, PointAt(ray, u)) {
      CoefficientsDescribeSurface(ray, sphere, u);
      var m := 2.0 * q.a * u + q.b;
      assert 4.0 * q.a * Eval(q, u) == m * m - Discriminant(q);
      assert m * m >= 0.0;
    }
  }

  /** A ray from the origin along -z meets the unit sphere centred at
      (0,0,-5) first at t = 4, the point (0,0,-4). */
  lemma FrontHitExample(sqrt: real -> real, color: Color)
    requires IsSqrt(sqrt)
    ensures var ray := Ray(Zero, Vec3(0.0, 0.0, -1.0));
            var sphere := Sphere(Vec3(0.0, 0.0, -5.0), 1.0, color);
            && NonDegenerate(ray)
            && IntersectRaySphere(ray, sphere, sqrt) == 4.0
            && PointAt(ray, 4.0) == Vec3(0.0, 0.0, -4.0)
  {
    var ray := Ray(Zero, Vec3(0.0, 0.0, -1.0));
    var sphere := Sphere(Vec3(0.0, 0.0, -5.0), 1.0, color);
    assert Coefficients(ray, sphere) == Quadratic(1.0, -10.0, 24.0);
    assert Discriminant(Quadratic(1.0, -10.0, 24.0)) == 4.0;
    var s := sqrt(4.0);
    assert s >= 0.0 && s * s == 4.0;
    assert 1.0 * (s - 2.0) * (s + 2.0) == 0.0;
    ZeroProduct(1.0, s - 2.0, s + 2.0);
  }

  /** The same sphere is missed by the ray along +x: the sentinel -1. */
  lemma MissExample(sqrt: real -> real, color: Color)
    ensures var ray := Ray(Zero, Vec3(1.0, 0.0, 0.0));
            var sphere := Sphere(Vec3(0.0, 0.0, -5.0), 1.0, color);
            && NonDegenerate(ray)
            && IntersectRaySphere(ray, sphere, sqrt) == -1.0
  {
    var ray := Ray(Zero, Vec3(1.0, 0.0, 0.0));
    var sphere := Sphere(Vec3(0.0, 0.0, -5.0), 1.0, color);
    assert Coefficients(ray, sphere) == Quadratic(1.0, 0.0, 24.0);
  }

  /** The record `findClosestIntersection` returns: `t` None stands for the
      initial Infinity and `sphere` None for null. */
  datatype Hit = Hit(t: Option<real>, sphere: Option<Sphere>)

  const NoHit := Hit(None, None)

  /** t < closestT, where an absent closestT is Infinity. */
  predicate Closer(t: real, closest: Option<real>)
  {
    closest.None? || t < closest.value
  }

  /** One iteration of the scan: a sphere replaces the current best when its
      value is positive and strictly smaller. */
  function Step(ray: Ray, sqrt: real -> real, best: Hit, sphere: Sphere): (r: Hit)
    requires NonDegenerate(ray)
    ensures r == best
            || (r.sphere == Some(sphere) && r.t == Some(IntersectRaySphere(ray, sphere, sqrt)) && r.t.value > 0.0)
    ensures best.t.Some? ==> r.t.Some? && r.t.value <= best.t.value
  {
    var t := IntersectRaySphere(ray, sphere, sqrt);
    if t > 0.0 && Closer(t, best.t) then Hit(Some(t), Some(sphere)) else best
  }

  /** The left-to-right scan as a function: Step applied to every sphere in order. */
  function Scan(ray: Ray, spheres: seq<Sphere>, sqrt: real -> real): (r: Hit)
    requires NonDegenerate(ray)
    ensures r.t.None? <==> r.sphere.None?
    ensures r.sphere.Some? ==> && r.sphere.value in spheres
                               && r.t == Some(IntersectRaySphere(ray, r.sphere.value, sqrt))
                               && r.t.value > 0.0
    decreases |spheres|
  {
    if spheres == [] then NoHit
    else
      var prefix := spheres[..|spheres| - 1];
      assert forall s :: s in prefix ==> s in spheres;
      Step(ray, sqrt, Scan(ray, prefix, sqrt), spheres[|spheres| - 1])
  }

  /** Position k holds the winner: its value is positive, no positive value
      in the sequence is smaller, and no earlier sphere has the same value. */
  ghost predicate FirstClosestAt(ray: Ray, spheres: seq<Sphere>, sqrt: real -> real, k: int)
    requires NonDegenerate(ray)
  {
    && 0 <= k < |spheres|
    && IntersectRaySphere(ray, spheres[k], sqrt) > 0.0
    && (forall i :: 0 <= i < |spheres| && IntersectRaySphere(ray, spheres[i], sqrt) > 0.0 ==>
          IntersectRaySphere(ray, spheres[k], sqrt) <= IntersectRaySphere(ray, spheres[i], sqrt))
    && (forall i :: 0 <= i < k ==>
          IntersectRaySphere(ray, spheres[i], sqrt) != IntersectRaySphere(ray, spheres[k], sqrt))
  }

  /** The declarative meaning of the scan's result: either no sphere has a
      positive value and the result is the "no hit" pair (Infinity, null), or
      the result is the first-found sphere of smallest positive value, with
      that value. */
  ghost predicate IsClosest(ray: Ray, spheres: seq<Sphere>, sqrt: real -> real, h: Hit)
    requires NonDegenerate(ray)
  {
    if h.sphere.None? then
      h.t.None? && forall i :: 0 <= i < |spheres| ==> IntersectRaySphere(ray, spheres[i], sqrt) <= 0.0
    else
      exists k :: FirstClosestAt(ray, spheres, sqrt, k)
               && h == Hit(Some(IntersectRaySphere(ray, spheres[k], sqrt)), Some(spheres[k]))
  }

  /** The scan computes the declarative result. */
  lemma {:induction false} ScanIsClosest(ray: Ray, spheres: seq<Sphere>, sqrt: real -> real)
    requires NonDegenerate(ray)
    ensures IsClosest(ray, spheres, sqrt, Scan(ray, spheres, sqrt))
    decreases |spheres|
  {
    if spheres != [] {
      var n := |spheres| - 1;
      var prefix := spheres[..n];
      assert spheres == prefix + [spheres[n]];
      ScanIsClosest(ray, prefix, sqrt);
      var best := Scan(ray, prefix, sqrt);
      var t := IntersectRaySphere(ray, spheres[n], sqrt);
      if t > 0.0 && Closer(t, best.t) {
        NewBestIsClosest(ray, prefix, spheres[n], sqrt, best);
      } else if best.sphere.Some? {
        var k :| FirstClosestAt(ray, prefix, sqrt, k)
                 && best == Hit(Some(IntersectRaySphere(ray, prefix[k], sqrt)), Some(prefix[k]));
        BestIsKept(ray, prefix, spheres[n], sqrt, k);
      } else {
        NoHitIsKept(ray, prefix, spheres[n], sqrt);
      }
    }
  }

  /** A sphere that beats the best of a prefix is the winner of the extended sequence. */
  lemma NewBestIsClosest(ray: Ray, prefix: seq<Sphere>, last: Sphere, sqrt: real -> real, best: Hit)
    requires NonDegenerate(ray)
    requires IsClosest(ray, prefix, sqrt, best)
    requires IntersectRaySphere(ray, last, sqrt) > 0.0 && Closer(IntersectRaySphere(ray, last, sqrt), best.t)
    ensures FirstClosestAt(ray, prefix + [last], sqrt, |prefix|)
  {
    var spheres := prefix + [last];
    var t := IntersectRaySphere(ray, last, sqrt);
    assert forall i :: 0 <= i < |prefix| ==> spheres[i] == prefix[i];
    if best.sphere.Some? {
      var k :| FirstClosestAt(ray, prefix, sqrt, k)
               && best == Hit(Some(IntersectRaySphere(ray, prefix[k], sqrt)), Some(prefix[k]));
      assert t < IntersectRaySphere(ray, prefix[k], sqrt);
    }
  }

  /** The winner of a prefix stays the winner when the next sphere does not beat it. */
  lemma BestIsKept(ray: Ray, prefix: seq<Sphere>, last: Sphere, sqrt: real -> real, k: int)
    requires NonDegenerate(ray)
    requires FirstClosestAt(ray, prefix, sqrt, k)
    requires var t := IntersectRaySphere(ray, last, sqrt);
             !(t > 0.0 && t < IntersectRaySphere(ray, prefix[k], sqrt))
    ensures FirstClosestAt(ray, prefix + [last], sqrt, k)
  {
    var spheres := prefix + [last];
    assert forall i :: 0 <= i < |prefix| ==> spheres[i] == prefix[i];
    assert spheres[|prefix|] == last;
  }

  /** "No hit" stays "no hit" when the next sphere has no positive value. */
  lemma NoHitIsKept(ray: Ray, prefix: seq<Sphere>, last: Sphere, sqrt: real -> real)
    requires NonDegenerate(ray)
    requires forall i :: 0 <= i < |prefix| ==> IntersectRaySphere(ray, prefix[i], sqrt) <= 0.0
    requires IntersectRaySphere(ray, last, sqrt) <= 0.0
    ensures var spheres := prefix + [last];
            forall i :: 0 <= i < |spheres| ==> IntersectRaySphere(ray, spheres[i], sqrt) <= 0.0
  {
    var spheres := prefix + [last];
    assert forall i :: 0 <= i < |prefix| ==> spheres[i] == prefix[i];
    assert spheres[|prefix|] == last;
  }

  /** At most one result satisfies IsClosest, so IsClosest is a complete
      specification of the scan. */
  lemma ClosestIsUnique(ray: Ray, spheres: seq<Sphere>, sqrt: real -> real, h1: Hit, h2: Hit)
    requires NonDegenerate(ray)
    requires IsClosest(ray, spheres, sqrt, h1) && IsClosest(ray, spheres, sqrt, h2)
    ensures h1 == h2
  {
    if h1.sphere.Some? != h2.sphere.Some? {
      assert false;
    } else if h1.sphere.Some? {
      var k1 :| FirstClosestAt(ray, spheres, sqrt, k1)
                && h1 == Hit(Some(IntersectRaySphere(ray, spheres[k1], sqrt)), Some(spheres[k1]));
      var k2 :| FirstClosestAt(ray, spheres, sqrt, k2)
                && h2 == Hit(Some(IntersectRaySphere(ray, spheres[k2], sqrt)), Some(spheres[k2]));
      assert IntersectRaySphere(ray, spheres[k1], sqrt) == IntersectRaySphere(ray, spheres[k2], sqrt);
      assert !(k1 < k2) && !(k2 < k1);
    }
  }

  /** The scan's distance in terms of membership only: Infinity exactly when
      no sphere of the sequence has a positive value, and otherwise the
      smallest positive value of a sphere of the sequence. */
  lemma ScanDistance(ray: Ray, spheres: seq<Sphere>, sqrt: real -> real)
    requires NonDegenerate(ray)
    ensures var h := Scan(ray, spheres, sqrt);
            && (h.t.None? <==> forall s :: s in spheres ==> IntersectRaySphere(ray, s, sqrt) <= 0.0)
            && (h.t.Some? ==>
                  && h.t.value > 0.0
                  && (exists s :: s in spheres && IntersectRaySphere(ray, s, sqrt) == h.t.value)
                  && forall s :: s in spheres && IntersectRaySphere(ray, s, sqrt) > 0.0 ==>
                       h.t.value <= IntersectRaySphere(ray, s, sqrt))
  {
    ScanIsClosest(ray, spheres, sqrt);
    var h := Scan(ray, spheres, sqrt);
    if h.sphere.Some? {
      var k :| FirstClosestAt(ray, spheres, sqrt, k)
               && h == Hit(Some(IntersectRaySphere(ray, spheres[k], sqrt)), Some(spheres[k]));
      assert spheres[k] in spheres;
    }
  }

  /** Reordering the spheres can change which of two equally near spheres is
      returned, but never the distance. */
  lemma ClosestDistanceIgnoresOrder(ray: Ray, s1: seq<Sphere>, s2: seq<Sphere>, sqrt: real -> real)
    requires NonDegenerate(ray)
    requires multiset(s1) == multiset(s2)
    ensures Scan(ray, s1, sqrt).t == Scan(ray, s2, sqrt).t
  {
    assert forall s :: s in s1 <==> s in s2 by {
      forall s ensures s in s1 <==> s in s2 {
        assert s in s1 <==> s in multiset(s1);
        assert s in s2 <==> s in multiset(s2);
      }
    }
    ScanDistance(ray, s1, sqrt);
    ScanDistance(ray, s2, sqrt);
  }

  /** `findClosestIntersection`: the `for...of` loop over the spheres. */
  method FindClosestIntersection(ray: Ray, spheres: seq<Sphere>, sqrt: real -> real) returns (hit: Hit)
    requires NonDegenerate(ray)
    ensures hit == Scan(ray, spheres, sqrt)
    ensures IsClosest(ray, spheres, sqrt, hit)
  {
    var closestT: Option<real> := None;
    var closestSphere: Option<Sphere> := None;
    for i := 0 to |spheres|
      invariant Hit(closestT, closestSphere) == Scan(ray, spheres[..i], sqrt)
    {
      var t := IntersectRaySphere(ray, spheres[i], sqrt);
      if t > 0.0 && (closestT.None? || t < closestT.value) {
        closestT := Some(t);
        closestSphere := Some(spheres[i]);
      }
      assert spheres[..i + 1][..i] == spheres[..i];
    }
    assert spheres[..|spheres|] == spheres;
    hit := Hit(closestT, closestSphere);
    ScanIsClosest(ray, spheres, sqrt);
  }
}
