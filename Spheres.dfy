/**
  Spheres (raylib/SphereShape.cs). The square root of the discriminant and of the
  normal's length is the parameter `sqrt`.
 */
module Spheres {
  import opened Vectors
  import opened Boxes
  import opened Hits
  import opened Materials

  datatype Sphere = Sphere(position: Vec, radius: real, material: Material)

  /** Half the linear coefficient of the ray/sphere quadratic: (origin - centre) . direction. */
  function HalfB(s: Sphere, ray: Ray): real {
    Dot(Sub(ray.position, s.position), ray.direction)
  }

  /** The constant term: |origin - centre|^2 - R^2 (negative exactly when the origin is inside). */
  function ConstC(s: Sphere, ray: Ray): real {
    var dst := Sub(ray.position, s.position);
    Dot(dst, dst) - s.radius * s.radius
  }

  function Discriminant(s: Sphere, ray: Ray): real {
    HalfB(s, ray) * HalfB(s, ray) - ConstC(s, ray)
  }

  /** Intersect: no hit unless the discriminant is positive; otherwise the nearer root -b - sqrt(d),
      with no check of its sign, the point there, the normalised offset of that point from the
      centre as the normal, the material colour at (0, 0) and the sphere's id. */
  function Intersect(s: Sphere, id: int, ray: Ray, sqrt: real -> real): (r: IntersectionInfo)
    ensures Discriminant(s, ray) <= 0.0 ==> r == NoHit
    ensures Discriminant(s, ray) > 0.0 ==>
              r.elementId == id
              && r.distance == -HalfB(s, ray) - sqrt(Discriminant(s, ray))
              && r.position == Add(ray.position, Scale(ray.direction, r.distance))
              && r.color == GetColor(s.material, 0.0, 0.0)
              && r.normal == Normalize(Sub(r.position, s.position), sqrt)
  {
    var d := Discriminant(s, ray);
    if d > 0.0 then
      var distance := -HalfB(s, ray) - sqrt(d);
      var position := Add(ray.position, Scale(ray.direction, distance));
      var normal := Normalize(Sub(position, s.position), sqrt);
      IntersectionInfo(GetColor(s.material, 0.0, 0.0), distance, normal, position, id)
    else
      NoHit
  }

  /** GetMaterial */
  function GetMaterial(s: Sphere): Material {
    s.material
  }

  /** CalculateBoundingPlanes: the projected centre plus the radius as Min and minus it as Max,
      so the interval is reversed (Min - Max = 2R) for every positive radius. */
  function CalculateBoundingPlanes(s: Sphere, unit: Vec): (r: Bound)
    ensures r.min - r.max == 2.0 * s.radius
    ensures s.radius > 0.0 ==> r.max < r.min
    ensures (r.min + r.max) / 2.0 == Dot(unit, s.position)
  {
    var cd := Dot(unit, s.position);
    Bound(cd + s.radius, cd - s.radius)
  }

  /** BoundingBox.FromShape applied to a sphere: centred on the sphere, with each min corner
      coordinate 2R above the max one. */
  function BoundingBox(s: Sphere): (b: Box)
    ensures b.boxMin.x - b.boxMax.x == 2.0 * s.radius && b.boxMin.y - b.boxMax.y == 2.0 * s.radius
    ensures b.boxMin.z - b.boxMax.z == 2.0 * s.radius
    ensures Scale(Add(b.boxMin, b.boxMax), 0.5) == s.position
  {
    DotWithUnitAxes(s.position);
    FromBounds(CalculateBoundingPlanes(s, UnitX), CalculateBoundingPlanes(s, UnitY),
               CalculateBoundingPlanes(s, UnitZ))
  }

  /** The box the sphere evidently calls for: the projected centre minus the radius as Min and
      plus it as Max on each axis. For a positive radius it is well formed and holds the centre
      strictly inside. */
  function CorrectedBoundingBox(s: Sphere): (b: Box)
    ensures b.boxMax.x - b.boxMin.x == 2.0 * s.radius && b.boxMax.y - b.boxMin.y == 2.0 * s.radius
    ensures b.boxMax.z - b.boxMin.z == 2.0 * s.radius
    ensures Scale(Add(b.boxMin, b.boxMax), 0.5) == s.position
    ensures s.radius > 0.0 ==> IsWellFormed(b) && IsPointInside(b, s.position)
  {
    var r := Vec(s.radius, s.radius, s.radius);
    Box(Sub(s.position, r), Add(s.position, r))
  }

  /** A sphere of positive radius gets an EMPTY box: its min corner lies above its max corner. */
  lemma PositiveRadiusBoxIsEmpty(s: Sphere)
    requires s.radius > 0.0
    ensures IsEmpty(BoundingBox(s)) && !IsWellFormed(BoundingBox(s))
    ensures BoundingBox(s).boxMin == Add(s.position, Vec(s.radius, s.radius, s.radius))
    ensures BoundingBox(s).boxMax == Sub(s.position, Vec(s.radius, s.radius, s.radius))
  {
    DotWithUnitAxes(s.position);
  }

  /** |a + t D|^2 expanded. */
  lemma NormSquaredAlongRay(a: Vec, dir: Vec, t: real)
    ensures Dot(Add(a, Scale(dir, t)), Add(a, Scale(dir, t)))
            == Dot(a, a) + 2.0 * t * Dot(a, dir) + t * t * Dot(dir, dir)
  {
    SquareOfShifted(a.x, dir.x, t);
    SquareOfShifted(a.y, dir.y, t);
    SquareOfShifted(a.z, dir.z, t);
  }

  lemma SquareOfShifted(a: real, d: real, t: real)
    ensures (a + d * t) * (a + d * t) == a * a + 2.0 * t * (a * d) + t * t * (d * d)
  {
  }

  /** The nearer root t = -b - root of t^2 + 2bt + c = 0, when root^2 = b^2 - c. */
  lemma NearerRootSolves(b: real, c: real, root: real)
    requires root * root == b * b - c
    ensures var t := -b - root; t * t + 2.0 * t * b == -c
  {
    var t := -b - root;
    assert t * t == b * b + 2.0 * b * root + root * root;
    assert 2.0 * t * b == -2.0 * b * b - 2.0 * b * root;
  }

  /** A non-negative number whose square exceeds b^2 exceeds |b|. */
  lemma RootDominates(b: real, root: real)
    requires root >= 0.0 && root * root > b * b
    ensures root > b && root > -b
  {
  }

  /** For a unit direction and a square root that is exact at the discriminant, the reported
      point lies on the sphere. */
  lemma {:induction false} HitLiesOnSphere(s: Sphere, id: int, ray: Ray, sqrt: real -> real)
    requires Dot(ray.direction, ray.direction) == 1.0
    requires Discriminant(s, ray) > 0.0
    requires sqrt(Discriminant(s, ray)) * sqrt(Discriminant(s, ray)) == Discriminant(s, ray)
    ensures var p := Intersect(s, id, ray, sqrt).position;
      Dot(Sub(p, s.position), Sub(p, s.position)) == s.radius * s.radius
  {
    HitOffsetFromCentre(s, id, ray, sqrt);
    NearerRootOnSphere(s, ray, sqrt);
  }

  /** The point at the nearer root, as an offset from the centre, has squared length R^2. */
  lemma NearerRootOnSphere(s: Sphere, ray: Ray, sqrt: real -> real)
    requires Dot(ray.direction, ray.direction) == 1.0
    requires Discriminant(s, ray) > 0.0
    requires sqrt(Discriminant(s, ray)) * sqrt(Discriminant(s, ray)) == Discriminant(s, ray)
    ensures var v := Add(Sub(ray.position, s.position), Scale(ray.direction, -HalfB(s, ray) - sqrt(Discriminant(s, ray))));
      Dot(v, v) == s.radius * s.radius
  {
    var dst := Sub(ray.position, s.position);
    var b, c, d := HalfB(s, ray), ConstC(s, ray), Discriminant(s, ray);
    var root := sqrt(d);
    assert d == b * b - c;
    NearerRootSolves(b, c, root);
    PointAtRootOnSphere(dst, ray.direction, -b - root, b, c, s.radius * s.radius);
  }

  /** The reported point's offset from the centre is (origin - centre) + t D. */
  lemma HitOffsetFromCentre(s: Sphere, id: int, ray: Ray, sqrt: real -> real)
    requires Discriminant(s, ray) > 0.0
    ensures Sub(Intersect(s, id, ray, sqrt).position, s.position)
            == Add(Sub(ray.position, s.position), Scale(ray.direction, -HalfB(s, ray) - sqrt(Discriminant(s, ray))))
  {
  }

  /** A parameter t solving t^2 + 2bt + c = 0 along a unit direction puts the point at squared
      distance r2 from the centre, where b and c are the quadratic's coefficients. */
  lemma PointAtRootOnSphere(dst: Vec, dir: Vec, t: real, b: real, c: real, r2: real)
    requires Dot(dir, dir) == 1.0 && b == Dot(dst, dir) && c == Dot(dst, dst) - r2
    requires t * t + 2.0 * t * b == -c
    ensures Dot(Add(dst, Scale(dir, t)), Add(dst, Scale(dir, t))) == r2
  {
    NormSquaredAlongRay(dst, dir, t);
    DotCommutative(dst, dir);
    calc {
      Dot(Add(dst, Scale(dir, t)), Add(dst, Scale(dir, t)));
    ==
      Dot(dst, dst) + 2.0 * t * b + t * t * 1.0;
    ==
      Dot(dst, dst) + (t * t + 2.0 * t * b);
    ==
      r2;
    }
  }

  /** No sign check on the distance: when the ray starts inside the sphere, the reported hit
      lies behind the origin (for a square root that is exact and non-negative). */
  lemma InsideOriginGivesNegativeDistance(s: Sphere, id: int, ray: Ray, sqrt: real -> real)
    requires ConstC(s, ray) < 0.0
    requires sqrt(Discriminant(s, ray)) >= 0.0
    requires sqrt(Discriminant(s, ray)) * sqrt(Discriminant(s, ray)) == Discriminant(s, ray)
    ensures IsHit(Intersect(s, id, ray, sqrt)) <==> id != 0
    ensures Intersect(s, id, ray, sqrt).distance < 0.0
  {
    var b, d := HalfB(s, ray), Discriminant(s, ray);
    SquareNonNegative(b);
    assert d > b * b;
    RootDominates(b, sqrt(d));
  }
}
