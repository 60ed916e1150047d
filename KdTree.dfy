/**
  The KD-tree over the scene's shapes (raylib/KdTree.cs): the root box encloses every
  shape's box; each internal node splits its box by an axis-aligned plane chosen by a
  surface-area cost over twelve candidates; shapes are sent to the side whose box they
  overlap. A query descends front child first and keeps the nearest qualifying hit of a leaf.

  The shape's own intersection routine is the parameter `hit` (the result of
  shape.Intersect(ray) for the ray at hand).
 */
module KdTrees {
  import opened Wrappers
  import opened Vectors
  import opened Boxes
  import opened Hits
  import opened Shapes

  /** The three split planes, named by the two axes they contain. */
  datatype Axis = XY | YZ | XZ

  /** KdNodePlane: no plane (a leaf) or one of the three planes. */
  datatype PlaneChoice = NoPlane | Split(axis: Axis)

  /** A leaf keeps its shapes; an internal node keeps its plane, the plane's coordinate and two
      children (its shape list is always empty in the source and is not kept here, nor are the
      null children of a leaf). */
  datatype KdNode =
    | Leaf(shapes: seq<Shape>)
    | Node(axis: Axis, coord: Vec, left: KdNode, right: KdNode)

  datatype KdTree = KdTree(root: KdNode, bbox: Box)

  const MaxTreeDepth := 20
  const NumObjectsInLeaf := 1
  const MaxSplits := 5
  const SplitCost := 5.0

  /** The coordinate across a plane: z for XY, y for XZ, x for YZ. */
  function Across(axis: Axis, v: Vec): real {
    match axis
    case XY => v.z
    case XZ => v.y
    case YZ => v.x
  }

  /** v with its coordinate across the plane replaced by c. */
  function MoveAcross(axis: Axis, v: Vec, c: real): (r: Vec)
    ensures Across(axis, r) == c
  {
    match axis
    case XY => Vec(v.x, v.y, c)
    case XZ => Vec(v.x, c, v.z)
    case YZ => Vec(c, v.y, v.z)
  }

  function PointAt(ray: Ray, k: real): Vec {
    Add(ray.position, Scale(ray.direction, k))
  }

  /** Within: strictly between the two ends. */
  predicate Within(v: real, lo: real, hi: real) {
    v > lo && v < hi
  }

  // ----- Ray against boxes -----

  /** GetVectorPlaneIntersection: the point where the ray meets the plane through coord, or None
      when the plane lies behind the ray origin. A direction parallel to the plane, where the
      source divides by zero and produces a point that no Within test accepts, is None too. */
  function GetVectorPlaneIntersection(ray: Ray, axis: Axis, coord: Vec): (r: Option<Vec>)
    ensures r.Some? ==> Across(axis, r.value) == Across(axis, coord)
    ensures var c, p, d := Across(axis, coord), Across(axis, ray.position), Across(axis, ray.direction);
      r.Some? <==> d != 0.0 && (c - p) / d >= 0.0
  {
    var c, p, d := Across(axis, coord), Across(axis, ray.position), Across(axis, ray.direction);
    DivisionSign(c - p, d);
    if (c < p && d > 0.0) || (c > p && d < 0.0) || d == 0.0 then None
    else
      var k := (c - p) / d;
      match axis
      case XY => Some(Vec(ray.position.x + ray.direction.x * k, ray.position.y + ray.direction.y * k, coord.z))
      case XZ => Some(Vec(ray.position.x + ray.direction.x * k, coord.y, ray.position.z + ray.direction.z * k))
      case YZ => Some(Vec(coord.x, ray.position.y + ray.direction.y * k, ray.position.z + ray.direction.z * k))
  }

  /** The sign of a quotient follows the signs of its operands. */
  lemma DivisionSign(a: real, d: real)
    ensures d != 0.0 ==> (a / d >= 0.0 <==> (d > 0.0 && a >= 0.0) || (d < 0.0 && a <= 0.0))
  {
    if d != 0.0 {
      var q := a / d;
      assert q * d == a;
      if d > 0.0 && q < 0.0 { assert q * d < 0.0; }
      if d < 0.0 && q < 0.0 { assert q * d > 0.0; }
      if d > 0.0 && q >= 0.0 { assert q * d >= 0.0; }
      if d < 0.0 && q >= 0.0 { assert q * d <= 0.0; }
    }
  }

  /** The point reported lies on the ray, at a parameter k >= 0. */
  lemma PlanePointOnRay(ray: Ray, axis: Axis, coord: Vec) returns (k: real)
    requires GetVectorPlaneIntersection(ray, axis, coord).Some?
    ensures k >= 0.0 && GetVectorPlaneIntersection(ray, axis, coord).value == PointAt(ray, k)
  {
    var c, p, d := Across(axis, coord), Across(axis, ray.position), Across(axis, ray.direction);
    k := (c - p) / d;
    assert d * k == c - p;
    assert p + d * k == c;
  }

  /** The face test: the ray meets the face's plane at a point strictly inside the face's
      two other ranges. */
  predicate FaceHit(b: Box, ray: Ray, axis: Axis, coord: Vec) {
    match GetVectorPlaneIntersection(ray, axis, coord)
    case None => false
    case Some(p) =>
      match axis
      case XY => Within(p.x, b.boxMin.x, b.boxMax.x) && Within(p.y, b.boxMin.y, b.boxMax.y)
      case XZ => Within(p.x, b.boxMin.x, b.boxMax.x) && Within(p.z, b.boxMin.z, b.boxMax.z)
      case YZ => Within(p.y, b.boxMin.y, b.boxMax.y) && Within(p.z, b.boxMin.z, b.boxMax.z)
  }

  /** IsBoundingBoxIntersection: the origin is strictly inside, or the ray crosses one of the six
      faces, tried min-z, max-z, min-y, max-y, min-x, max-x. A box with no extent on any axis (in
      particular a reversed one) is never reported as crossed: every Within test and the strict
      point test fail. */
  function IsBoundingBoxIntersection(b: Box, ray: Ray): (r: bool)
    ensures IsPointInside(b, ray.position) ==> r
    ensures b.boxMin.x >= b.boxMax.x && b.boxMin.y >= b.boxMax.y && b.boxMin.z >= b.boxMax.z ==> !r
  {
    IsPointInside(b, ray.position)
    || FaceHit(b, ray, XY, Vec(0.0, 0.0, b.boxMin.z))
    || FaceHit(b, ray, XY, Vec(0.0, 0.0, b.boxMax.z))
    || FaceHit(b, ray, XZ, Vec(0.0, b.boxMin.y, 0.0))
    || FaceHit(b, ray, XZ, Vec(0.0, b.boxMax.y, 0.0))
    || FaceHit(b, ray, YZ, Vec(b.boxMin.x, 0.0, 0.0))
    || FaceHit(b, ray, YZ, Vec(b.boxMax.x, 0.0, 0.0))
  }

  /** Soundness of the box test on a well-formed box: a positive answer means the origin is
      inside or some point of the ray at k >= 0 lies in the closed box. */
  lemma {:induction false} BoxIntersectionSound(b: Box, ray: Ray) returns (k: real)
    requires IsWellFormed(b) && IsBoundingBoxIntersection(b, ray)
    ensures IsPointInside(b, ray.position) || (k >= 0.0 && InClosedBox(b, PointAt(ray, k)))
  {
    k := 0.0;
    if IsPointInside(b, ray.position) {
      return;
    }
    var zMin, zMax := Vec(0.0, 0.0, b.boxMin.z), Vec(0.0, 0.0, b.boxMax.z);
    var yMin, yMax := Vec(0.0, b.boxMin.y, 0.0), Vec(0.0, b.boxMax.y, 0.0);
    var xMin, xMax := Vec(b.boxMin.x, 0.0, 0.0), Vec(b.boxMax.x, 0.0, 0.0);
    if FaceHit(b, ray, XY, zMin) {
      k := FaceHitInClosedBox(b, ray, XY, zMin);
    } else if FaceHit(b, ray, XY, zMax) {
      k := FaceHitInClosedBox(b, ray, XY, zMax);
    } else if FaceHit(b, ray, XZ, yMin) {
      k := FaceHitInClosedBox(b, ray, XZ, yMin);
    } else if FaceHit(b, ray, XZ, yMax) {
      k := FaceHitInClosedBox(b, ray, XZ, yMax);
    } else if FaceHit(b, ray, YZ, xMin) {
      k := FaceHitInClosedBox(b, ray, YZ, xMin);
    } else {
      k := FaceHitInClosedBox(b, ray, YZ, xMax);
    }
  }

  /** A face hit on a face of a well-formed box is a point of the ray inside the closed box. */
  lemma FaceHitInClosedBox(b: Box, ray: Ray, axis: Axis, coord: Vec) returns (k: real)
    requires IsWellFormed(b) && FaceHit(b, ray, axis, coord)
    requires Across(axis, coord) == Across(axis, b.boxMin) || Across(axis, coord) == Across(axis, b.boxMax)
    ensures k >= 0.0 && InClosedBox(b, PointAt(ray, k))
  {
    k := PlanePointOnRay(ray, axis, coord);
  }

  // ----- Splitting boxes and shape lists -----

  /** SplitBoundingBox: the left box takes [min, coord] and the right box [coord, max] across
      the plane; both keep the parent's ranges on the other two axes. */
  function SplitBoundingBox(b: Box, axis: Axis, coord: Vec): (r: (Box, Box))
    ensures r.0.boxMin == b.boxMin && r.1.boxMax == b.boxMax
    ensures r.0.boxMax == MoveAcross(axis, b.boxMax, Across(axis, coord))
    ensures r.1.boxMin == MoveAcross(axis, b.boxMin, Across(axis, coord))
  {
    match axis
    case XY =>
      (FromBounds(Bound(b.boxMin.x, b.boxMax.x), Bound(b.boxMin.y, b.boxMax.y), Bound(b.boxMin.z, coord.z)),
       FromBounds(Bound(b.boxMin.x, b.boxMax.x), Bound(b.boxMin.y, b.boxMax.y), Bound(coord.z, b.boxMax.z)))
    case XZ =>
      (FromBounds(Bound(b.boxMin.x, b.boxMax.x), Bound(b.boxMin.y, coord.y), Bound(b.boxMin.z, b.boxMax.z)),
       FromBounds(Bound(b.boxMin.x, b.boxMax.x), Bound(coord.y, b.boxMax.y), Bound(b.boxMin.z, b.boxMax.z)))
    case YZ =>
      (FromBounds(Bound(b.boxMin.x, coord.x), Bound(b.boxMin.y, b.boxMax.y), Bound(b.boxMin.z, b.boxMax.z)),
       FromBounds(Bound(coord.x, b.boxMax.x), Bound(b.boxMin.y, b.boxMax.y), Bound(b.boxMin.z, b.boxMax.z)))
  }

  /** The two halves of a split at a coordinate inside the parent's range enclose back to the
      parent, and every point of the closed parent lies in one of the closed halves. */
  lemma SplitHalvesCoverParent(b: Box, axis: Axis, coord: Vec, p: Vec)
    requires Across(axis, b.boxMin) <= Across(axis, coord) <= Across(axis, b.boxMax)
    ensures var (l, r) := SplitBoundingBox(b, axis, coord); Enclose(l, r) == b
    ensures var (l, r) := SplitBoundingBox(b, axis, coord);
      InClosedBox(b, p) ==> InClosedBox(l, p) || InClosedBox(r, p)
  {
  }

  /** IsShapeInBoundingBox: the shape's box overlaps the box on every axis; boxes that only
      touch count as overlapping. */
  function IsShapeInBoundingBox(s: Shape, b: Box): (r: bool)
    ensures forall p :: InClosedBox(s.box, p) && InClosedBox(b, p) ==> r
    ensures r && IsWellFormed(s.box) && IsWellFormed(b) ==>
      var corner := Vec(Max(s.box.boxMin.x, b.boxMin.x), Max(s.box.boxMin.y, b.boxMin.y), Max(s.box.boxMin.z, b.boxMin.z));
      InClosedBox(s.box, corner) && InClosedBox(b, corner)
  {
    !(s.box.boxMax.x < b.boxMin.x || s.box.boxMax.y < b.boxMin.y || s.box.boxMax.z < b.boxMin.z ||
      s.box.boxMin.x > b.boxMax.x || s.box.boxMin.y > b.boxMax.y || s.box.boxMin.z > b.boxMax.z)
  }

  /** The test is overlap, not containment: a shape box reaching beyond the box is still in it,
      and one that merely touches a face is in it too. */
  lemma OverlapIsNotContainment(s: Shape, b: Box)
    requires b == Box(Vec(0.0, 0.0, 0.0), Vec(1.0, 1.0, 1.0))
    requires s.box == Box(Vec(1.0, 1.0, 1.0), Vec(5.0, 5.0, 5.0))
    ensures IsShapeInBoundingBox(s, b)
    ensures !InClosedBox(b, s.box.boxMax)
  {
  }

  /** The number of shapes of s that overlap b. */
  function CountIn(s: seq<Shape>, b: Box): (n: nat)
    ensures n <= |s|
  {
    if s == [] then 0
    else CountIn(s[..|s| - 1], b) + (if IsShapeInBoundingBox(s[|s| - 1], b) then 1 else 0)
  }

  /** The shapes that overlap b and all the others, each in their original order. */
  function Partition(s: seq<Shape>, b: Box): (r: (seq<Shape>, seq<Shape>))
    ensures multiset(r.0) + multiset(r.1) == multiset(s)
    ensures forall x :: x in r.0 ==> IsShapeInBoundingBox(x, b)
    ensures forall x :: x in r.1 ==> !IsShapeInBoundingBox(x, b)
  {
    if s == [] then ([], [])
    else
      var (l, r) := Partition(s[..|s| - 1], b);
      var last := s[|s| - 1];
      assert s == s[..|s| - 1] + [last];
      if IsShapeInBoundingBox(last, b) then (l + [last], r) else (l, r + [last])
  }

  /** Partitioning a concatenation partitions each part in turn, so both lists keep the input's
      order; and the overlapping list has CountIn elements. */
  lemma {:induction false} PartitionConcat(s1: seq<Shape>, s2: seq<Shape>, b: Box)
    ensures Partition(s1 + s2, b) == (Partition(s1, b).0 + Partition(s2, b).0, Partition(s1, b).1 + Partition(s2, b).1)
    decreases |s2|
  {
    if s2 == [] {
      assert s1 + s2 == s1;
      var (l1, r1) := Partition(s1, b);
      assert l1 + [] == l1 && r1 + [] == r1;
    } else {
      var init, last := s2[..|s2| - 1], s2[|s2| - 1];
      assert (s1 + s2)[..|s1 + s2| - 1] == s1 + init;
      assert (s1 + s2)[|s1 + s2| - 1] == last;
      PartitionConcat(s1, init, b);
      var (l1, r1) := Partition(s1, b);
      var (l2, r2) := Partition(init, b);
      assert l1 + l2 + [last] == l1 + (l2 + [last]);
      assert r1 + r2 + [last] == r1 + (r2 + [last]);
    }
  }

  lemma {:induction false} CountIsLeftLength(s: seq<Shape>, b: Box)
    ensures CountIn(s, b) == |Partition(s, b).0|
  {
    if s != [] {
      CountIsLeftLength(s[..|s| - 1], b);
    }
  }

  /** NumShapesInBoundingBox */
  method NumShapesInBoundingBox(shapes: seq<Shape>, b: Box) returns (count: nat)
    ensures count == CountIn(shapes, b)
  {
    count := 0;
    var i := 0;
    while i < |shapes|
      invariant 0 <= i <= |shapes|
      invariant count == CountIn(shapes[..i], b)
    {
      assert shapes[..i + 1][..i] == shapes[..i];
      if IsShapeInBoundingBox(shapes[i], b) {
        count := count + 1;
      }
      i := i + 1;
    }
    assert shapes[..i] == shapes;
  }

  /** FilterOverlappedObjects: the right box is not consulted; every shape not overlapping the
      left box goes right. */
  method FilterOverlappedObjects(shapes: seq<Shape>, boxLeft: Box, boxRight: Box)
    returns (shapesLeft: seq<Shape>, shapesRight: seq<Shape>)
    ensures (shapesLeft, shapesRight) == Partition(shapes, boxLeft)
  {
    shapesLeft, shapesRight := [], [];
    var i := 0;
    while i < |shapes|
      invariant 0 <= i <= |shapes|
      invariant (shapesLeft, shapesRight) == Partition(shapes[..i], boxLeft)
    {
      PartitionStep(shapes, i, boxLeft);
      if IsShapeInBoundingBox(shapes[i], boxLeft) {
        shapesLeft := shapesLeft + [shapes[i]];
      } else {
        shapesRight := shapesRight + [shapes[i]];
      }
      i := i + 1;
    }
    assert shapes[..i] == shapes;
  }

  /** Partitioning one more shape appends it to the list its overlap test picks. */
  lemma PartitionStep(shapes: seq<Shape>, i: int, b: Box)
    requires 0 <= i < |shapes|
    ensures var (l, r) := Partition(shapes[..i], b);
      Partition(shapes[..i + 1], b)
      == if IsShapeInBoundingBox(shapes[i], b) then (l + [shapes[i]], r) else (l, r + [shapes[i]])
  {
    assert shapes[..i + 1][..i] == shapes[..i];
  }

  // ----- Choosing the split plane -----

  /** The best candidate so far: its cost, its plane and its coordinate. */
  datatype Choice = Choice(sah: real, plane: PlaneChoice, pos: Vec)

  /** The candidate coordinate across the plane at fraction l of the box. The YZ candidates
      scale the y extent, not the x extent, as the source does. */
  function SplitValue(axis: Axis, b: Box, l: real): real {
    match axis
    case XY => b.boxMin.z + l * (b.boxMax.z - b.boxMin.z)
    case XZ => b.boxMin.y + l * (b.boxMax.y - b.boxMin.y)
    case YZ => b.boxMin.x + l * (b.boxMax.y - b.boxMin.y)
  }

  /** The cost of splitting at coord: each side's shape count weighted by its share of the
      normalised area, plus the split cost. */
  function CandidateSah(shapes: seq<Shape>, b: Box, axis: Axis, coord: Vec, sSplit: real, sNonSplit: real, l: real): real {
    var (vl, vr) := SplitBoundingBox(b, axis, coord);
    Cost(sSplit, sNonSplit, l, CountIn(shapes, vl), CountIn(shapes, vr))
  }

  function Cost(sSplit: real, sNonSplit: real, l: real, nl: nat, nr: nat): real {
    (sSplit + l * sNonSplit) * (nl as real) + (sSplit + (1.0 - l) * sNonSplit) * (nr as real) + SplitCost
  }

  /** The cost of the i-th candidate of an axis; it depends on the coordinate across the plane only. */
  function AxisCost(shapes: seq<Shape>, b: Box, axis: Axis, sSplit: real, sNonSplit: real, i: int): real {
    var l := (i as real) / (MaxSplits as real);
    CandidateSah(shapes, b, axis, MoveAcross(axis, Origin, SplitValue(axis, b, l)), sSplit, sNonSplit, l)
  }

  /** The costs of the candidates 1..4 of an axis, in order. */
  function AxisCosts(shapes: seq<Shape>, b: Box, axis: Axis, sSplit: real, sNonSplit: real): (r: seq<real>)
    ensures |r| == MaxSplits - 1
  {
    seq(MaxSplits - 1, m requires 0 <= m < MaxSplits - 1 => AxisCost(shapes, b, axis, sSplit, sNonSplit, m + 1))
  }

  /** A candidate replaces the best only when strictly cheaper. */
  function Improve(c: Choice, sah: real, axis: Axis, coord: Vec): Choice {
    if sah < c.sah then Choice(sah, Split(axis), coord) else c
  }

  /** One of the three loops, from candidate i on, given the candidates' costs: cur is the
      running split coordinate, of which each step replaces the component across the plane. */
  function Sweep(axis: Axis, b: Box, costs: seq<real>, i: int, c: Choice, cur: Vec): (r: (Choice, Vec))
    requires 1 <= i <= MaxSplits && |costs| == MaxSplits - 1
    decreases MaxSplits - i
  {
    if i == MaxSplits then (c, cur)
    else
      var next := MoveAcross(axis, cur, SplitValue(axis, b, (i as real) / (MaxSplits as real)));
      Sweep(axis, b, costs, i + 1, Improve(c, costs[i - 1], axis, next), next)
  }

  /** FindPlane as a function of its inputs. At depth 20 or with at most one shape there is no
      plane. A box whose face areas sum to zero makes every cost NaN in the source, so no
      candidate wins and there is no plane either. */
  function Search(shapes: seq<Shape>, b: Box, depth: int): (r: Choice)
    ensures depth >= MaxTreeDepth || |shapes| <= NumObjectsInLeaf ==> r.plane == NoPlane
  {
    if depth >= MaxTreeDepth || |shapes| <= NumObjectsInLeaf then Choice(|shapes| as real, NoPlane, Origin)
    else
      match NormalisedAreas(b)
      case None => Choice(|shapes| as real, NoPlane, Origin)
      case Some(areas) =>
        Chain(b, CostsOf(shapes, b, XY, areas), CostsOf(shapes, b, XZ, areas), CostsOf(shapes, b, YZ, areas),
              |shapes| as real)
  }

  /** The areas the three sweeps use, normalised to sum to one; None when they sum to zero. */
  function NormalisedAreas(b: Box): Option<(real, real, real)> {
    var hx, hy, hz := b.boxMax.x - b.boxMin.x, b.boxMax.y - b.boxMin.y, b.boxMax.z - b.boxMin.z;
    var ssum := hx * hy + hx * hz + hy * hz;
    if ssum == 0.0 then None else Some((hx * hy / ssum, hx * hz / ssum, hy * hz / ssum))
  }

  /** The split-plane area and the other two areas for each axis's sweep. */
  function Weights(axis: Axis, areas: (real, real, real)): (real, real) {
    var (sxy, sxz, syz) := areas;
    match axis
    case XY => (sxy, sxz + syz)
    case XZ => (sxz, sxy + syz)
    case YZ => (syz, sxy + sxz)
  }

  /** The costs of an axis's four candidates with that axis's weights. */
  function CostsOf(shapes: seq<Shape>, b: Box, axis: Axis, areas: (real, real, real)): (r: seq<real>)
    ensures |r| == MaxSplits - 1
  {
    AxisCosts(shapes, b, axis, Weights(axis, areas).0, Weights(axis, areas).1)
  }

  /** Splitting only reads the coordinate across the plane. */
  lemma SplitReadsAcrossOnly(b: Box, axis: Axis, u: Vec, v: Vec)
    requires Across(axis, u) == Across(axis, v)
    ensures SplitBoundingBox(b, axis, u) == SplitBoundingBox(b, axis, v)
  {
  }

  /** A sweep from candidate i keeps c unless a candidate is strictly cheaper than c; the
      result costs no more than any of the candidates i..4, and when it is new it is the first
      of them with the least cost. */
  lemma {:induction false} SweepIsFirstMinimum(axis: Axis, b: Box, costs: seq<real>, i: int, c: Choice, cur: Vec)
    returns (j: int)
    requires 1 <= i <= MaxSplits && |costs| == MaxSplits - 1
    decreases MaxSplits - i
    ensures var r := Sweep(axis, b, costs, i, c, cur).0;
      r.sah <= c.sah
      && (forall m :: i - 1 <= m < MaxSplits - 1 ==> r.sah <= costs[m])
      && (r == c || (r.plane == Split(axis) && r.sah < c.sah && i - 1 <= j < MaxSplits - 1 && r.sah == costs[j]
                     && (forall m :: i - 1 <= m < j ==> costs[m] > r.sah)
                     && Across(axis, r.pos) == SplitValue(axis, b, (j + 1) as real / (MaxSplits as real))))
  {
    if i == MaxSplits {
      return i - 1;
    }
    var next := MoveAcross(axis, cur, SplitValue(axis, b, (i as real) / (MaxSplits as real)));
    var c1 := Improve(c, costs[i - 1], axis, next);
    var j1 := SweepIsFirstMinimum(axis, b, costs, i + 1, c1, next);
    var r := Sweep(axis, b, costs, i + 1, c1, next).0;
    assert r == Sweep(axis, b, costs, i, c, cur).0;
    if r == c1 && c1 != c {
      j := i - 1;
    } else {
      j := j1;
    }
  }

  /** The index of the first least cost in k. */
  function FirstMin(k: seq<real>): (j: nat)
    requires |k| > 0
    ensures j < |k| && (forall m :: 0 <= m < |k| ==> k[j] <= k[m]) && (forall m :: 0 <= m < j ==> k[m] > k[j])
  {
    if |k| == 1 then 0
    else
      var t := FirstMin(k[1..]);
      assert forall m :: 1 <= m < |k| ==> k[m] == k[1..][m - 1];
      if k[0] <= k[t + 1] then 0 else t + 1
  }

  /** An index whose cost no candidate undercuts and that every earlier candidate exceeds is
      the first least cost. */
  lemma FirstMinUnique(k: seq<real>, j: int)
    requires 0 <= j < |k| && (forall m :: 0 <= m < |k| ==> k[j] <= k[m]) && (forall m :: 0 <= m < j ==> k[m] > k[j])
    ensures j == FirstMin(k)
  {
  }

  /** r is the first cheapest candidate of the axis whose costs are k: its cost and, across
      the plane, the coordinate of that candidate. */
  predicate FirstCheapest(axis: Axis, b: Box, k: seq<real>, r: Choice)
    requires |k| > 0
  {
    r.sah == k[FirstMin(k)] && Across(axis, r.pos) == SplitValue(axis, b, (FirstMin(k) + 1) as real / (MaxSplits as real))
  }

  /** Every cost in k is at least v. */
  predicate NoneBelow(k: seq<real>, v: real) {
    forall m :: 0 <= m < |k| ==> k[m] >= v
  }

  /** Every cost in k is strictly above v. */
  predicate AllAbove(k: seq<real>, v: real) {
    forall m :: 0 <= m < |k| ==> k[m] > v
  }

  /** The plane search picks the cheapest of the twelve candidates, and only when it is
      strictly cheaper than the shape count; ties go to the earlier candidate, so an XZ plane
      beats every XY candidate strictly and a YZ plane beats every XY and XZ candidate. The
      coordinate it splits at is that candidate's, the first cheapest of its axis. */
  lemma SearchIsCheapest(shapes: seq<Shape>, b: Box, depth: int)
    requires depth < MaxTreeDepth && |shapes| > NumObjectsInLeaf && NormalisedAreas(b).Some?
    ensures var r, areas := Search(shapes, b, depth), NormalisedAreas(b).value;
      var kxy, kxz, kyz := CostsOf(shapes, b, XY, areas), CostsOf(shapes, b, XZ, areas), CostsOf(shapes, b, YZ, areas);
      NoneBelow(kxy, r.sah) && NoneBelow(kxz, r.sah) && NoneBelow(kyz, r.sah)
      && (r.plane == NoPlane <==>
            NoneBelow(kxy, |shapes| as real) && NoneBelow(kxz, |shapes| as real) && NoneBelow(kyz, |shapes| as real))
      && (r.plane != NoPlane ==> r.sah < |shapes| as real)
      && (r.plane == Split(XZ) ==> AllAbove(kxy, r.sah))
      && (r.plane == Split(YZ) ==> AllAbove(kxy, r.sah) && AllAbove(kxz, r.sah))
      && (r.plane == Split(XY) ==> FirstCheapest(XY, b, kxy, r))
      && (r.plane == Split(XZ) ==> FirstCheapest(XZ, b, kxz, r))
      && (r.plane == Split(YZ) ==> FirstCheapest(YZ, b, kyz, r))
  {
    var areas := NormalisedAreas(b).value;
    ChainIsCheapest(b, CostsOf(shapes, b, XY, areas), CostsOf(shapes, b, XZ, areas), CostsOf(shapes, b, YZ, areas),
                    |shapes| as real);
  }

  /** The three sweeps in a row, over any cost tables, starting from no plane at cost n. */
  function Chain(b: Box, kxy: seq<real>, kxz: seq<real>, kyz: seq<real>, n: real): Choice
    requires |kxy| == |kxz| == |kyz| == MaxSplits - 1
  {
    var (c1, cur1) := Sweep(XY, b, kxy, 1, Choice(n, NoPlane, Origin), Origin);
    var (c2, cur2) := Sweep(XZ, b, kxz, 1, c1, cur1);
    Sweep(YZ, b, kyz, 1, c2, cur2).0
  }

  lemma {:induction false} ChainIsCheapest(b: Box, kxy: seq<real>, kxz: seq<real>, kyz: seq<real>, n: real)
    requires |kxy| == |kxz| == |kyz| == MaxSplits - 1
    ensures var r := Chain(b, kxy, kxz, kyz, n);
      NoneBelow(kxy, r.sah) && NoneBelow(kxz, r.sah) && NoneBelow(kyz, r.sah)
      && (r.plane == NoPlane <==> NoneBelow(kxy, n) && NoneBelow(kxz, n) && NoneBelow(kyz, n))
      && (r.plane != NoPlane ==> r.sah < n)
      && (r.plane == Split(XZ) ==> AllAbove(kxy, r.sah))
      && (r.plane == Split(YZ) ==> AllAbove(kxy, r.sah) && AllAbove(kxz, r.sah))
      && (r.plane == Split(XY) ==> FirstCheapest(XY, b, kxy, r))
      && (r.plane == Split(XZ) ==> FirstCheapest(XZ, b, kxz, r))
      && (r.plane == Split(YZ) ==> FirstCheapest(YZ, b, kyz, r))
  {
    var c0 := Choice(n, NoPlane, Origin);
    var j1 := SweepIsFirstMinimum(XY, b, kxy, 1, c0, Origin);
    var (c1, cur1) := Sweep(XY, b, kxy, 1, c0, Origin);
    var j2 := SweepIsFirstMinimum(XZ, b, kxz, 1, c1, cur1);
    var (c2, cur2) := Sweep(XZ, b, kxz, 1, c1, cur1);
    var j3 := SweepIsFirstMinimum(YZ, b, kyz, 1, c2, cur2);
    var r := Sweep(YZ, b, kyz, 1, c2, cur2).0;
    assert r == Chain(b, kxy, kxz, kyz, n);
    if r.plane == NoPlane {
      assert r == c2 && c2 == c1 && c1 == c0;
    } else if r != c2 {
      assert kyz[j3] < n;
      FirstMinUnique(kyz, j3);
    } else if c2 != c1 {
      assert kxz[j2] < n;
      FirstMinUnique(kxz, j2);
    } else {
      assert kxy[j1] < n;
      FirstMinUnique(kxy, j1);
    }
  }

  /** With the box (0,0,0)-(1,10,1), the first YZ candidate sits at x = 2, outside the box's
      x range, because the YZ candidates are spaced by the y extent. */
  lemma YZCandidateUsesHeight(b: Box)
    requires b == Box(Vec(0.0, 0.0, 0.0), Vec(1.0, 10.0, 1.0))
    ensures SplitValue(YZ, b, 1.0 / 5.0) == 2.0 > b.boxMax.x
  {
  }

  /** FindPlane: the three loops of the source, XY, then XZ, then YZ, carrying the running
      coordinate from one loop to the next. */
  method FindPlane(shapes: seq<Shape>, b: Box, depth: int) returns (plane: PlaneChoice, pos: Vec)
    ensures plane == Search(shapes, b, depth).plane && pos == Search(shapes, b, depth).pos
  {
    if depth >= MaxTreeDepth || |shapes| <= NumObjectsInLeaf {
      return NoPlane, Origin;
    }
    var areas := NormalisedAreas(b);
    if areas.None? {
      return NoPlane, Origin;
    }
    var c0 := Choice(|shapes| as real, NoPlane, Origin);
    var c1, cur1 := SweepAxis(shapes, b, XY, areas.value, c0, Origin);
    var c2, cur2 := SweepAxis(shapes, b, XZ, areas.value, c1, cur1);
    var c3, cur3 := SweepAxis(shapes, b, YZ, areas.value, c2, cur2);
    return c3.plane, c3.pos;
  }

  /** One loop of FindPlane over the candidates i = 1..4 of an axis, with that axis's area
      weights sSplit and sNonSplit. */
  method SweepAxis(shapes: seq<Shape>, b: Box, axis: Axis, areas: (real, real, real), c: Choice, cur: Vec)
    returns (best: Choice, coord: Vec)
    ensures (best, coord) == Sweep(axis, b, CostsOf(shapes, b, axis, areas), 1, c, cur)
  {
    var (sSplit, sNonSplit) := Weights(axis, areas);
    ghost var costs := CostsOf(shapes, b, axis, areas);
    best, coord := c, cur;
    var i := 1;
    while i < MaxSplits
      invariant 1 <= i <= MaxSplits
      invariant Sweep(axis, b, costs, i, best, coord) == Sweep(axis, b, costs, 1, c, cur)
    {
      var l := (i as real) / (MaxSplits as real);
      coord := MoveAcross(axis, coord, SplitValue(axis, b, l));
      var (vl, vr) := SplitBoundingBox(b, axis, coord);
      var nl := NumShapesInBoundingBox(shapes, vl);
      var nr := NumShapesInBoundingBox(shapes, vr);
      var sah := Cost(sSplit, sNonSplit, l, nl, nr);
      SplitReadsAcrossOnly(b, axis, coord, MoveAcross(axis, Origin, SplitValue(axis, b, l)));
      assert sah == costs[i - 1];
      if sah < best.sah {
        best := Choice(sah, Split(axis), coord);
      }
      i := i + 1;
    }
  }

  // ----- Building -----

  /** The plane searches the build may use: none splits at or beyond the maximum depth. */
  ghost predicate StopsAtMaxDepth(choose: (seq<Shape>, Box, int) -> Choice) {
    forall s, bb, d :: d >= MaxTreeDepth ==> choose(s, bb, d).plane == NoPlane
  }

  /** RecursiveBuild as a function of the plane search it uses (FindPlane's Search in the
      tree): a leaf when no plane is found, otherwise a node over the split boxes with the
      partitioned shapes, one level deeper. */
  function Build(shapes: seq<Shape>, b: Box, depth: int, choose: (seq<Shape>, Box, int) -> Choice): (r: KdNode)
    requires StopsAtMaxDepth(choose)
    ensures r.Leaf? <==> choose(shapes, b, depth).plane == NoPlane
    ensures r.Leaf? ==> r.shapes == shapes
    ensures r.Node? ==> r.axis == choose(shapes, b, depth).plane.axis && r.coord == choose(shapes, b, depth).pos
    ensures depth >= MaxTreeDepth ==> r == Leaf(shapes)
    decreases MaxTreeDepth - depth
  {
    var c := choose(shapes, b, depth);
    match c.plane
    case NoPlane => Leaf(shapes)
    case Split(axis) =>
      var (bl, br) := SplitBoundingBox(b, axis, c.pos);
      var (sl, sr) := Partition(shapes, bl);
      Node(axis, c.pos, Build(sl, bl, depth + 1, choose), Build(sr, br, depth + 1, choose))
  }

  /** FindPlane's search never splits at depth 20 or beyond. */
  lemma SearchStopsAtMaxDepth()
    ensures StopsAtMaxDepth(Search)
  {
  }

  /** The shapes of all leaves, left to right. */
  function LeafShapes(n: KdNode): seq<Shape> {
    match n
    case Leaf(s) => s
    case Node(_, _, l, r) => LeafShapes(l) + LeafShapes(r)
  }

  function Height(n: KdNode): nat {
    match n
    case Leaf(_) => 0
    case Node(_, _, l, r) => 1 + (if Height(l) >= Height(r) then Height(l) else Height(r))
  }

  /** Every shape ends up in exactly one leaf: the leaves together hold the input multiset. */
  lemma {:induction false} BuildKeepsShapes(shapes: seq<Shape>, b: Box, depth: int, choose: (seq<Shape>, Box, int) -> Choice)
    requires StopsAtMaxDepth(choose)
    ensures multiset(LeafShapes(Build(shapes, b, depth, choose))) == multiset(shapes)
    decreases MaxTreeDepth - depth
  {
    var c := choose(shapes, b, depth);
    if c.plane.Split? {
      var (bl, br) := SplitBoundingBox(b, c.plane.axis, c.pos);
      var (sl, sr) := Partition(shapes, bl);
      BuildKeepsShapes(sl, bl, depth + 1, choose);
      BuildKeepsShapes(sr, br, depth + 1, choose);
    }
  }

  /** The tree is never deeper than MaxTreeDepth - depth. */
  lemma {:induction false} BuildHeight(shapes: seq<Shape>, b: Box, depth: int, choose: (seq<Shape>, Box, int) -> Choice)
    requires StopsAtMaxDepth(choose) && 0 <= depth <= MaxTreeDepth
    ensures Height(Build(shapes, b, depth, choose)) <= MaxTreeDepth - depth
    decreases MaxTreeDepth - depth
  {
    var c := choose(shapes, b, depth);
    if c.plane.Split? {
      var (bl, br) := SplitBoundingBox(b, c.plane.axis, c.pos);
      var (sl, sr) := Partition(shapes, bl);
      BuildHeight(sl, bl, depth + 1, choose);
      BuildHeight(sr, br, depth + 1, choose);
    }
  }

  /** RecursiveBuild (MakeLeaf is the Leaf constructor). */
  method RecursiveBuild(shapes: seq<Shape>, b: Box, depth: int) returns (node: KdNode)
    ensures StopsAtMaxDepth(Search) && node == Build(shapes, b, depth, Search)
    decreases MaxTreeDepth - depth
  {
    SearchStopsAtMaxDepth();
    var plane, coord := FindPlane(shapes, b, depth);
    if plane == NoPlane {
      return Leaf(shapes);
    }
    var (boxLeft, boxRight) := SplitBoundingBox(b, plane.axis, coord);
    var shapesLeft, shapesRight := FilterOverlappedObjects(shapes, boxLeft, boxRight);
    var nodeLeft := RecursiveBuild(shapesLeft, boxLeft, depth + 1);
    var nodeRight := RecursiveBuild(shapesRight, boxRight, depth + 1);
    return Node(plane.axis, coord, nodeLeft, nodeRight);
  }

  /** The root box: the default (empty) box enlarged by each shape's box in turn. It is no larger
      than needed: each corner coordinate is the default box's or some shape's. */
  function EncloseAll(shapes: seq<Shape>): (r: Box)
    ensures shapes == [] ==> r == DefaultBox
    ensures r.boxMin.x == DefaultBox.boxMin.x || exists i :: 0 <= i < |shapes| && r.boxMin.x == shapes[i].box.boxMin.x
    ensures r.boxMin.y == DefaultBox.boxMin.y || exists i :: 0 <= i < |shapes| && r.boxMin.y == shapes[i].box.boxMin.y
    ensures r.boxMin.z == DefaultBox.boxMin.z || exists i :: 0 <= i < |shapes| && r.boxMin.z == shapes[i].box.boxMin.z
    ensures r.boxMax.x == DefaultBox.boxMax.x || exists i :: 0 <= i < |shapes| && r.boxMax.x == shapes[i].box.boxMax.x
    ensures r.boxMax.y == DefaultBox.boxMax.y || exists i :: 0 <= i < |shapes| && r.boxMax.y == shapes[i].box.boxMax.y
    ensures r.boxMax.z == DefaultBox.boxMax.z || exists i :: 0 <= i < |shapes| && r.boxMax.z == shapes[i].box.boxMax.z
  {
    if shapes == [] then DefaultBox else Enclose(EncloseAll(shapes[..|shapes| - 1]), shapes[|shapes| - 1].box)
  }

  /** The root box's corners dominate every shape box's corners. */
  lemma {:induction false} EncloseAllContains(shapes: seq<Shape>, s: Shape)
    requires s in shapes
    ensures var e := EncloseAll(shapes);
      e.boxMin.x <= s.box.boxMin.x && e.boxMin.y <= s.box.boxMin.y && e.boxMin.z <= s.box.boxMin.z
      && e.boxMax.x >= s.box.boxMax.x && e.boxMax.y >= s.box.boxMax.y && e.boxMax.z >= s.box.boxMax.z
  {
    var init := shapes[..|shapes| - 1];
    if s != shapes[|shapes| - 1] {
      assert s in init;
      EncloseAllContains(init, s);
    }
  }

  function CreateTree(shapes: seq<Shape>): KdTree {
    SearchStopsAtMaxDepth();
    KdTree(Build(shapes, EncloseAll(shapes), 0, Search), EncloseAll(shapes))
  }

  /** Create */
  method Create(shapes: seq<Shape>) returns (tree: KdTree)
    ensures tree == CreateTree(shapes)
  {
    var b := DefaultBox;
    var i := 0;
    while i < |shapes|
      invariant 0 <= i <= |shapes|
      invariant b == EncloseAll(shapes[..i])
    {
      assert shapes[..i + 1][..i] == shapes[..i];
      b := Enclose(b, shapes[i].box);
      i := i + 1;
    }
    assert shapes[..i] == shapes;
    var root := RecursiveBuild(shapes, b, 0);
    tree := KdTree(root, b);
  }

  // ----- Querying -----

  /** shape.Intersect(ray) for each shape, in order. */
  function HitsOf(shapes: seq<Shape>, hit: Shape -> IntersectionInfo): seq<IntersectionInfo> {
    seq(|shapes|, i requires 0 <= i < |shapes| => hit(shapes[i]))
  }

  /** SplitPlane: which child is in front, with the child boxes in front/back order. For a plane
      above the box's min across it, the left child is in front exactly when the ray origin lies
      below the plane, so the front box is the half that holds an origin inside the box. */
  function SplitPlane(axis: Axis, coord: Vec, b: Box, ray: Ray): (r: (bool, Box, Box))
    ensures var (bl, br) := SplitBoundingBox(b, axis, coord);
      if r.0 then r.1 == bl && r.2 == br else r.1 == br && r.2 == bl
    ensures Across(axis, b.boxMin) < Across(axis, coord) ==>
      (r.0 <==> Across(axis, ray.position) < Across(axis, coord))
    ensures Across(axis, b.boxMin) < Across(axis, coord) <= Across(axis, b.boxMax) && InClosedBox(b, ray.position) ==>
      InClosedBox(r.1, ray.position)
  {
    var c, lo, p := Across(axis, coord), Across(axis, b.boxMin), Across(axis, ray.position);
    var (bl, br) := SplitBoundingBox(b, axis, coord);
    if (c > lo && c > p) || (c < lo && c < p) then (true, bl, br) else (false, br, bl)
  }

  /** FindIntersectionNode as a function: a leaf gives its nearest qualifying hit; an internal
      node tries the front child if the ray crosses its box, and the back child only when the
      front child gives no hit. */
  function NodeHit(n: KdNode, b: Box, ray: Ray, hit: Shape -> IntersectionInfo): (r: IntersectionInfo)
    ensures IsHit(r) || r == NoHit
    ensures n.Leaf? ==> r == NoHit || r in HitsOf(n.shapes, hit)
  {
    match n
    case Leaf(shapes) =>
      var best := Nearest(HitsOf(shapes, hit));
      if IsHit(best) then best else NoHit
    case Node(axis, coord, left, right) =>
      var (leftIsFront, frontBox, backBox) := SplitPlane(axis, coord, b, ray);
      var front := if leftIsFront then left else right;
      var back := if leftIsFront then right else left;
      if !IsBoundingBoxIntersection(frontBox, ray) then NoHit
      else
        var info := NodeHit(front, frontBox, ray, hit);
        if IsHit(info) then info
        else if !IsBoundingBoxIntersection(backBox, ray) then NoHit
        else
          var backInfo := NodeHit(back, backBox, ray, hit);
          if IsHit(backInfo) then backInfo else NoHit
  }

  /** The order of the descent at an internal node: nothing unless the ray crosses the front
      child's box; the front child's hit when it has one; otherwise the back child's answer
      when the ray crosses the back child's box, and no hit when it does not. */
  lemma NodeHitFrontFirst(n: KdNode, b: Box, ray: Ray, hit: Shape -> IntersectionInfo)
    requires n.Node?
    ensures var (leftIsFront, frontBox, backBox) := SplitPlane(n.axis, n.coord, b, ray);
      var front := if leftIsFront then n.left else n.right;
      var back := if leftIsFront then n.right else n.left;
      var r := NodeHit(n, b, ray, hit);
      (!IsBoundingBoxIntersection(frontBox, ray) ==> r == NoHit)
      && (IsBoundingBoxIntersection(frontBox, ray) && IsHit(NodeHit(front, frontBox, ray, hit))
          ==> r == NodeHit(front, frontBox, ray, hit))
      && (IsBoundingBoxIntersection(frontBox, ray) && !IsHit(NodeHit(front, frontBox, ray, hit))
          ==> r == (if IsBoundingBoxIntersection(backBox, ray) then NodeHit(back, backBox, ray, hit) else NoHit))
  {
  }

  /** FindIntersectionTree as a function: no hit unless the ray crosses the root box. */
  function TreeHit(t: KdTree, ray: Ray, hit: Shape -> IntersectionInfo): (r: IntersectionInfo)
    ensures !IsBoundingBoxIntersection(t.bbox, ray) ==> r == NoHit
  {
    if IsBoundingBoxIntersection(t.bbox, ray) then NodeHit(t.root, t.bbox, ray, hit) else NoHit
  }

  /** A node's answer is no-hit or the qualifying hit of one of its leaves' shapes. */
  lemma {:induction false} NodeHitIsLeafHit(n: KdNode, b: Box, ray: Ray, hit: Shape -> IntersectionInfo)
    ensures var r := NodeHit(n, b, ray, hit);
      r == NoHit || (Qualifies(r) && r in HitsOf(LeafShapes(n), hit))
  {
    match n
    case Leaf(shapes) =>
    case Node(axis, coord, left, right) =>
      var (leftIsFront, frontBox, backBox) := SplitPlane(axis, coord, b, ray);
      NodeHitIsLeafHit(left, if leftIsFront then frontBox else backBox, ray, hit);
      NodeHitIsLeafHit(right, if leftIsFront then backBox else frontBox, ray, hit);
      HitsOfConcat(LeafShapes(left), LeafShapes(right), hit);
  }

  lemma HitsOfConcat(s1: seq<Shape>, s2: seq<Shape>, hit: Shape -> IntersectionInfo)
    ensures HitsOf(s1 + s2, hit) == HitsOf(s1, hit) + HitsOf(s2, hit)
  {
  }

  /** The tree is never nearer than the brute-force scan over the same shapes: its answer is
      no-hit or the hit of one of the shapes, which the scan can only improve on. */
  lemma TreeNeverNearerThanScan(shapes: seq<Shape>, ray: Ray, hit: Shape -> IntersectionInfo)
    ensures TreeHit(CreateTree(shapes), ray, hit).distance >= Nearest(HitsOf(shapes, hit)).distance
  {
    var t := CreateTree(shapes);
    var r := TreeHit(t, ray, hit);
    if r != NoHit {
      NodeHitIsLeafHit(t.root, t.bbox, ray, hit);
      var leaves := LeafShapes(t.root);
      var i :| 0 <= i < |leaves| && HitsOf(leaves, hit)[i] == r;
      SearchStopsAtMaxDepth();
      BuildKeepsShapes(shapes, t.bbox, 0, Search);
      assert leaves[i] in multiset(shapes);
      var j :| 0 <= j < |shapes| && shapes[j] == leaves[i];
      NearestNoFartherThanQualifying(HitsOf(shapes, hit), j);
    }
  }

  /** A scene with a single sphere of positive radius gets the sphere's reversed box as its
      root box, so the tree reports no hit for every ray, whatever the sphere's intersection. */
  lemma LoneSphereTreeMissesEveryRay(s: Shape, ray: Ray, hit: Shape -> IntersectionInfo)
    requires s.geometry.SphereGeom? && s.geometry.sphere.radius > 0.0
    requires s.box == BoxOf(s.geometry) && WithinLimits(s.box)
    ensures TreeHit(CreateTree([s]), ray, hit) == NoHit
  {
    Spheres.PositiveRadiusBoxIsEmpty(s.geometry.sphere);
    DefaultBoxIsEmptyIdentity(s.box);
    assert EncloseAll([s]) == s.box;
  }

  /** With the corrected sphere bound the lone sphere's tree answers as the sphere does: a ray
      that crosses the box, and in particular any ray from the sphere's centre, gets the
      sphere's own hit whenever that hit lies in front of the origin. */
  lemma LoneCorrectedSphereTreeFindsHit(s: Shape, ray: Ray, hit: Shape -> IntersectionInfo)
    requires s.geometry.SphereGeom? && s.geometry.sphere.radius > 0.0
    requires s.box == Spheres.CorrectedBoundingBox(s.geometry.sphere) && WithinLimits(s.box)
    requires Qualifies(hit(s)) && hit(s).distance < NoHit.distance
    requires IsBoundingBoxIntersection(s.box, ray) || ray.position == s.geometry.sphere.position
    ensures TreeHit(CreateTree([s]), ray, hit) == hit(s)
  {
    DefaultBoxIsEmptyIdentity(s.box);
    assert EncloseAll([s]) == s.box;
    SearchStopsAtMaxDepth();
    assert Build([s], s.box, 0, Search) == Leaf([s]);
    assert HitsOf([s], hit) == [hit(s)];
    assert HitsOf([s], hit)[..0] == [];
  }

  /** FindIntersectionNode: the leaf scan keeps the current best unless a hit is strictly
      nearer and not behind the origin. */
  method FindIntersectionNode(n: KdNode, b: Box, ray: Ray, hit: Shape -> IntersectionInfo) returns (info: IntersectionInfo)
    ensures info == NodeHit(n, b, ray, hit)
  {
    match n
    case Leaf(shapes) =>
      var best := NoHit;
      var i := 0;
      while i < |shapes|
        invariant 0 <= i <= |shapes|
        invariant best == Nearest(HitsOf(shapes, hit)[..i])
      {
        assert HitsOf(shapes, hit)[..i + 1][..i] == HitsOf(shapes, hit)[..i];
        var current := hit(shapes[i]);
        if IsHit(current) {
          if current.distance < best.distance && current.distance >= 0.0 {
            best := current;
          }
        }
        i := i + 1;
      }
      assert HitsOf(shapes, hit)[..i] == HitsOf(shapes, hit);
      info := if IsHit(best) then best else NoHit;
    case Node(axis, coord, left, right) =>
      var (leftIsFront, frontBox, backBox) := SplitPlane(axis, coord, b, ray);
      var front := if leftIsFront then left else right;
      var back := if leftIsFront then right else left;
      if IsBoundingBoxIntersection(frontBox, ray) {
        info := FindIntersectionNode(front, frontBox, ray, hit);
        if !IsHit(info) {
          if IsBoundingBoxIntersection(backBox, ray) {
            info := FindIntersectionNode(back, backBox, ray, hit);
            info := if IsHit(info) then info else NoHit;
          } else {
            info := NoHit;
          }
        }
      } else {
        info := NoHit;
      }
  }

  /** FindIntersectionTree */
  method FindIntersectionTree(t: KdTree, ray: Ray, hit: Shape -> IntersectionInfo) returns (info: IntersectionInfo)
    ensures info == TreeHit(t, ray, hit)
  {
    if IsBoundingBoxIntersection(t.bbox, ray) {
      info := FindIntersectionNode(t.root, t.bbox, ray, hit);
    } else {
      info := NoHit;
    }
  }
}
