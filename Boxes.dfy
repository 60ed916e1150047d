/**
  Axis-aligned bounding boxes (raylib/BoundingBox.cs) and the per-axis interval
  `Bound` they are built from. A box is a pair of corners; nothing forces
  min <= max, so reversed ("empty") boxes are ordinary values.
 */
module Boxes {
  import opened Vectors
  import opened Limits

  /** An interval on one axis, stored as given (Min is not required to be <= Max). */
  datatype Bound = Bound(min: real, max: real)

  datatype Box = Box(boxMin: Vec, boxMax: Vec)

  datatype ValSign = Zero | Negative | Positive

  /** The parameterless constructor: min at +MaxValue, max at MinValue, i.e. reversed on every axis. */
  const DefaultBox := Box(Vec(MaxValue, MaxValue, MaxValue), Vec(MinValue, MinValue, MinValue))

  function Min(a: real, b: real): real { if a <= b then a else b }
  function Max(a: real, b: real): real { if a >= b then a else b }

  /** The Bound-based constructor copies each interval's ends without reordering them:
      the box is empty exactly when one of the intervals is reversed. */
  function FromBounds(x: Bound, y: Bound, z: Bound): (r: Box)
    ensures r.boxMin.x == x.min && r.boxMin.y == y.min && r.boxMin.z == z.min
    ensures r.boxMax.x == x.max && r.boxMax.y == y.max && r.boxMax.z == z.max
    ensures IsEmpty(r) <==> (x.max < x.min || y.max < y.min || z.max < z.min)
  {
    Box(Vec(x.min, y.min, z.min), Vec(x.max, y.max, z.max))
  }

  /** GetEnlargedToEnclose: the smallest box whose corners dominate both boxes' corners. */
  function Enclose(a: Box, b: Box): (r: Box)
    ensures r.boxMin.x <= a.boxMin.x && r.boxMin.x <= b.boxMin.x
    ensures r.boxMin.y <= a.boxMin.y && r.boxMin.y <= b.boxMin.y
    ensures r.boxMin.z <= a.boxMin.z && r.boxMin.z <= b.boxMin.z
    ensures r.boxMax.x >= a.boxMax.x && r.boxMax.x >= b.boxMax.x
    ensures r.boxMax.y >= a.boxMax.y && r.boxMax.y >= b.boxMax.y
    ensures r.boxMax.z >= a.boxMax.z && r.boxMax.z >= b.boxMax.z
    ensures r.boxMin.x in {a.boxMin.x, b.boxMin.x} && r.boxMax.x in {a.boxMax.x, b.boxMax.x}
    ensures r.boxMin.y in {a.boxMin.y, b.boxMin.y} && r.boxMax.y in {a.boxMax.y, b.boxMax.y}
    ensures r.boxMin.z in {a.boxMin.z, b.boxMin.z} && r.boxMax.z in {a.boxMax.z, b.boxMax.z}
  {
    FromBounds(Bound(Min(a.boxMin.x, b.boxMin.x), Max(a.boxMax.x, b.boxMax.x)),
               Bound(Min(a.boxMin.y, b.boxMin.y), Max(a.boxMax.y, b.boxMax.y)),
               Bound(Min(a.boxMin.z, b.boxMin.z), Max(a.boxMax.z, b.boxMax.z)))
  }

  /** Closed containment: the faces belong to the box. */
  predicate InClosedBox(b: Box, p: Vec) {
    b.boxMin.x <= p.x <= b.boxMax.x && b.boxMin.y <= p.y <= b.boxMax.y && b.boxMin.z <= p.z <= b.boxMax.z
  }

  /** IsEmpty: reversed on some axis, so that not even a point on a face belongs to the box;
      any other box holds at least its own min corner. */
  function IsEmpty(b: Box): (r: bool)
    ensures r ==> forall p :: !InClosedBox(b, p)
    ensures !r ==> InClosedBox(b, b.boxMin)
  {
    b.boxMax.x < b.boxMin.x || b.boxMax.y < b.boxMin.y || b.boxMax.z < b.boxMin.z
  }

  /** IsWellFormed: exactly the boxes that hold both of their corners. */
  function IsWellFormed(b: Box): (r: bool)
    ensures r <==> InClosedBox(b, b.boxMin) && InClosedBox(b, b.boxMax)
  {
    b.boxMin.x <= b.boxMax.x && b.boxMin.y <= b.boxMax.y && b.boxMin.z <= b.boxMax.z
  }

  /** Strict containment: a point on a face is not inside, and a box with an inside point has
      positive extent on every axis. */
  function IsPointInside(b: Box, p: Vec): (r: bool)
    ensures r ==> InClosedBox(b, p) && !IsEmpty(b)
    ensures r ==> b.boxMin.x < b.boxMax.x && b.boxMin.y < b.boxMax.y && b.boxMin.z < b.boxMax.z
  {
    p.x > b.boxMin.x && p.x < b.boxMax.x &&
    p.y > b.boxMin.y && p.y < b.boxMax.y &&
    p.z > b.boxMin.z && p.z < b.boxMax.z
  }

  /** GetSurfaceArea: 2(dx dy + dx dz + dy dz), never negative on a well-formed box. */
  function SurfaceArea(b: Box): (r: real)
    ensures IsWellFormed(b) ==> r >= 0.0
    ensures b.boxMin == b.boxMax ==> r == 0.0
  {
    var d := Sub(b.boxMax, b.boxMin);
    assert IsWellFormed(b) ==> d.x * d.y >= 0.0 && d.x * d.z >= 0.0 && d.y * d.z >= 0.0 by {
      if IsWellFormed(b) {
        NonNegativeProduct(d.x, d.y);
        NonNegativeProduct(d.x, d.z);
        NonNegativeProduct(d.y, d.z);
      }
    }
    (d.x * d.y + d.x * d.z + d.y * d.z) * 2.0
  }

  lemma NonNegativeProduct(a: real, b: real)
    requires a >= 0.0 && b >= 0.0
    ensures a * b >= 0.0
  {
  }

  /** CalcSign checks for a negative value first, then for |v| < 1e-5. */
  function CalcSign(v: real): (r: ValSign)
    ensures r == Negative <==> v < 0.0
    ensures r == Zero <==> 0.0 <= v < 0.00001
    ensures r == Positive <==> v >= 0.00001
  {
    if v < 0.0 then Negative
    else if (if v < 0.0 then -v else v) < 0.00001 then Zero
    else Positive
  }

  /** Enclose is commutative, associative and idempotent. */
  lemma EncloseLaws(a: Box, b: Box, c: Box)
    ensures Enclose(a, b) == Enclose(b, a)
    ensures Enclose(Enclose(a, b), c) == Enclose(a, Enclose(b, c))
    ensures Enclose(a, a) == a
  {
  }

  predicate WithinLimits(b: Box) {
    MinValue <= b.boxMin.x <= MaxValue && MinValue <= b.boxMin.y <= MaxValue && MinValue <= b.boxMin.z <= MaxValue &&
    MinValue <= b.boxMax.x <= MaxValue && MinValue <= b.boxMax.y <= MaxValue && MinValue <= b.boxMax.z <= MaxValue
  }

  /** The default box is empty, and enclosing it with any box inside the double range gives that box back. */
  lemma DefaultBoxIsEmptyIdentity(b: Box)
    requires WithinLimits(b)
    ensures IsEmpty(DefaultBox)
    ensures Enclose(DefaultBox, b) == b && Enclose(b, DefaultBox) == b
  {
  }

  lemma WellFormedIffNotEmpty(b: Box)
    ensures IsWellFormed(b) <==> !IsEmpty(b)
  {
  }

  /** Points on a face are never inside; inside points lie strictly between the corners, so a
      box flat on some axis (or empty) contains nothing. */
  lemma PointInsideIsStrict(b: Box, p: Vec)
    ensures (p.x == b.boxMin.x || p.x == b.boxMax.x || p.y == b.boxMin.y || p.y == b.boxMax.y
             || p.z == b.boxMin.z || p.z == b.boxMax.z) ==> !IsPointInside(b, p)
    ensures (b.boxMin.x >= b.boxMax.x || b.boxMin.y >= b.boxMax.y || b.boxMin.z >= b.boxMax.z) ==> !IsPointInside(b, p)
  {
  }
}
