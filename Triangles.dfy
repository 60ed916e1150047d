/**
  Triangles (raylib/TriangleShape.cs). The constructor precomputes the edges, a normal,
  the plane coefficient and a barycentric basis; Intersect tests the plane side, then the
  barycentric coordinates of the point where the ray meets the plane.
 */
module Triangles {
  import opened Wrappers
  import opened Limits
  import opened Vectors
  import opened Boxes
  import opened Hits
  import opened Materials

  /** Ubeta and Ugamma: dot products with them give the barycentric coordinates. */
  datatype Basis = Basis(ubeta: Vec, ugamma: Vec)

  /** The constructor's stored state. `basis` is absent when the denominator of the basis,
      |AB|^2 |CA|^2 - (AB . CA)^2, is zero (the source then divides by zero). */
  datatype Triangle = Triangle(
    va: Vec, vb: Vec, vc: Vec, front: Material, back: Material,
    edgeAb: Vec, edgeBc: Vec, edgeCa: Vec,
    normal: Vec, magnitude: real, planeCoefficient: real, basis: Option<Basis>)

  /** The unnormalised normal: AB x BC when AB . BC < BC . CA, else BC x CA. */
  function RawNormal(ab: Vec, bc: Vec, ca: Vec): (n: Vec)
    ensures Dot(ab, bc) < Dot(bc, ca) ==> n == Cross(ab, bc)
    ensures Dot(ab, bc) >= Dot(bc, ca) ==> n == Cross(bc, ca)
  {
    if Dot(ab, bc) < Dot(bc, ca) then Cross(ab, bc) else Cross(bc, ca)
  }

  /** a c - b^2 with a = |AB|^2, b = AB . CA, c = |CA|^2. */
  function BasisDenominator(ab: Vec, ca: Vec): real {
    MagnitudeSquared(ab) * MagnitudeSquared(ca) - Dot(ab, ca) * Dot(ab, ca)
  }

  /** The barycentric basis, scaled by 1 / (a c - b^2). */
  function MakeBasis(ab: Vec, ca: Vec): (r: Option<Basis>)
    ensures r.None? <==> BasisDenominator(ab, ca) == 0.0
  {
    var den := BasisDenominator(ab, ca);
    if den == 0.0 then None else Some(ScaledBasis(ab, ca, 1.0 / den))
  }

  /** Ubeta = AB c' - CA b' and Ugamma = -CA a' + AB b', where a', b', c' are a, b, c times dinv. */
  function ScaledBasis(ab: Vec, ca: Vec, dinv: real): Basis {
    Basis(AddScaled(Vectors.Scale(ab, MagnitudeSquared(ca) * dinv), ca, -(Dot(ab, ca) * dinv)),
          AddScaled(Vectors.Scale(ca, -(MagnitudeSquared(ab) * dinv)), ab, Dot(ab, ca) * dinv))
  }

  /** The constructor: VA is the shape's Position; the normal is divided by its magnitude
      only when that magnitude is positive; the plane coefficient is Normal . VA. */
  function NewTriangle(va: Vec, vb: Vec, vc: Vec, front: Material, back: Material, sqrt: real -> real): (t: Triangle)
    ensures t.va == va && t.vb == vb && t.vc == vc && t.front == front && t.back == back
    ensures t.edgeAb == Sub(vb, va) && t.edgeBc == Sub(vc, vb) && t.edgeCa == Sub(va, vc)
    ensures t.magnitude == Magnitude(RawNormal(t.edgeAb, t.edgeBc, t.edgeCa), sqrt)
    ensures t.magnitude > 0.0 ==> t.normal == Div(RawNormal(t.edgeAb, t.edgeBc, t.edgeCa), t.magnitude)
    ensures t.magnitude <= 0.0 ==> t.normal == RawNormal(t.edgeAb, t.edgeBc, t.edgeCa)
    ensures t.planeCoefficient == Dot(t.normal, va)
    ensures t.basis.None? <==> BasisDenominator(t.edgeAb, t.edgeCa) == 0.0
  {
    var ab, bc, ca := Sub(vb, va), Sub(vc, vb), Sub(va, vc);
    var raw := RawNormal(ab, bc, ca);
    var m := Magnitude(raw, sqrt);
    var n := if m > 0.0 then Div(raw, m) else raw;
    Triangle(va, vb, vc, front, back, ab, bc, ca, n, m, Dot(n, va), MakeBasis(ab, ca))
  }

  /** IsWellFormed: the stored normal has positive squared length, that is, it is not the
      zero vector. */
  function IsWellFormed(t: Triangle): (r: bool)
    ensures r <==> t.normal != Origin
  {
    ZeroLengthIffOrigin(t.normal);
    MagnitudeSquared(t.normal) > 0.0
  }

  /** IsBackfaceCulled: no triangle is ever culled. */
  function IsBackfaceCulled(t: Triangle): (r: bool)
    ensures !r
  {
    false
  }

  /** GetMaterial always returns the front material. */
  function GetMaterial(t: Triangle): (m: Material)
    ensures m == t.front
  {
    t.front
  }

  function MDotN(t: Triangle, ray: Ray): real {
    Dot(ray.direction, t.normal)
  }

  function PlanarDist(t: Triangle, ray: Ray): real {
    Dot(ray.position, t.normal) - t.planeCoefficient
  }

  /** The plane-side rejection: a front-facing ray (direction . normal <= 0) must start strictly
      on the normal's side, a back-facing one strictly on the other side, each within
      double.MaxValue of the plane along the ray. */
  predicate PlaneMiss(t: Triangle, ray: Ray) {
    var mdotn := MDotN(t, ray);
    var planarDist := PlanarDist(t, ray);
    if mdotn <= 0.0 then planarDist <= 0.0 || planarDist >= -MaxValue * mdotn
    else IsBackfaceCulled(t) || planarDist >= 0.0 || -planarDist >= MaxValue * mdotn
  }

  /** When the plane test passes, the direction is not parallel to the plane. */
  lemma PlanePassNotParallel(t: Triangle, ray: Ray)
    requires !PlaneMiss(t, ray)
    ensures MDotN(t, ray) != 0.0
    ensures MDotN(t, ray) <= 0.0 ==> PlanarDist(t, ray) > 0.0
    ensures MDotN(t, ray) > 0.0 ==> PlanarDist(t, ray) < 0.0
  {
  }

  function HitDistance(t: Triangle, ray: Ray): real
    requires !PlaneMiss(t, ray)
  {
    PlanePassNotParallel(t, ray);
    -PlanarDist(t, ray) / MDotN(t, ray)
  }

  function PlanePoint(t: Triangle, ray: Ray): Vec
    requires !PlaneMiss(t, ray)
  {
    Add(Vectors.Scale(ray.direction, HitDistance(t, ray)), ray.position)
  }

  /** The barycentric coordinates (vCoord, wCoord) of the point where the ray meets the plane. */
  function Coordinates(t: Triangle, ray: Ray): (real, real)
    requires !PlaneMiss(t, ray) && t.basis.Some?
  {
    var v := Sub(PlanePoint(t, ray), t.va);
    (Dot(v, t.basis.value.ubeta), Dot(v, t.basis.value.ugamma))
  }

  predicate InsideTriangle(vCoord: real, wCoord: real) {
    vCoord >= 0.0 && wCoord >= 0.0 && vCoord + wCoord <= 1.0
  }

  /** Intersect: no hit when the plane test fails or either barycentric coordinate is negative
      or their sum exceeds one. A hit reports the plane point, its distance along the ray, the
      normal, the triangle's id, and the front material's colour for front-facing rays and the
      back material's for back-facing ones, both at (vCoord, wCoord). */
  function Intersect(t: Triangle, id: int, ray: Ray): (r: IntersectionInfo)
    ensures PlaneMiss(t, ray) || t.basis.None? ==> r == NoHit
    ensures !PlaneMiss(t, ray) && t.basis.Some? ==>
              var (vCoord, wCoord) := Coordinates(t, ray);
              (!InsideTriangle(vCoord, wCoord) ==> r == NoHit)
              && (InsideTriangle(vCoord, wCoord) ==>
                    r.distance == HitDistance(t, ray) && r.position == PlanePoint(t, ray)
                    && r.normal == t.normal && r.elementId == id
                    && r.color == GetColor(if MDotN(t, ray) <= 0.0 then t.front else t.back, vCoord, wCoord))
  {
    if PlaneMiss(t, ray) || t.basis.None? then NoHit
    else
      var (vCoord, wCoord) := Coordinates(t, ray);
      if vCoord < 0.0 || wCoord < 0.0 || vCoord + wCoord > 1.0 then NoHit
      else
        var m := if MDotN(t, ray) <= 0.0 then t.front else t.back;
        IntersectionInfo(GetColor(m, vCoord, wCoord), HitDistance(t, ray), t.normal, PlanePoint(t, ray), id)
  }

  /** A reported hit lies on the triangle's plane: Normal . q equals the plane coefficient. */
  lemma {:induction false} HitLiesOnPlane(t: Triangle, id: int, ray: Ray)
    requires Intersect(t, id, ray) != NoHit
    ensures Dot(Intersect(t, id, ray).position, t.normal) == t.planeCoefficient
    ensures Intersect(t, id, ray).distance > 0.0
  {
    PlanePassNotParallel(t, ray);
    var mdotn, pd := MDotN(t, ray), PlanarDist(t, ray);
    var dist := HitDistance(t, ray);
    assert dist * mdotn == -pd;
    var q := PlanePoint(t, ray);
    assert Dot(q, t.normal) == dist * mdotn + Dot(ray.position, t.normal);
    if mdotn < 0.0 {
      assert -pd < 0.0;
    }
  }

  /** The two candidate normals are the same vector, -(AB x CA), whichever branch is taken. */
  lemma NormalCandidatesAgree(va: Vec, vb: Vec, vc: Vec)
    ensures var ab, bc, ca := Sub(vb, va), Sub(vc, vb), Sub(va, vc);
      Cross(ab, bc) == Cross(bc, ca) == Cross(ca, ab)
  {
  }

  /** Lagrange's identity for the raw normal: its squared length is the basis denominator. */
  lemma {:induction false} RawNormalLength(va: Vec, vb: Vec, vc: Vec)
    ensures var ab, bc, ca := Sub(vb, va), Sub(vc, vb), Sub(va, vc);
      MagnitudeSquared(RawNormal(ab, bc, ca)) == BasisDenominator(ab, ca)
  {
    var ab, bc, ca := Sub(vb, va), Sub(vc, vb), Sub(va, vc);
    NormalCandidatesAgree(va, vb, vc);
    assert RawNormal(ab, bc, ca) == Cross(ca, ab);
    LagrangeIdentity(ca, ab);
    DotCommutative(ab, ca);
    ProductCommutes(MagnitudeSquared(ca), MagnitudeSquared(ab));
  }

  lemma ProductCommutes(p: real, q: real)
    ensures p * q == q * p
  {
  }

  lemma LagrangeIdentity(a: Vec, b: Vec)
    ensures MagnitudeSquared(Cross(a, b)) == MagnitudeSquared(a) * MagnitudeSquared(b) - Dot(a, b) * Dot(a, b)
  {
    var c := Cross(a, b);
    assert c.x * c.x + c.y * c.y + c.z * c.z
        == (a.x * a.x + a.y * a.y + a.z * a.z) * (b.x * b.x + b.y * b.y + b.z * b.z)
           - (a.x * b.x + a.y * b.y + a.z * b.z) * (a.x * b.x + a.y * b.y + a.z * b.z);
  }

  /** When the basis cannot be formed the triangle is degenerate: its normal is the zero
      vector, so the plane test already rejects every ray. The missing basis therefore never
      decides an intersection, whatever square root the constructor used. */
  lemma {:induction false} DegenerateTriangleMissesEveryRay(va: Vec, vb: Vec, vc: Vec, front: Material,
                                                          back: Material, sqrt: real -> real, ray: Ray)
    requires NewTriangle(va, vb, vc, front, back, sqrt).basis.None?
    ensures NewTriangle(va, vb, vc, front, back, sqrt).normal == Origin
    ensures PlaneMiss(NewTriangle(va, vb, vc, front, back, sqrt), ray)
  {
    var t := NewTriangle(va, vb, vc, front, back, sqrt);
    RawNormalVanishes(va, vb, vc);
    ZeroRawNormalMisses(t, RawNormal(t.edgeAb, t.edgeBc, t.edgeCa), ray);
  }

  /** A zero raw normal stays the zero vector after the constructor's division, and a
      zero normal misses. */
  lemma ZeroRawNormalMisses(t: Triangle, raw: Vec, ray: Ray)
    requires raw == Origin
    requires t.magnitude > 0.0 ==> t.normal == Div(raw, t.magnitude)
    requires t.magnitude <= 0.0 ==> t.normal == raw
    requires t.planeCoefficient == Dot(t.normal, t.va)
    ensures t.normal == Origin && PlaneMiss(t, ray)
  {
    ZeroStaysZero(raw, t.magnitude, t.normal);
    ZeroNormalMisses(t, ray);
  }

  /** With a zero basis denominator the raw normal is the zero vector. */
  lemma RawNormalVanishes(va: Vec, vb: Vec, vc: Vec)
    requires BasisDenominator(Sub(vb, va), Sub(va, vc)) == 0.0
    ensures RawNormal(Sub(vb, va), Sub(vc, vb), Sub(va, vc)) == Origin
  {
    RawNormalLength(va, vb, vc);
    ZeroLengthIffOrigin(RawNormal(Sub(vb, va), Sub(vc, vb), Sub(va, vc)));
  }

  /** Dividing the zero vector by a positive magnitude leaves it zero. */
  lemma ZeroStaysZero(raw: Vec, m: real, n: Vec)
    requires raw == Origin
    requires m > 0.0 ==> n == Div(raw, m)
    requires m <= 0.0 ==> n == raw
    ensures n == Origin
  {
  }

  /** A zero normal makes both direction . normal and the planar distance zero: a miss. */
  lemma ZeroNormalMisses(t: Triangle, ray: Ray)
    requires t.normal == Origin && t.planeCoefficient == Dot(t.normal, t.va)
    ensures PlaneMiss(t, ray)
  {
    DotWithOrigin(ray.direction);
    DotWithOrigin(ray.position);
    DotWithOrigin(t.va);
  }

  /** Dot product with a linear combination s1 p + s2 q. */
  lemma DotCombination(u: Vec, p: Vec, q: Vec, s1: real, s2: real)
    ensures Dot(u, AddScaled(Vectors.Scale(p, s1), q, s2)) == s1 * Dot(u, p) + s2 * Dot(u, q)
  {
    DotLinearRight(Vectors.Scale(p, s1), Vectors.Scale(q, s2), u, 0.0);
    DotLinearRight(p, p, u, s1);
    DotLinearRight(q, q, u, s2);
  }

  lemma DivOrigin(m: real)
    requires m != 0.0
    ensures Div(Origin, m) == Origin
  {
  }

  lemma DotWithOrigin(a: Vec)
    ensures Dot(a, Origin) == 0.0 && Dot(Origin, a) == 0.0
  {
  }

  /** The basis is dual to the edges AB and AC: dotting with Ubeta reads off the AB
      coefficient, with Ugamma the AC coefficient. */
  lemma {:induction false} BasisIsDual(va: Vec, vb: Vec, vc: Vec, front: Material, back: Material, sqrt: real -> real)
    requires NewTriangle(va, vb, vc, front, back, sqrt).basis.Some?
    ensures var t := NewTriangle(va, vb, vc, front, back, sqrt);
      var ab, ac := Sub(vb, va), Sub(vc, va);
      var ub, ug := t.basis.value.ubeta, t.basis.value.ugamma;
      Dot(ab, ub) == 1.0 && Dot(ac, ub) == 0.0 && Dot(ab, ug) == 0.0 && Dot(ac, ug) == 1.0
  {
    var ab, ca, ac := Sub(vb, va), Sub(va, vc), Sub(vc, va);
    var t := NewTriangle(va, vb, vc, front, back, sqrt);
    assert t.edgeAb == ab && t.edgeCa == ca;
    var den := BasisDenominator(ab, ca);
    assert t.basis == Some(ScaledBasis(ab, ca, 1.0 / den));
    ScaledBasisIsDual(ab, ca, 1.0 / den);
    assert ac == Vectors.Scale(ca, -1.0);
    var ub, ug := t.basis.value.ubeta, t.basis.value.ugamma;
    DotLinearLeft(ca, ca, ub, -1.0);
    DotLinearLeft(ca, ca, ug, -1.0);
  }

  lemma {:induction false} ScaledBasisIsDual(ab: Vec, ca: Vec, dinv: real)
    requires BasisDenominator(ab, ca) != 0.0 && dinv == 1.0 / BasisDenominator(ab, ca)
    ensures var bs := ScaledBasis(ab, ca, dinv);
      Dot(ab, bs.ubeta) == 1.0 && Dot(ca, bs.ubeta) == 0.0 && Dot(ab, bs.ugamma) == 0.0 && Dot(ca, bs.ugamma) == -1.0
  {
    UbetaIsDual(ab, ca, dinv);
    UgammaIsDual(ab, ca, dinv);
  }

  lemma UbetaIsDual(ab: Vec, ca: Vec, dinv: real)
    requires BasisDenominator(ab, ca) != 0.0 && dinv == 1.0 / BasisDenominator(ab, ca)
    ensures var ub := ScaledBasis(ab, ca, dinv).ubeta;
      Dot(ab, ub) == 1.0 && Dot(ca, ub) == 0.0
  {
    var a0, b0, c0 := MagnitudeSquared(ab), Dot(ab, ca), MagnitudeSquared(ca);
    var a, b, c := a0 * dinv, b0 * dinv, c0 * dinv;
    ScaledDenominator(a0, b0, c0, BasisDenominator(ab, ca), dinv, a, b, c);
    DotCommutative(ab, ca);
    DotOfCombination(ab, ab, ca, c, -b, a0, b0);
    DotOfCombination(ca, ab, ca, c, -b, b0, c0);
  }

  lemma UgammaIsDual(ab: Vec, ca: Vec, dinv: real)
    requires BasisDenominator(ab, ca) != 0.0 && dinv == 1.0 / BasisDenominator(ab, ca)
    ensures var ug := ScaledBasis(ab, ca, dinv).ugamma;
      Dot(ab, ug) == 0.0 && Dot(ca, ug) == -1.0
  {
    var a0, b0, c0 := MagnitudeSquared(ab), Dot(ab, ca), MagnitudeSquared(ca);
    var a, b, c := a0 * dinv, b0 * dinv, c0 * dinv;
    ScaledDenominator(a0, b0, c0, BasisDenominator(ab, ca), dinv, a, b, c);
    DotCommutative(ab, ca);
    DotOfCombination(ab, ca, ab, -a, b, b0, a0);
    DotOfCombination(ca, ca, ab, -a, b, c0, b0);
  }

  /** DotCombination with the two dot products already known. */
  lemma DotOfCombination(u: Vec, p: Vec, q: Vec, s1: real, s2: real, dp: real, dq: real)
    requires Dot(u, p) == dp && Dot(u, q) == dq
    ensures Dot(u, AddScaled(Vectors.Scale(p, s1), q, s2)) == s1 * dp + s2 * dq
  {
    DotCombination(u, p, q, s1, s2);
  }

  lemma ScaledDenominator(a0: real, b0: real, c0: real, den: real, dinv: real, a: real, b: real, c: real)
    requires den == a0 * c0 - b0 * b0 && den != 0.0 && dinv == 1.0 / den
    requires a == a0 * dinv && b == b0 * dinv && c == c0 * dinv
    ensures c * a0 + (-b) * b0 == 1.0
    ensures c * b0 + (-b) * c0 == 0.0
    ensures (-a) * b0 + b * a0 == 0.0
    ensures (-a) * c0 + b * b0 == -1.0
  {
    assert den * dinv == 1.0;
    calc {
      c * a0 + (-b) * b0;
      (c0 * dinv) * a0 - (b0 * dinv) * b0;
      (a0 * c0 - b0 * b0) * dinv;
      den * dinv;
    }
    calc {
      (-a) * c0 + b * b0;
      -((a0 * dinv) * c0) + (b0 * dinv) * b0;
      -((a0 * c0 - b0 * b0) * dinv);
      -(den * dinv);
    }
  }

  /** CalculateBoundingPlanes: order the projections of VA and VB, then let VC's projection
      either lower Min or (otherwise) overwrite Max. */
  function CalculateBoundingPlanes(t: Triangle, unit: Vec): (r: Bound)
    ensures var pa, pb, pc := Dot(unit, t.va), Dot(unit, t.vb), Dot(unit, t.vc);
      r.min <= pa && r.min <= pb && r.min <= pc && (r.min == pa || r.min == pb || r.min == pc)
      && r.max >= r.min && r.max >= pc
  {
    var minD0, maxD0 := Dot(unit, t.va), Dot(unit, t.vb);
    var minD, maxD := if maxD0 < minD0 then maxD0 else minD0, if maxD0 < minD0 then minD0 else maxD0;
    var pc := Dot(unit, t.vc);
    if pc < minD then Bound(pc, maxD) else Bound(minD, pc)
  }

  /** Max is the largest projection exactly when VC's projection is not strictly between the
      smaller and the larger of VA's and VB's (equal to the smaller counts as between). */
  lemma BoundMaxIsLargestIff(t: Triangle, unit: Vec)
    ensures var pa, pb, pc := Dot(unit, t.va), Dot(unit, t.vb), Dot(unit, t.vc);
      var lo, hi := Min(pa, pb), Max(pa, pb);
      (CalculateBoundingPlanes(t, unit).max == Max(hi, pc)) <==> !(lo <= pc < hi)
  {
  }

  /** A concrete triangle whose x-bound misses its largest vertex: VC's x lies between VA's and VB's. */
  lemma BoundMaxMissesLargestVertex(t: Triangle)
    requires t.va == Vec(0.0, 0.0, 0.0) && t.vb == Vec(2.0, 0.0, 0.0) && t.vc == Vec(1.0, 0.0, 0.0)
    ensures CalculateBoundingPlanes(t, UnitX) == Bound(0.0, 1.0) && Dot(UnitX, t.vb) == 2.0
  {
    DotWithUnitAxes(t.va);
    DotWithUnitAxes(t.vb);
    DotWithUnitAxes(t.vc);
    BoundOfMiddleVertex(t, UnitX);
  }

  lemma BoundOfMiddleVertex(t: Triangle, u: Vec)
    requires Dot(u, t.va) == 0.0 && Dot(u, t.vb) == 2.0 && Dot(u, t.vc) == 1.0
    ensures CalculateBoundingPlanes(t, u) == Bound(0.0, 1.0)
  {
  }

  /** BoundingBox.FromShape applied to a triangle. */
  function BoundingBox(t: Triangle): Box {
    FromBounds(CalculateBoundingPlanes(t, UnitX), CalculateBoundingPlanes(t, UnitY),
               CalculateBoundingPlanes(t, UnitZ))
  }
}
