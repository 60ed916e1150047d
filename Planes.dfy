/**
  Infinite planes (raylib/PlaneShape.cs): the points p with normal . p + dval = 0, where
  the shape's Position is the normal.
 */
module Planes {
  import opened Vectors
  import opened Boxes
  import opened Hits
  import opened Materials

  datatype Plane = Plane(normal: Vec, dval: real, material: Material)

  /** Texture coordinates of a point: its components along (n.y, n.z, -n.x) and that vector
      crossed with the normal, on a textured material; (0, 0) otherwise. */
  function TextureCoordinates(p: Plane, point: Vec): (uv: (real, real))
    ensures !HasTexture(p.material) ==> uv == (0.0, 0.0)
  {
    if HasTexture(p.material) then
      var vecU := Vec(p.normal.y, p.normal.z, -p.normal.x);
      var vecV := Cross(vecU, p.normal);
      (Dot(point, vecU), Dot(point, vecV))
    else (0.0, 0.0)
  }

  /** Intersect: rays facing away from or parallel to the plane miss; so do rays whose
      parameter t is not positive; a hit reports t, the normal and the plane's id. */
  function Intersect(p: Plane, id: int, ray: Ray): (r: IntersectionInfo)
    ensures Dot(p.normal, ray.direction) >= 0.0 ==> r == NoHit
    ensures Dot(p.normal, ray.direction) < 0.0 ==>
              var t := -(Dot(p.normal, ray.position) + p.dval) / Dot(p.normal, ray.direction);
              (t <= 0.0 ==> r == NoHit)
              && (t > 0.0 ==> r.distance == t && r.elementId == id && r.normal == p.normal
                              && r.position == Add(ray.position, Scale(ray.direction, t)))
    ensures r != NoHit ==> r.distance > 0.0
    ensures r != NoHit && !HasTexture(p.material) ==> r.color == GetColor(p.material, 0.0, 0.0)
  {
    var vd := Dot(p.normal, ray.direction);
    if vd >= 0.0 then NoHit
    else
      var t := -(Dot(p.normal, ray.position) + p.dval) / vd;
      if t <= 0.0 then NoHit
      else
        var point := Add(ray.position, Scale(ray.direction, t));
        var uv := TextureCoordinates(p, point);
        IntersectionInfo(GetColor(p.material, uv.0, uv.1), t, p.normal, point, id)
  }

  /** Every point a hit reports lies on the plane. */
  lemma {:induction false} HitLiesOnPlane(p: Plane, id: int, ray: Ray)
    requires Intersect(p, id, ray) != NoHit
    ensures Dot(p.normal, Intersect(p, id, ray).position) + p.dval == 0.0
  {
    assert Dot(p.normal, ray.direction) < 0.0;
    PointOnPlane(p.normal, ray.position, ray.direction, p.dval);
  }

  /** The point at parameter t = -(n . o + d) / (n . dir) along the ray satisfies n . q + d = 0. */
  lemma PointOnPlane(n: Vec, o: Vec, dir: Vec, dval: real)
    requires Dot(n, dir) != 0.0
    ensures var t := -(Dot(n, o) + dval) / Dot(n, dir);
      Dot(n, Add(o, Scale(dir, t))) + dval == 0.0
  {
    var vd := Dot(n, dir);
    var t := -(Dot(n, o) + dval) / vd;
    DotLinearRight(o, Scale(dir, t), n, t);
    DotLinearRight(dir, dir, n, t);
    assert t * vd == -(Dot(n, o) + dval);
  }

  function GetMaterial(p: Plane): Material {
    p.material
  }

  /** GetMinPoint / GetMaxPoint: the same fixed corners for every plane. */
  const MinPoint := Vec(-1000.0, -1000.0, -1000.0)
  const MaxPoint := Vec(1000.0, 1000.0, 1000.0)

  function BoundingBox(p: Plane): (b: Box)
    ensures IsWellFormed(b) && !IsEmpty(b)
    ensures IsPointInside(b, Origin)
  {
    Box(MinPoint, MaxPoint)
  }
}
