/**
  The shape abstraction (raylib/Shape.cs, raylib/IShape.cs): a geometry (sphere, plane or
  triangle) together with the Id and bounding box the scene assigns to it. The source
  sets Id and BoundingBox on the shape object in place; here a registered shape is a new
  value built from the unregistered geometry.
 */
module Shapes {
  import opened Vectors
  import opened Boxes
  import opened Hits
  import opened Materials
  import Spheres
  import Planes
  import Triangles

  datatype Geometry =
    | SphereGeom(sphere: Spheres.Sphere)
    | PlaneGeom(plane: Planes.Plane)
    | TriangleGeom(triangle: Triangles.Triangle)

  datatype Shape = Shape(id: int, box: Box, geometry: Geometry)

  /** Position: the sphere's centre, the plane's normal (what PlaneShape passes to the base
      constructor) and the triangle's first vertex. */
  function Position(g: Geometry): (p: Vec)
    ensures g.SphereGeom? ==> p == g.sphere.position
    ensures g.PlaneGeom? ==> p == g.plane.normal
    ensures g.TriangleGeom? ==> p == g.triangle.va
  {
    match g
    case SphereGeom(s) => s.position
    case PlaneGeom(p) => p.normal
    case TriangleGeom(t) => t.va
  }

  /** GetMinPoint: the Min ends of the per-axis bounds for spheres and triangles, the fixed
      corner for planes. */
  function MinPoint(g: Geometry): Vec {
    match g
    case SphereGeom(s) =>
      Vec(Spheres.CalculateBoundingPlanes(s, UnitX).min, Spheres.CalculateBoundingPlanes(s, UnitY).min,
          Spheres.CalculateBoundingPlanes(s, UnitZ).min)
    case PlaneGeom(_) => Planes.MinPoint
    case TriangleGeom(t) =>
      Vec(Triangles.CalculateBoundingPlanes(t, UnitX).min, Triangles.CalculateBoundingPlanes(t, UnitY).min,
          Triangles.CalculateBoundingPlanes(t, UnitZ).min)
  }

  /** GetMaxPoint, the Max ends correspondingly. */
  function MaxPoint(g: Geometry): Vec {
    match g
    case SphereGeom(s) =>
      Vec(Spheres.CalculateBoundingPlanes(s, UnitX).max, Spheres.CalculateBoundingPlanes(s, UnitY).max,
          Spheres.CalculateBoundingPlanes(s, UnitZ).max)
    case PlaneGeom(_) => Planes.MaxPoint
    case TriangleGeom(t) =>
      Vec(Triangles.CalculateBoundingPlanes(t, UnitX).max, Triangles.CalculateBoundingPlanes(t, UnitY).max,
          Triangles.CalculateBoundingPlanes(t, UnitZ).max)
  }

  /** The box the scene stores: new BoundingBox(GetMinPoint(), GetMaxPoint()). It agrees with
      BoundingBox.FromShape for every kind of geometry. */
  function BoxOf(g: Geometry): (b: Box)
    ensures g.SphereGeom? ==> b == Spheres.BoundingBox(g.sphere)
    ensures g.PlaneGeom? ==> b == Planes.BoundingBox(g.plane)
    ensures g.TriangleGeom? ==> b == Triangles.BoundingBox(g.triangle)
  {
    Box(MinPoint(g), MaxPoint(g))
  }

  /** Intersect dispatches to the geometry with the shape's own Id. */
  function Intersect(s: Shape, ray: Ray, sqrt: real -> real): (r: IntersectionInfo)
    ensures s.geometry.SphereGeom? ==> r == Spheres.Intersect(s.geometry.sphere, s.id, ray, sqrt)
    ensures s.geometry.PlaneGeom? ==> r == Planes.Intersect(s.geometry.plane, s.id, ray)
    ensures s.geometry.TriangleGeom? ==> r == Triangles.Intersect(s.geometry.triangle, s.id, ray)
    ensures r == NoHit || r.elementId == s.id
  {
    match s.geometry
    case SphereGeom(sp) => Spheres.Intersect(sp, s.id, ray, sqrt)
    case PlaneGeom(p) => Planes.Intersect(p, s.id, ray)
    case TriangleGeom(t) => Triangles.Intersect(t, s.id, ray)
  }

  function GetMaterial(g: Geometry): (m: Material)
    ensures g.SphereGeom? ==> m == g.sphere.material
    ensures g.PlaneGeom? ==> m == g.plane.material
    ensures g.TriangleGeom? ==> m == g.triangle.front
  {
    match g
    case SphereGeom(s) => Spheres.GetMaterial(s)
    case PlaneGeom(p) => Planes.GetMaterial(p)
    case TriangleGeom(t) => Triangles.GetMaterial(t)
  }

  /** A shape with Id 0, the value an unregistered shape carries, never reports a hit. */
  lemma UnregisteredNeverHits(s: Shape, ray: Ray, sqrt: real -> real)
    requires s.id == 0
    ensures !IsHit(Intersect(s, ray, sqrt))
  {
  }
}
