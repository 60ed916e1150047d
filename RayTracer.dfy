/**
  The Whitted-style tracer (raylib/RayTracer.cs): maps a pixel to the viewport, finds the
  nearest hit by brute force or through the KD-tree, and shades it light by light with
  diffuse, reflection, refraction and shadow terms, recursing until RayTraceDepth.

  The camera's GetRay (cosine and sine of the field of view), the square root behind
  Normalize and the sphere test, and Math.Pow are fields of the tracer value.
 */
module RayTracers {
  import opened Wrappers
  import opened Vectors
  import opened Hits
  import opened Shapes
  import opened Scenes
  import opened RenderConfig
  import Colors
  import Materials
  import KdTrees
  import Spheres
  import Boxes

  /** The camera as the tracers use it: its position and its GetRay. */
  datatype Camera = Camera(position: Vec, getRay: (real, real) -> Ray)

  datatype RayTracer = RayTracer(
    camera: Camera,
    renderData: RenderData,
    scene: Scene,
    useKdTree: bool,
    sqrt: real -> real,
    pow: (real, real) -> real)

  // ----- Pixels and rays -----

  /** GetPixelColor's mapping: x to 2x/W - 1, and y to 1 - 2y/H (pixel rows grow downwards).
      Pixels of the image land in [-1, 1) across and (-1, 1] upwards. */
  function PixelToViewport(x: int, y: int, width: int, height: int): (r: (real, real))
    requires width > 0 && height > 0
    ensures 0 <= x < width ==> -1.0 <= r.0 < 1.0
    ensures 0 <= y < height ==> -1.0 < r.1 <= 1.0
  {
    PixelFraction(x, width);
    PixelFraction(y, height);
    (x as real / width as real * 2.0 - 1.0, -(y as real / height as real * 2.0 - 1.0))
  }

  lemma QuotientInUnit(a: real, b: real)
    requires b > 0.0 && 0.0 <= a < b
    ensures 0.0 <= a / b < 1.0
  {
    var q := a / b;
    assert q * b == a;
    if q >= 1.0 {
      Boxes.NonNegativeProduct(q - 1.0, b);
    }
    if q < 0.0 {
      Boxes.NonNegativeProduct(-q, b);
    }
  }

  /** A pixel index inside the image is a fraction in [0, 1) of its extent. */
  lemma PixelFraction(i: int, n: int)
    requires n > 0
    ensures 0 <= i < n ==> 0.0 <= i as real / n as real < 1.0
  {
    if 0 <= i < n {
      QuotientInUnit(i as real, n as real);
    }
  }

  lemma QuotientMonotone(a1: real, a2: real, b: real)
    requires b > 0.0 && a1 < a2
    ensures a1 / b < a2 / b
  {
    var q1, q2 := a1 / b, a2 / b;
    assert q1 * b == a1 && q2 * b == a2;
    if q1 >= q2 {
      Boxes.NonNegativeProduct(q1 - q2, b);
    }
  }

  /** x grows to the right and y is inverted, so a lower row lies lower in the viewport. */
  lemma PixelToViewportMonotone(x: int, y: int, x2: int, y2: int, width: int, height: int)
    requires width > 0 && height > 0
    ensures x < x2 ==> PixelToViewport(x, y, width, height).0 < PixelToViewport(x2, y2, width, height).0
    ensures y < y2 ==> PixelToViewport(x, y, width, height).1 > PixelToViewport(x2, y2, width, height).1
  {
    if x < x2 {
      QuotientMonotone(x as real, x2 as real, width as real);
    }
    if y < y2 {
      QuotientMonotone(y as real, y2 as real, height as real);
    }
  }

  /** The mirror image of v about the normal n: v + n * 2 * -(n . v). */
  function Reflect(v: Vec, n: Vec): Vec {
    Add(v, Scale(Scale(n, 2.0), -Dot(n, v)))
  }

  /** GetReflectionRay: from p along the mirrored direction. */
  function GetReflectionRay(p: Vec, n: Vec, v: Vec): (r: Ray)
    ensures r.position == p && r.direction == Reflect(v, n)
  {
    Ray(p, Reflect(v, n))
  }

  lemma DotAddScaled(a: Vec, v: Vec, m: Vec, s: real)
    ensures Dot(a, Add(v, Scale(m, s))) == Dot(a, v) + s * Dot(a, m)
  {
    assert a.x * (v.x + m.x * s) == a.x * v.x + s * (a.x * m.x);
    assert a.y * (v.y + m.y * s) == a.y * v.y + s * (a.y * m.y);
    assert a.z * (v.z + m.z * s) == a.z * v.z + s * (a.z * m.z);
  }

  /** For a unit normal the mirrored direction flips its component along the normal and keeps
      its length. */
  lemma {:induction false} ReflectIsMirror(v: Vec, n: Vec)
    requires Dot(n, n) == 1.0
    ensures Dot(n, Reflect(v, n)) == -Dot(n, v)
    ensures Dot(Reflect(v, n), Reflect(v, n)) == Dot(v, v)
  {
    var m, c := Scale(n, 2.0), Dot(n, v);
    DoubledNormalDots(v, n);
    DotAddScaled(n, v, m, -c);
    MirrorFlip(c, Dot(n, m));
    Spheres.NormSquaredAlongRay(v, m, -c);
    MirrorLength(Dot(v, v), c, Dot(v, m), Dot(m, m));
  }

  lemma DoubledNormalDots(v: Vec, n: Vec)
    requires Dot(n, n) == 1.0
    ensures Dot(n, Scale(n, 2.0)) == 2.0
    ensures Dot(v, Scale(n, 2.0)) == 2.0 * Dot(n, v)
    ensures Dot(Scale(n, 2.0), Scale(n, 2.0)) == 4.0
  {
    assert Dot(Scale(n, 2.0), Scale(n, 2.0)) == 4.0 * Dot(n, n);
  }

  lemma MirrorFlip(c: real, dnm: real)
    requires dnm == 2.0
    ensures c + -c * dnm == -c
  {
  }

  lemma MirrorLength(vv: real, c: real, dvm: real, dmm: real)
    requires dvm == 2.0 * c && dmm == 4.0
    ensures vv + 2.0 * -c * dvm + -c * -c * dmm == vv
  {
  }

  /** GetRefractionRay: from p along Normalize(n (r c1 - c2) + v r), where c1 = n . v and
      c2 = 1 - r^2 sqrt(1 - c1^2). */
  function GetRefractionRay(p: Vec, n: Vec, v: Vec, refraction: real, sqrt: real -> real): (r: Ray)
    ensures r.position == p
  {
    var c1 := Dot(n, v);
    var c2 := 1.0 - refraction * refraction * sqrt(1.0 - c1 * c1);
    Ray(p, Normalize(Sub(Scale(n, refraction * c1 - c2), Scale(Scale(v, refraction), -1.0)), sqrt))
  }

  // ----- Intersection queries -----

  /** shape.Intersect(ray) for the ray at hand. */
  function ShapeHits(ray: Ray, sqrt: real -> real): Shape -> IntersectionInfo {
    s => Shapes.Intersect(s, ray, sqrt)
  }

  /** Shapes.Where(s => s.Id != excludeId), in order. */
  function Unexcluded(shapes: seq<Shape>, excludeId: int): (r: seq<Shape>)
    ensures forall s :: s in r <==> s in shapes && s.id != excludeId
  {
    if shapes == [] then []
    else
      var last := shapes[|shapes| - 1];
      assert shapes == shapes[..|shapes| - 1] + [last];
      Unexcluded(shapes[..|shapes| - 1], excludeId) + (if last.id != excludeId then [last] else [])
  }

  /** TestIntersectionBasic as a function: the scan over the shapes whose Id is not excluded. */
  function BasicHit(shapes: seq<Shape>, ray: Ray, excludeId: int, sqrt: real -> real): IntersectionInfo {
    Nearest(KdTrees.HitsOf(Unexcluded(shapes, excludeId), ShapeHits(ray, sqrt)))
  }

  /** The scan answers no-hit or the hit of a shape that is not excluded, in front of the
      origin and no farther than any other such shape's hit. */
  lemma BasicHitIsNearestUnexcluded(shapes: seq<Shape>, ray: Ray, excludeId: int, sqrt: real -> real)
    ensures var r := BasicHit(shapes, ray, excludeId, sqrt);
      (r == NoHit || (Qualifies(r) && exists s :: s in shapes && s.id != excludeId && Shapes.Intersect(s, ray, sqrt) == r))
      && (forall s :: s in shapes && s.id != excludeId && Qualifies(Shapes.Intersect(s, ray, sqrt))
            ==> r.distance <= Shapes.Intersect(s, ray, sqrt).distance)
  {
    var cands := Unexcluded(shapes, excludeId);
    var hits := KdTrees.HitsOf(cands, ShapeHits(ray, sqrt));
    var r := Nearest(hits);
    if r != NoHit {
      var i :| 0 <= i < |hits| && hits[i] == r;
      assert cands[i] in cands;
    }
    forall s | s in shapes && s.id != excludeId && Qualifies(Shapes.Intersect(s, ray, sqrt))
      ensures r.distance <= Shapes.Intersect(s, ray, sqrt).distance
    {
      var j :| 0 <= j < |cands| && cands[j] == s;
      NearestNoFartherThanQualifying(hits, j);
    }
  }

  lemma UnexcludedStep(shapes: seq<Shape>, i: int, excludeId: int)
    requires 0 <= i < |shapes|
    ensures Unexcluded(shapes[..i + 1], excludeId)
            == Unexcluded(shapes[..i], excludeId) + (if shapes[i].id != excludeId then [shapes[i]] else [])
  {
    assert shapes[..i + 1][..i] == shapes[..i];
  }

  lemma NearestOfAppended(cands: seq<Shape>, s: Shape, hit: Shape -> IntersectionInfo)
    ensures Nearest(KdTrees.HitsOf(cands + [s], hit)) == Better(Nearest(KdTrees.HitsOf(cands, hit)), hit(s))
  {
    var before := KdTrees.HitsOf(cands, hit);
    KdTrees.HitsOfConcat(cands, [s], hit);
    assert (before + [hit(s)])[..|before|] == before;
  }

  /** TestIntersectionBasic */
  method TestIntersectionBasic(t: RayTracer, ray: Ray, excludeId: int) returns (bestInfo: IntersectionInfo)
    ensures bestInfo == BasicHit(ShapesOf(t.scene), ray, excludeId, t.sqrt)
  {
    var shapes := ShapesOf(t.scene);
    var hit := ShapeHits(ray, t.sqrt);
    bestInfo := NoHit;
    for i := 0 to |shapes|
      invariant bestInfo == Nearest(KdTrees.HitsOf(Unexcluded(shapes[..i], excludeId), hit))
    {
      var shape := shapes[i];
      UnexcludedStep(shapes, i, excludeId);
      if shape.id != excludeId {
        var info := Shapes.Intersect(shape, ray, t.sqrt);
        NearestOfAppended(Unexcluded(shapes[..i], excludeId), shape, hit);
        if IsHit(info) && info.distance < bestInfo.distance && info.distance >= 0.0 {
          bestInfo := info;
        }
      } else {
        assert Unexcluded(shapes[..i], excludeId) + [] == Unexcluded(shapes[..i], excludeId);
      }
    }
    assert shapes[..|shapes|] == shapes;
  }

  /** TestIntersection: the KD-tree query when UseKdTree is set, the scan otherwise. */
  function TestIntersection(t: RayTracer, ray: Ray, excludeId: int): (r: IntersectionInfo)
    ensures t.useKdTree ==> r == KdTrees.TreeHit(t.scene.kdTree, ray, ShapeHits(ray, t.sqrt))
    ensures !t.useKdTree ==> r == BasicHit(ShapesOf(t.scene), ray, excludeId, t.sqrt)
  {
    if t.useKdTree then KdTrees.TreeHit(t.scene.kdTree, ray, ShapeHits(ray, t.sqrt))
    else BasicHit(ShapesOf(t.scene), ray, excludeId, t.sqrt)
  }

  /** The tree query does not look at excludeId: a shape asked to be skipped (the shape a
      secondary ray leaves) can be hit again. */
  lemma TreeQueryIgnoresExclusion(t: RayTracer, ray: Ray, id1: int, id2: int)
    requires t.useKdTree
    ensures TestIntersection(t, ray, id1) == TestIntersection(t, ray, id2)
  {
  }

  // ----- Shading -----

  /** The light's cosine, as RenderDiffuse computes it. */
  function Cosine(t: RayTracer, info: IntersectionInfo, light: Light): real {
    Dot(Normalize(Sub(light.position, info.position), t.sqrt), info.normal)
  }

  /** RenderDiffuse: add hitColour * lightColour * l for l = cos of the angle to the light,
      when diffuse is on and l > 0; otherwise the colour is unchanged. */
  function RenderDiffuse(t: RayTracer, color: Colors.Color, info: IntersectionInfo, light: Light): (c: Colors.Color)
    ensures !t.renderData.renderDiffuse || Cosine(t, info, light) <= 0.0 ==> c == color
    ensures c == color || c == Colors.Add(color, Colors.Scale(Colors.Mul(info.color, light.color), Cosine(t, info, light)))
  {
    if t.renderData.renderDiffuse then
      var v := Normalize(Sub(light.position, info.position), t.sqrt);
      var l := Dot(v, info.normal);
      if l > 0.0 then Colors.Add(color, Colors.Scale(Colors.Mul(info.color, light.color), l)) else color
    else color
  }

  predicate NonNegative(c: Colors.Color) {
    c.r >= 0.0 && c.g >= 0.0 && c.b >= 0.0
  }

  lemma ScaleKeepsNonNegative(c: Colors.Color, k: real)
    requires NonNegative(c) && k >= 0.0
    ensures NonNegative(Colors.Scale(c, k))
  {
    Boxes.NonNegativeProduct(c.r, k);
    Boxes.NonNegativeProduct(c.g, k);
    Boxes.NonNegativeProduct(c.b, k);
  }

  /** Diffuse light never darkens: with non-negative colours every component can only grow. */
  lemma DiffuseOnlyAdds(t: RayTracer, color: Colors.Color, info: IntersectionInfo, light: Light)
    requires NonNegative(info.color) && NonNegative(light.color)
    ensures var r := RenderDiffuse(t, color, info, light);
      r.r >= color.r && r.g >= color.g && r.b >= color.b
  {
    var l := Cosine(t, info, light);
    if t.renderData.renderDiffuse && l > 0.0 {
      var p := Colors.Mul(info.color, light.color);
      Boxes.NonNegativeProduct(info.color.r, light.color.r);
      Boxes.NonNegativeProduct(info.color.g, light.color.g);
      Boxes.NonNegativeProduct(info.color.b, light.color.b);
      Boxes.NonNegativeProduct(p.r, l);
      Boxes.NonNegativeProduct(p.g, l);
      Boxes.NonNegativeProduct(p.b, l);
    }
  }

  /** RenderHighlights: when highlights are on, the shadow query missed and the material is
      glossy, add lightColour * glossWeight, with glossWeight fixed at 0: the colour never
      changes. */
  function RenderHighlights(t: RayTracer, color: Colors.Color, shape: Shape, shadow: IntersectionInfo, light: Light): (c: Colors.Color)
    ensures c == color
  {
    if t.renderData.renderHighlights && !IsHit(shadow) && GetMaterial(shape.geometry).gloss > 0.0 then
      var glossWeight := 0.0;
      Colors.Add(color, Colors.Scale(light.color, glossWeight))
    else color
  }

  /** The shadow factor 0.5 + 0.5 sqrt(transparency) of a blocking shape. */
  function ShadowFactor(t: RayTracer, blocker: Shape): real {
    0.5 + 0.5 * t.pow(GetMaterial(blocker.geometry).transparency, 0.5)
  }

  /** RenderShadowAndHighlights: when the hit shape is known and shadows are on, cast a ray to
      the light, leaving the hit shape out; a hit on ANOTHER known shape scales the colour by
      the blocker's shadow factor; then highlights. Nothing changes when shadows are off or the
      hit shape is unknown. */
  function RenderShadowAndHighlights(t: RayTracer, color: Colors.Color, info: IntersectionInfo, light: Light): (c: Colors.Color)
    ensures !t.renderData.renderShadow || TryGetShape(t.scene, info.elementId).None? ==> c == color
  {
    var v := Normalize(Sub(light.position, info.position), t.sqrt);
    var shadowRay := Ray(info.position, v);
    match TryGetShape(t.scene, info.elementId)
    case None => color
    case Some(shape) =>
      if t.renderData.renderShadow then
        var shadow := TestIntersection(t, shadowRay, shape.id);
        var shaded :=
          if IsHit(shadow) then
            match TryGetShape(t.scene, shadow.elementId)
            case Some(blocker) => if blocker.id != shape.id then Colors.Scale(color, ShadowFactor(t, blocker)) else color
            case None => color
          else color;
        RenderHighlights(t, shaded, shape, shadow, light)
      else color
  }

  /** The shadow step only ever scales the colour by the shadow factor of a registered shape. */
  lemma ShadowOnlyScales(t: RayTracer, color: Colors.Color, info: IntersectionInfo, light: Light)
    ensures var r := RenderShadowAndHighlights(t, color, info, light);
      r == color || exists id :: TryGetShape(t.scene, id).Some? && r == Colors.Scale(color, ShadowFactor(t, TryGetShape(t.scene, id).value))
  {
    var r := RenderShadowAndHighlights(t, color, info, light);
    var v := Normalize(Sub(light.position, info.position), t.sqrt);
    var shadowRay := Ray(info.position, v);
    match TryGetShape(t.scene, info.elementId)
    case None =>
    case Some(shape) =>
      if t.renderData.renderShadow {
        var shadow := TestIntersection(t, shadowRay, shape.id);
        if IsHit(shadow) && TryGetShape(t.scene, shadow.elementId).Some? {
          var blocker := TryGetShape(t.scene, shadow.elementId).value;
          if blocker.id != shape.id {
            var shaded := Colors.Scale(color, ShadowFactor(t, blocker));
            assert r == shaded;
          }
        }
      }
  }

  /** How many more levels RayTrace may recurse. */
  function Budget(t: RayTracer, depth: int): int {
    t.renderData.rayTraceDepth - depth
  }

  /** RayTrace as a function: ambient colour, then every light in turn. */
  function RayTraceColor(t: RayTracer, info: IntersectionInfo, ray: Ray, depth: int): (c: Colors.Color)
    ensures LightsOf(t.scene) == [] ==> c == Colors.Scale(info.color, t.scene.background.ambience)
    ensures depth >= t.renderData.rayTraceDepth ==> c == DiffuseShade(t, info, LightsOf(t.scene))
    decreases Budget(t, depth), 3, 0
  {
    Shade(t, info, ray, depth, LightsOf(t.scene))
  }

  /** The colour after the lights of the given prefix. At or beyond RayTraceDepth, or with
      reflection, refraction and shadows all switched off, it is the ambient term plus the
      diffuse terms: no secondary ray is cast, so the recursion stops there. */
  function Shade(t: RayTracer, info: IntersectionInfo, ray: Ray, depth: int, lights: seq<Light>): (c: Colors.Color)
    ensures depth >= t.renderData.rayTraceDepth
            || (!t.renderData.renderReflection && !t.renderData.renderRefraction && !t.renderData.renderShadow)
            ==> c == DiffuseShade(t, info, lights)
    decreases Budget(t, depth), 2, |lights|
  {
    if lights == [] then Colors.Scale(info.color, t.scene.background.ambience)
    else LightStep(t, Shade(t, info, ray, depth, lights[..|lights| - 1]), info, ray, depth, lights[|lights| - 1])
  }

  /** One light: diffuse always; reflection, refraction and shadow only below RayTraceDepth. */
  function LightStep(t: RayTracer, color: Colors.Color, info: IntersectionInfo, ray: Ray, depth: int, light: Light): Colors.Color
    decreases Budget(t, depth), 1, 0
  {
    var c := RenderDiffuse(t, color, info, light);
    if depth < t.renderData.rayTraceDepth then
      var c1 := RenderReflection(t, c, info, ray, depth);
      var c2 := RenderRefraction(t, c1, info, ray, depth);
      RenderShadowAndHighlights(t, c2, info, light)
    else c
  }

  /** RenderReflection: for a known reflective shape, blend in the colour seen along the
      mirrored ray (traced one level deeper), or the background when that ray hits nothing in
      front. RayTrace calls it only below RayTraceDepth. */
  function RenderReflection(t: RayTracer, color: Colors.Color, info: IntersectionInfo, ray: Ray, depth: int): (c: Colors.Color)
    requires depth < t.renderData.rayTraceDepth
    ensures var shape := TryGetShape(t.scene, info.elementId);
      !t.renderData.renderReflection || shape.None? || GetMaterial(shape.value.geometry).reflection <= 0.0 ==> c == color
    decreases Budget(t, depth), 0, 0
  {
    if !t.renderData.renderReflection then color
    else
      match TryGetShape(t.scene, info.elementId)
      case None => color
      case Some(shape) =>
        var reflection := GetMaterial(shape.geometry).reflection;
        if reflection > 0.0 then
          var reflectionRay := GetReflectionRay(info.position, info.normal, ray.direction);
          var refl := TestIntersection(t, reflectionRay, shape.id);
          var reflColor :=
            if IsHit(refl) && refl.distance > 0.0 then RayTraceColor(t, refl, reflectionRay, depth + 1)
            else t.scene.background.color;
          Colors.Blend(color, reflColor, reflection)
        else color
  }

  /** RenderRefraction: for a known transparent shape, refract into it, intersect the SAME
      shape again, refract out at the exit point and trace what that ray hits one level deeper;
      the background is blended in when any step finds nothing. */
  function RenderRefraction(t: RayTracer, color: Colors.Color, info: IntersectionInfo, ray: Ray, depth: int): (c: Colors.Color)
    requires depth < t.renderData.rayTraceDepth
    ensures var shape := TryGetShape(t.scene, info.elementId);
      !t.renderData.renderRefraction || shape.None? || GetMaterial(shape.value.geometry).transparency <= 0.0 ==> c == color
    decreases Budget(t, depth), 0, 0
  {
    if !t.renderData.renderRefraction then color
    else
      match TryGetShape(t.scene, info.elementId)
      case None => color
      case Some(shape) =>
        var material := GetMaterial(shape.geometry);
        if material.transparency > 0.0 then
          var refractionRay := GetRefractionRay(info.position, info.normal, ray.direction, material.refraction, t.sqrt);
          var refr := Shapes.Intersect(shape, refractionRay, t.sqrt);
          var refractedColor :=
            if IsHit(refr) then
              match TryGetShape(t.scene, refr.elementId)
              case None => t.scene.background.color
              case Some(refrShape) =>
                var elemRefractionRay :=
                  GetRefractionRay(refr.position, refr.normal, refractionRay.direction,
                                   GetMaterial(refrShape.geometry).refraction, t.sqrt);
                var secondRefr := TestIntersection(t, elemRefractionRay, shape.id);
                if IsHit(secondRefr) && secondRefr.distance > 0.0 then
                  RayTraceColor(t, secondRefr, elemRefractionRay, depth + 1)
                else t.scene.background.color
            else t.scene.background.color;
          Colors.Blend(color, refractedColor, material.transparency)
        else color
  }

  /** A mirrored ray that finds nothing in front blends in the background. */
  lemma ReflectionMissShowsBackground(t: RayTracer, color: Colors.Color, info: IntersectionInfo, ray: Ray, depth: int)
    requires depth < t.renderData.rayTraceDepth
    ensures var shape := TryGetShape(t.scene, info.elementId);
      t.renderData.renderReflection && shape.Some? && GetMaterial(shape.value.geometry).reflection > 0.0 ==>
        var reflRay := GetReflectionRay(info.position, info.normal, ray.direction);
        var refl := TestIntersection(t, reflRay, shape.value.id);
        !(IsHit(refl) && refl.distance > 0.0) ==>
          RenderReflection(t, color, info, ray, depth)
          == Colors.Blend(color, t.scene.background.color, GetMaterial(shape.value.geometry).reflection)
  {
  }

  /** A refracted ray that misses the shape blends in the background. */
  lemma RefractionMissShowsBackground(t: RayTracer, color: Colors.Color, info: IntersectionInfo, ray: Ray, depth: int)
    requires depth < t.renderData.rayTraceDepth
    ensures var shape := TryGetShape(t.scene, info.elementId);
      t.renderData.renderRefraction && shape.Some? && GetMaterial(shape.value.geometry).transparency > 0.0 ==>
        var m := GetMaterial(shape.value.geometry);
        var refrRay := GetRefractionRay(info.position, info.normal, ray.direction, m.refraction, t.sqrt);
        !IsHit(Shapes.Intersect(shape.value, refrRay, t.sqrt)) ==>
          RenderRefraction(t, color, info, ray, depth) == Colors.Blend(color, t.scene.background.color, m.transparency)
  {
  }

  /** The colour after the given lights with the diffuse term alone. */
  function DiffuseShade(t: RayTracer, info: IntersectionInfo, lights: seq<Light>): Colors.Color {
    if lights == [] then Colors.Scale(info.color, t.scene.background.ambience)
    else RenderDiffuse(t, DiffuseShade(t, info, lights[..|lights| - 1]), info, lights[|lights| - 1])
  }

  /** With diffuse off as well, nothing but the ambient term hitColour * ambience remains. */
  lemma {:induction false} DiffuseOffLeavesAmbient(t: RayTracer, info: IntersectionInfo, lights: seq<Light>)
    requires !t.renderData.renderDiffuse
    ensures DiffuseShade(t, info, lights) == Colors.Scale(info.color, t.scene.background.ambience)
  {
    if lights != [] {
      DiffuseOffLeavesAmbient(t, info, lights[..|lights| - 1]);
    }
  }

  /** RayTrace: start from hitColour * ambience and apply each light in turn. */
  method RayTrace(t: RayTracer, info: IntersectionInfo, ray: Ray, depth: int) returns (color: Colors.Color)
    ensures color == RayTraceColor(t, info, ray, depth)
  {
    var lights := LightsOf(t.scene);
    color := Colors.Scale(info.color, t.scene.background.ambience);
    for i := 0 to |lights|
      invariant color == Shade(t, info, ray, depth, lights[..i])
    {
      assert lights[..i + 1][..i] == lights[..i];
      var light := lights[i];
      color := RenderDiffuse(t, color, info, light);
      if depth < t.renderData.rayTraceDepth {
        color := RenderReflection(t, color, info, ray, depth);
        color := RenderRefraction(t, color, info, ray, depth);
        color := RenderShadowAndHighlights(t, color, info, light);
      }
    }
    assert lights[..|lights|] == lights;
  }

  /** CalculateColor: the background colour when the primary ray hits nothing, the traced
      colour at depth 0 otherwise. */
  function CalculateColor(t: RayTracer, ray: Ray): (c: Colors.Color)
    ensures !IsHit(TestIntersection(t, ray, 0)) ==> c == t.scene.background.color
    ensures IsHit(TestIntersection(t, ray, 0)) ==> c == RayTraceColor(t, TestIntersection(t, ray, 0), ray, 0)
  {
    var info := TestIntersection(t, ray, 0);
    if IsHit(info) then RayTraceColor(t, info, ray, 0) else t.scene.background.color
  }

  /** GetPixelColor: the colour along the camera ray through the pixel's viewport point, which
      is the background exactly where that ray hits nothing. */
  function GetPixelColor(t: RayTracer, x: int, y: int): (c: Colors.Color)
    requires t.renderData.width > 0 && t.renderData.height > 0
    ensures var (xp, yp) := PixelToViewport(x, y, t.renderData.width, t.renderData.height);
      var ray := t.camera.getRay(xp, yp);
      var info := TestIntersection(t, ray, 0);
      (!IsHit(info) ==> c == t.scene.background.color) && (IsHit(info) ==> c == RayTraceColor(t, info, ray, 0))
  {
    var (xp, yp) := PixelToViewport(x, y, t.renderData.width, t.renderData.height);
    CalculateColor(t, t.camera.getRay(xp, yp))
  }
}
