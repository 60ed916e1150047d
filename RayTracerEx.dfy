/**
  The second tracer (raylib/RayTracerEx.cs): every query goes through the KD-tree, shading
  is ambient, diffuse, specular and reflected terms each gated by a coefficient above
  double.Epsilon, reflection recursion is bounded by depth and by ray intensity, and fog is
  blended in last.

  ColorVector.Mix, the material coefficients KAmbient, KDiffuse, KSpecular and KReflection,
  Scene.HasFogDensity, Scene.GetFogDensity, Scene.HasLights and PosVector.CosVectors are not
  defined by any file of the model; they are the fields of Extras.
 */
module RayTracersEx {
  import opened Vectors
  import opened Hits
  import opened Shapes
  import opened Scenes
  import opened RenderConfig
  import opened Limits
  import opened Materials
  import Colors
  import KdTrees
  import RayTracers

  datatype Extras = Extras(
    mix: (Colors.Color, Colors.Color) -> Colors.Color,
    kAmbient: Material -> real,
    kDiffuse: Material -> real,
    kSpecular: Material -> real,
    kReflection: Material -> real,
    hasFogDensity: bool,
    getFogDensity: real -> real,
    hasLights: bool,
    cosVectors: (Vec, Vec) -> real)

  datatype RayTracerEx = RayTracerEx(
    camera: RayTracers.Camera,
    renderData: RenderData,
    scene: Scene,
    useKdTree: bool,
    sqrt: real -> real,
    extras: Extras)

  const MaxRayRecursionLevel := 10
  const ThresholdRayIntensity := 10.0
  const InitialRayIntensity := 100.0

  /** Scene.KdTree.FindIntersectionTree(ray); UseKdTree is never consulted. */
  function TreeQuery(t: RayTracerEx, ray: Ray): IntersectionInfo {
    KdTrees.TreeHit(t.scene.kdTree, ray, RayTracers.ShapeHits(ray, t.sqrt))
  }

  /** ReflectRay: same origin, direction d - 2 (n . d) n. */
  function ReflectRay(sourceRay: Ray, normal: Vec): (r: Ray)
    ensures r.position == sourceRay.position
  {
    Ray(sourceRay.position, RayTracers.Reflect(sourceRay.direction, normal))
  }

  /** For a unit normal the reflected ray flips the direction's normal component and keeps
      the direction's length. */
  lemma ReflectRayIsMirror(sourceRay: Ray, normal: Vec)
    requires Dot(normal, normal) == 1.0
    ensures var d := ReflectRay(sourceRay, normal).direction;
      Dot(normal, d) == -Dot(normal, sourceRay.direction) && Dot(d, d) == Dot(sourceRay.direction, sourceRay.direction)
  {
    RayTracers.ReflectIsMirror(sourceRay.direction, normal);
  }

  /** IsViewable: the target is visible from the start point when the tree query along the
      segment misses, or hits farther away than the target; a blocker at or before the target
      hides it. */
  function IsViewable(t: RayTracerEx, targetPoint: Vec, startingPoint: Vec): (r: bool)
    ensures var dir := Sub(targetPoint, startingPoint);
      var intInfo := TreeQuery(t, Ray(startingPoint, dir));
      r <==> !(IsHit(intInfo) && intInfo.distance <= Magnitude(dir, t.sqrt))
  {
    var dir := Sub(targetPoint, startingPoint);
    var targetDist := Magnitude(dir, t.sqrt);
    var intInfo := TreeQuery(t, Ray(startingPoint, dir));
    if IsHit(intInfo) then targetDist < intInfo.distance else true
  }

  /** In a scene without shapes nothing blocks a light. */
  lemma EmptySceneViewsEverything(t: RayTracerEx, background: Background, lights: seq<Light>, target: Vec, start: Vec)
    requires t.scene == NewScene(background, [], lights)
    ensures IsViewable(t, target, start)
  {
    KdTrees.SearchStopsAtMaxDepth();
    assert KdTrees.Search([], KdTrees.EncloseAll([]), 0).plane == KdTrees.NoPlane;
    assert t.scene.kdTree.root == KdTrees.Leaf([]);
  }

  function Abs(v: real): real {
    if v < 0.0 then -v else v
  }

  /** GetLightingColor over the given lights: the sum of lightColour * |cos| over the lights
      visible from the point. */
  function Lighting(t: RayTracerEx, point: Vec, normal: Vec, lights: seq<Light>): Colors.Color {
    if lights == [] then Colors.Black
    else
      var prev := Lighting(t, point, normal, lights[..|lights| - 1]);
      var light := lights[|lights| - 1];
      if IsViewable(t, light.position, point) then
        Colors.Add(prev, Colors.Scale(light.color, Abs(t.extras.cosVectors(normal, Sub(light.position, point)))))
      else prev
  }

  /** Lighting never goes negative for lights of non-negative colour, and is black when no
      light is visible. */
  lemma {:induction false} LightingNonNegative(t: RayTracerEx, point: Vec, normal: Vec, lights: seq<Light>)
    requires forall i :: 0 <= i < |lights| ==> RayTracers.NonNegative(lights[i].color)
    ensures RayTracers.NonNegative(Lighting(t, point, normal, lights))
    ensures (forall i :: 0 <= i < |lights| ==> !IsViewable(t, lights[i].position, point))
            ==> Lighting(t, point, normal, lights) == Colors.Black
  {
    if lights != [] {
      var init := lights[..|lights| - 1];
      LightingNonNegative(t, point, normal, init);
      var light := lights[|lights| - 1];
      var k := Abs(t.extras.cosVectors(normal, Sub(light.position, point)));
      RayTracers.ScaleKeepsNonNegative(light.color, k);
    }
  }

  /** GetLightingColor */
  method GetLightingColor(t: RayTracerEx, point: Vec, normal: Vec) returns (lightColor: Colors.Color)
    ensures lightColor == Lighting(t, point, normal, LightsOf(t.scene))
  {
    var lights := LightsOf(t.scene);
    lightColor := Colors.Black;
    for i := 0 to |lights|
      invariant lightColor == Lighting(t, point, normal, lights[..i])
    {
      assert lights[..i + 1][..i] == lights[..i];
      var light := lights[i];
      if IsViewable(t, light.position, point) {
        var lightVector := Sub(light.position, point);
        lightColor := Colors.Add(lightColor, Colors.Scale(light.color, Abs(t.extras.cosVectors(normal, lightVector))));
      }
    }
    assert lights[..|lights|] == lights;
  }

  /** GetSpecularColor over the given lights: the accumulator starts black and is only ever
      multiplied by p, so it stays black. */
  function Specular(t: RayTracerEx, ray: Ray, p: real, lights: seq<Light>): (r: Colors.Color)
    ensures r == Colors.Black
  {
    if lights == [] then Colors.Black
    else
      var prev := Specular(t, ray, p, lights[..|lights| - 1]);
      var light := lights[|lights| - 1];
      if IsViewable(t, light.position, ray.position)
         && t.extras.cosVectors(ray.direction, Sub(light.position, ray.position)) > Epsilon
      then Colors.Scale(prev, p)
      else prev
  }

  /** GetSpecularColor */
  method GetSpecularColor(t: RayTracerEx, ray: Ray, p: real) returns (lightColor: Colors.Color)
    ensures lightColor == Specular(t, ray, p, LightsOf(t.scene))
  {
    var lights := LightsOf(t.scene);
    lightColor := Colors.Black;
    for i := 0 to |lights|
      invariant lightColor == Specular(t, ray, p, lights[..i])
    {
      assert lights[..i + 1][..i] == lights[..i];
      var light := lights[i];
      if IsViewable(t, light.position, ray.position) {
        var lightSourceVector := Sub(light.position, ray.position);
        var cosLightSource := t.extras.cosVectors(ray.direction, lightSourceVector);
        if cosLightSource > Epsilon {
          lightColor := Colors.Scale(lightColor, p);
        }
      }
    }
    assert lights[..|lights|] == lights;
  }

  /** The fog density at the hit, 0 without fog. */
  function FogDensity(t: RayTracerEx, info: IntersectionInfo): real {
    if t.extras.hasFogDensity then t.extras.getFogDensity(info.distance) else 0.0
  }

  /** The intensity handed to the reflected ray: rayIntensity * KReflection * (1 - fog). */
  function ReflectedIntensity(rayIntensity: real, kReflection: real, fogDensity: real): real {
    rayIntensity * kReflection * (1.0 - fogDensity)
  }

  /** How many more levels the reflection recursion may go. */
  function Budget(depth: int): int {
    MaxRayRecursionLevel - depth
  }

  /** TraceRecursive as a function: the colour for the tree's answer along the ray. */
  function Traced(t: RayTracerEx, ray: Ray, rayIntensity: real, depth: int): Colors.Color
    decreases Budget(depth), 3
  {
    ColorOf(t, ray, TreeQuery(t, ray), rayIntensity, depth)
  }

  /** CalculateColor as a function: the background unless the record is a hit on a known shape.
      A miss, or a hit whose Id the scene does not know, shows the background. */
  function ColorOf(t: RayTracerEx, ray: Ray, intInfo: IntersectionInfo, rayIntensity: real, depth: int): (c: Colors.Color)
    ensures !IsHit(intInfo) || TryGetShape(t.scene, intInfo.elementId).None? ==> c == t.scene.background.color
    decreases Budget(depth), 2
  {
    match TryGetShape(t.scene, intInfo.elementId)
    case Some(shape) =>
      if IsHit(intInfo) then
        var reflected :=
          if t.extras.kReflection(GetMaterial(shape.geometry)) > Epsilon then
            Reflected(t, ray, intInfo, GetMaterial(shape.geometry), rayIntensity, depth)
          else Colors.Black;
        Compose(t, ray, intInfo, GetMaterial(shape.geometry), reflected)
      else t.scene.background.color
    case None => t.scene.background.color
  }

  /** The reflected colour: traced one level deeper, with the intensity scaled by KReflection and
      by 1 - fog, only while the intensity is above 10 and the depth below 10; the background
      otherwise. */
  function Reflected(t: RayTracerEx, ray: Ray, intInfo: IntersectionInfo, material: Material, rayIntensity: real, depth: int): (r: Colors.Color)
    decreases Budget(depth), 1
    ensures !(rayIntensity > ThresholdRayIntensity && depth < MaxRayRecursionLevel) ==> r == t.scene.background.color
  {
    if rayIntensity > ThresholdRayIntensity && depth < MaxRayRecursionLevel then
      var reflectedRay := ReflectRay(ray, intInfo.normal);
      Traced(t, reflectedRay, ReflectedIntensity(rayIntensity, t.extras.kReflection(material), FogDensity(t, intInfo)), depth + 1)
    else t.scene.background.color
  }

  /** The diffuse colour: the object colour, mixed with the lighting when the scene has lights. */
  function DiffuseColor(t: RayTracerEx, intInfo: IntersectionInfo): Colors.Color {
    if t.extras.hasLights then
      t.extras.mix(intInfo.color, Lighting(t, intInfo.position, intInfo.normal, LightsOf(t.scene)))
    else intInfo.color
  }

  /** The specular colour: the (always black) specular sum when the scene has lights, the
      background otherwise. */
  function SpecularColor(t: RayTracerEx, ray: Ray, intInfo: IntersectionInfo, material: Material): (c: Colors.Color)
    ensures t.extras.hasLights ==> c == Colors.Black
    ensures !t.extras.hasLights ==> c == t.scene.background.color
  {
    if t.extras.hasLights then Specular(t, ReflectRay(ray, intInfo.normal), material.gloss, LightsOf(t.scene))
    else t.scene.background.color
  }

  /** The shading of a hit on a known shape, given its reflected colour: ambient, diffuse,
      specular and reflected terms in that order, each applied only when its coefficient exceeds
      double.Epsilon, and the fog blend last. With all four coefficients at most double.Epsilon
      the colour is black, or the background scaled by the fog density when the scene has fog. */
  function Compose(t: RayTracerEx, ray: Ray, intInfo: IntersectionInfo, material: Material, reflected: Colors.Color): (c: Colors.Color)
    ensures NoTerms(t, material) && !t.extras.hasFogDensity ==> c == Colors.Black
    ensures NoTerms(t, material) && t.extras.hasFogDensity ==>
      c == Colors.Scale(t.scene.background.color, t.extras.getFogDensity(intInfo.distance))
  {
    FogBlend(t, intInfo,
      ReflectionStage(t, material, reflected,
        SpecularStage(t, ray, intInfo, material,
          DiffuseStage(t, intInfo, material, AmbientStage(t, intInfo, material)))))
  }

  /** Ambient: the black start mixed with background.Mix(objectColour), when KAmbient applies. */
  function AmbientStage(t: RayTracerEx, intInfo: IntersectionInfo, material: Material): Colors.Color {
    var e := t.extras;
    if e.kAmbient(material) > Epsilon then e.mix(Colors.Black, e.mix(t.scene.background.color, intInfo.color))
    else Colors.Black
  }

  function DiffuseStage(t: RayTracerEx, intInfo: IntersectionInfo, material: Material, c: Colors.Color): Colors.Color {
    var k := t.extras.kDiffuse(material);
    if k > Epsilon then Colors.Blend(c, DiffuseColor(t, intInfo), k) else c
  }

  function SpecularStage(t: RayTracerEx, ray: Ray, intInfo: IntersectionInfo, material: Material, c: Colors.Color): Colors.Color {
    var k := t.extras.kSpecular(material);
    if k > Epsilon then Colors.Blend(c, SpecularColor(t, ray, intInfo, material), k) else c
  }

  function ReflectionStage(t: RayTracerEx, material: Material, reflected: Colors.Color, c: Colors.Color): Colors.Color {
    var k := t.extras.kReflection(material);
    if k > Epsilon then Colors.Blend(c, reflected, k) else c
  }

  /** The fog blend: background * fog + colour * (1 - fog), when the scene has fog. */
  function FogBlend(t: RayTracerEx, intInfo: IntersectionInfo, c: Colors.Color): Colors.Color {
    if t.extras.hasFogDensity then
      var fog := FogDensity(t, intInfo);
      Colors.Add(Colors.Scale(t.scene.background.color, fog), Colors.Scale(c, 1.0 - fog))
    else c
  }


  /** None of the four coefficients exceeds double.Epsilon. */
  predicate NoTerms(t: RayTracerEx, material: Material) {
    t.extras.kAmbient(material) <= Epsilon && t.extras.kDiffuse(material) <= Epsilon
    && t.extras.kSpecular(material) <= Epsilon && t.extras.kReflection(material) <= Epsilon
  }

  /** Whether CalculateColor traces a reflected ray: a hit on a known shape whose KReflection
      exceeds double.Epsilon, with intensity above 10 and depth below 10. */
  predicate Recurses(t: RayTracerEx, intInfo: IntersectionInfo, rayIntensity: real, depth: int) {
    var found := TryGetShape(t.scene, intInfo.elementId);
    IsHit(intInfo) && found.Some? && t.extras.kReflection(GetMaterial(found.value.geometry)) > Epsilon
    && rayIntensity > ThresholdRayIntensity && depth < MaxRayRecursionLevel
  }

  /** The intensity of the reflected ray: rayIntensity * KReflection * (1 - fog). */
  function NextIntensity(t: RayTracerEx, intInfo: IntersectionInfo, rayIntensity: real): real
    requires TryGetShape(t.scene, intInfo.elementId).Some?
  {
    var material := GetMaterial(TryGetShape(t.scene, intInfo.elementId).value.geometry);
    ReflectedIntensity(rayIntensity, t.extras.kReflection(material), FogDensity(t, intInfo))
  }

  /** How many nested TraceRecursive calls a CalculateColor call makes. */
  function Nesting(t: RayTracerEx, ray: Ray, intInfo: IntersectionInfo, rayIntensity: real, depth: int): nat
    decreases Budget(depth)
  {
    if Recurses(t, intInfo, rayIntensity, depth) then
      var reflectedRay := ReflectRay(ray, intInfo.normal);
      1 + Nesting(t, reflectedRay, TreeQuery(t, reflectedRay), NextIntensity(t, intInfo, rayIntensity), depth + 1)
    else 0
  }

  /** Nesting never exceeds 10: a call at depth d makes at most 10 - d nested calls, and none
      at all from depth 10 on or at intensity 10 or below. */
  lemma {:induction false} NestingBounded(t: RayTracerEx, ray: Ray, intInfo: IntersectionInfo, rayIntensity: real, depth: int)
    ensures depth <= MaxRayRecursionLevel ==> depth + Nesting(t, ray, intInfo, rayIntensity, depth) <= MaxRayRecursionLevel
    ensures depth >= MaxRayRecursionLevel || rayIntensity <= ThresholdRayIntensity ==> Nesting(t, ray, intInfo, rayIntensity, depth) == 0
    decreases Budget(depth)
  {
    if Recurses(t, intInfo, rayIntensity, depth) {
      var reflectedRay := ReflectRay(ray, intInfo.normal);
      NestingBounded(t, reflectedRay, TreeQuery(t, reflectedRay), NextIntensity(t, intInfo, rayIntensity), depth + 1);
    }
  }

  /** TraceRecursive */
  method TraceRecursive(t: RayTracerEx, ray: Ray, rayIntensity: real, depth: int) returns (c: Colors.Color)
    ensures c == Traced(t, ray, rayIntensity, depth)
    decreases Budget(depth), 2
  {
    var info := KdTrees.FindIntersectionTree(t.scene.kdTree, ray, RayTracers.ShapeHits(ray, t.sqrt));
    c := CalculateColor(t, ray, info, rayIntensity, depth);
  }

  /** CalculateColor: the terms are accumulated into resultColor one by one. */
  method CalculateColor(t: RayTracerEx, ray: Ray, intInfo: IntersectionInfo, rayIntensity: real, depth: int)
    returns (resultColor: Colors.Color)
    ensures resultColor == ColorOf(t, ray, intInfo, rayIntensity, depth)
    decreases Budget(depth), 1
  {
    var found := TryGetShape(t.scene, intInfo.elementId);
    if !(IsHit(intInfo) && found.Some?) {
      return t.scene.background.color;
    }
    var e := t.extras;
    var bg := t.scene.background.color;
    var material := GetMaterial(found.value.geometry);
    var reflectedColor := Colors.Black;

    var fogDensity := 0.0;
    if e.hasFogDensity {
      fogDensity := e.getFogDensity(intInfo.distance);
    }
    assert fogDensity == FogDensity(t, intInfo);
    resultColor := ShadeSurface(t, ray, intInfo, material);
    if e.kReflection(material) > Epsilon {
      reflectedColor := ReflectedTerm(t, ray, intInfo, material, rayIntensity, depth, fogDensity);
    }
    resultColor := FinishColor(t, intInfo, material, resultColor, reflectedColor, fogDensity);
    HitIsComposed(t, ray, intInfo, rayIntensity, depth);
  }

  /** The last two terms of CalculateColor: the reflected colour blended in when KReflection
      exceeds double.Epsilon, then the fog blend when the scene has fog. */
  method FinishColor(t: RayTracerEx, intInfo: IntersectionInfo, material: Material, shaded: Colors.Color,
                     reflectedColor: Colors.Color, fogDensity: real)
    returns (resultColor: Colors.Color)
    requires fogDensity == FogDensity(t, intInfo)
    ensures resultColor == FogBlend(t, intInfo, ReflectionStage(t, material, reflectedColor, shaded))
  {
    resultColor := shaded;
    if t.extras.kReflection(material) > Epsilon {
      resultColor := Colors.Blend(resultColor, reflectedColor, t.extras.kReflection(material));
    }
    if t.extras.hasFogDensity {
      var bg := t.scene.background.color;
      resultColor := Colors.Add(Colors.Scale(bg, fogDensity), Colors.Scale(resultColor, 1.0 - fogDensity));
    }
  }

  /** The reflected term of CalculateColor: a ray traced one level deeper at the reduced
      intensity while the intensity is above 10 and the depth below 10, the background
      otherwise. */
  method ReflectedTerm(t: RayTracerEx, ray: Ray, intInfo: IntersectionInfo, material: Material,
                       rayIntensity: real, depth: int, fogDensity: real)
    returns (reflectedColor: Colors.Color)
    requires fogDensity == FogDensity(t, intInfo)
    ensures reflectedColor == Reflected(t, ray, intInfo, material, rayIntensity, depth)
    decreases Budget(depth), 0
  {
    if rayIntensity > ThresholdRayIntensity && depth < MaxRayRecursionLevel {
      var reflectedRay := ReflectRay(ray, intInfo.normal);
      reflectedColor := TraceRecursive(t, reflectedRay, ReflectedIntensity(rayIntensity, t.extras.kReflection(material), fogDensity), depth + 1);
    } else {
      reflectedColor := t.scene.background.color;
    }
  }

  /** The first three terms of CalculateColor, from a black resultColor: ambient, diffuse and
      specular, each when its coefficient exceeds double.Epsilon. */
  method ShadeSurface(t: RayTracerEx, ray: Ray, intInfo: IntersectionInfo, material: Material)
    returns (resultColor: Colors.Color)
    ensures resultColor == SpecularStage(t, ray, intInfo, material,
                             DiffuseStage(t, intInfo, material, AmbientStage(t, intInfo, material)))
  {
    var e := t.extras;
    var bg := t.scene.background.color;
    var objectColor := intInfo.color;
    resultColor := Colors.Black;
    if e.kAmbient(material) > Epsilon {
      var ambientColor := e.mix(bg, objectColor);
      resultColor := e.mix(resultColor, ambientColor);
    }
    assert resultColor == AmbientStage(t, intInfo, material);
    if e.kDiffuse(material) > Epsilon {
      var diffuseColor := objectColor;
      if e.hasLights {
        var lighting := GetLightingColor(t, intInfo.position, intInfo.normal);
        diffuseColor := e.mix(diffuseColor, lighting);
      }
      resultColor := Colors.Blend(resultColor, diffuseColor, e.kDiffuse(material));
    }
    assert resultColor == DiffuseStage(t, intInfo, material, AmbientStage(t, intInfo, material));
    ghost var beforeSpecular := resultColor;
    if e.kSpecular(material) > Epsilon {
      var specularColor := bg;
      if e.hasLights {
        var reflectedRay := ReflectRay(ray, intInfo.normal);
        specularColor := GetSpecularColor(t, reflectedRay, material.gloss);
      }
      resultColor := Colors.Blend(resultColor, specularColor, e.kSpecular(material));
    }
  }

  /** On a hit on a known shape, CalculateColor composes the terms of the shape's material. */
  lemma HitIsComposed(t: RayTracerEx, ray: Ray, intInfo: IntersectionInfo, rayIntensity: real, depth: int)
    requires IsHit(intInfo) && TryGetShape(t.scene, intInfo.elementId).Some?
    ensures var material := GetMaterial(TryGetShape(t.scene, intInfo.elementId).value.geometry);
      ColorOf(t, ray, intInfo, rayIntensity, depth)
      == Compose(t, ray, intInfo, material,
           if t.extras.kReflection(material) > Epsilon then Reflected(t, ray, intInfo, material, rayIntensity, depth)
           else Colors.Black)
  {
  }

  /** GetPixelColor: trace the camera ray through the pixel at full intensity from depth 0; the
      pixel shows the background when the tree finds no known shape along that ray. */
  function GetPixelColor(t: RayTracerEx, x: int, y: int): (c: Colors.Color)
    requires t.renderData.width > 0 && t.renderData.height > 0
    ensures var (xp, yp) := RayTracers.PixelToViewport(x, y, t.renderData.width, t.renderData.height);
      var info := TreeQuery(t, t.camera.getRay(xp, yp));
      !IsHit(info) || TryGetShape(t.scene, info.elementId).None? ==> c == t.scene.background.color
  {
    var (xp, yp) := RayTracers.PixelToViewport(x, y, t.renderData.width, t.renderData.height);
    Traced(t, t.camera.getRay(xp, yp), InitialRayIntensity, 0)
  }
}
