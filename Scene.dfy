/**
  The scene (raylib/Scene.cs, with the records of raylib/Light.cs and raylib/Background.cs):
  the background, the shapes and lights keyed by the Ids Create hands out, and the KD-tree
  built over the registered shapes.
 */
module Scenes {
  import opened Wrappers
  import opened Vectors
  import opened Colors
  import opened Boxes
  import opened Shapes
  import opened Dictionaries
  import KdTrees

  /** A light: Id (0 until the scene registers it), position and colour. */
  datatype Light = Light(id: int, position: Vec, color: Color)

  datatype Background = Background(color: Color, ambience: real)

  datatype Scene = Scene(
    background: Background,
    shapesDict: seq<(int, Shape)>,
    lightsDict: seq<(int, Light)>,
    kdTree: KdTrees.KdTree)

  /** Shapes: the registered shapes in the order Create added them, one per entry. */
  function ShapesOf(scene: Scene): (r: seq<Shape>)
    ensures |r| == |scene.shapesDict|
    ensures forall i :: 0 <= i < |scene.shapesDict| ==> r[i] == scene.shapesDict[i].1
  {
    Values(scene.shapesDict)
  }

  /** Lights: the registered lights in the order Create added them, one per entry. */
  function LightsOf(scene: Scene): (r: seq<Light>)
    ensures |r| == |scene.lightsDict|
    ensures forall i :: 0 <= i < |scene.lightsDict| ==> r[i] == scene.lightsDict[i].1
  {
    Values(scene.lightsDict)
  }

  /** TryGetShape: the dictionary lookup by Id. */
  function TryGetShape(scene: Scene, id: int): (r: Option<Shape>)
    ensures r.Some? <==> id in Keys(scene.shapesDict)
    ensures r.Some? ==> r.value in ShapesOf(scene)
  {
    var r := TryGetValue(scene.shapesDict, id);
    assert r.Some? ==> exists i :: 0 <= i < |scene.shapesDict| && scene.shapesDict[i] == (id, r.value);
    r
  }

  /** What the shape loop writes into a shape: the Id it hands out and the box between the
      shape's min and max points. */
  function Register(s: Shape, id: int): (r: Shape)
    ensures r.id == id && r.box == BoxOf(s.geometry) && r.geometry == s.geometry
  {
    s.(id := id, box := BoxOf(s.geometry))
  }

  /** The shape dictionary after the loop: the k-th shape (from 0) under key k + 1. */
  function ShapeEntries(shapes: seq<Shape>): (r: seq<(int, Shape)>)
    ensures |r| == |shapes| && forall k :: 0 <= k < |shapes| ==> r[k] == (k + 1, Register(shapes[k], k + 1))
  {
    seq(|shapes|, k requires 0 <= k < |shapes| => (k + 1, Register(shapes[k], k + 1)))
  }

  /** The light dictionary after the loop, numbered from 1 independently of the shapes. */
  function LightEntries(lights: seq<Light>): (r: seq<(int, Light)>)
    ensures |r| == |lights| && forall k :: 0 <= k < |lights| ==> r[k] == (k + 1, lights[k].(id := k + 1))
  {
    seq(|lights|, k requires 0 <= k < |lights| => (k + 1, lights[k].(id := k + 1)))
  }

  /** Create as a function of its inputs: the background as given, one registered shape per
      input shape and one light per input light, and the tree over the registered shapes. */
  function NewScene(background: Background, shapes: seq<Shape>, lights: seq<Light>): (s: Scene)
    ensures s.background == background
    ensures |ShapesOf(s)| == |shapes| && |LightsOf(s)| == |lights|
    ensures s.kdTree == KdTrees.CreateTree(ShapesOf(s))
  {
    var shapesDict := ShapeEntries(shapes);
    Scene(background, shapesDict, LightEntries(lights), KdTrees.CreateTree(Values(shapesDict)))
  }

  /** Create: number the shapes from 1, setting each one's box, then the lights from 1, and
      build the tree over the shape dictionary's values. */
  method Create(background: Background, shapes: seq<Shape>, lights: seq<Light>) returns (scene: Scene)
    ensures scene == NewScene(background, shapes, lights)
  {
    var currentShapeId := 1;
    var shapesDict: seq<(int, Shape)> := [];
    for i := 0 to |shapes|
      invariant currentShapeId == i + 1
      invariant shapesDict == ShapeEntries(shapes[..i])
    {
      var shape := Register(shapes[i], currentShapeId);
      ShapeEntriesStep(shapes, i);
      shapesDict := Set(shapesDict, currentShapeId, shape);
      currentShapeId := currentShapeId + 1;
    }
    assert shapes[..|shapes|] == shapes;

    var lightsDict: seq<(int, Light)> := [];
    var currentLightId := 1;
    for i := 0 to |lights|
      invariant currentLightId == i + 1
      invariant lightsDict == LightEntries(lights[..i])
    {
      var light := lights[i].(id := currentLightId);
      LightEntriesStep(lights, i);
      lightsDict := Set(lightsDict, currentLightId, light);
      currentLightId := currentLightId + 1;
    }
    assert lights[..|lights|] == lights;

    var tree := KdTrees.Create(Values(shapesDict));
    scene := Scene(background, shapesDict, lightsDict, tree);
  }

  /** Registering the next shape under the next Id appends its entry. */
  lemma ShapeEntriesStep(shapes: seq<Shape>, i: int)
    requires 0 <= i < |shapes|
    ensures Set(ShapeEntries(shapes[..i]), i + 1, Register(shapes[i], i + 1)) == ShapeEntries(shapes[..i + 1])
  {
    var d, e := ShapeEntries(shapes[..i]), ShapeEntries(shapes[..i + 1]);
    var entry := (i + 1, Register(shapes[i], i + 1));
    forall j | 0 <= j < |d|
      ensures Keys(d)[j] != i + 1
    {
      assert d[j].0 == j + 1;
    }
    assert i + 1 !in Keys(d);
    forall j | 0 <= j < |e|
      ensures e[j] == (d + [entry])[j]
    {
      assert shapes[..i + 1][j] == shapes[j];
    }
    assert e == d + [entry];
  }

  /** Registering the next light under the next Id appends its entry. */
  lemma LightEntriesStep(lights: seq<Light>, i: int)
    requires 0 <= i < |lights|
    ensures Set(LightEntries(lights[..i]), i + 1, lights[i].(id := i + 1)) == LightEntries(lights[..i + 1])
  {
    var d, e := LightEntries(lights[..i]), LightEntries(lights[..i + 1]);
    var entry := (i + 1, lights[i].(id := i + 1));
    forall j | 0 <= j < |d|
      ensures Keys(d)[j] != i + 1
    {
      assert d[j].0 == j + 1;
    }
    assert i + 1 !in Keys(d);
    forall j | 0 <= j < |e|
      ensures e[j] == (d + [entry])[j]
    {
      assert lights[..i + 1][j] == lights[j];
    }
    assert e == d + [entry];
  }

  /** The k-th shape (from 0) is enumerated once, in input order, with Id k + 1, its box set
      from its min and max points and its geometry untouched. */
  lemma ShapesNumberedInOrder(background: Background, shapes: seq<Shape>, lights: seq<Light>)
    ensures var s := ShapesOf(NewScene(background, shapes, lights));
      |s| == |shapes|
      && forall k :: 0 <= k < |s| ==>
           s[k].id == k + 1 && s[k].box == BoxOf(shapes[k].geometry) && s[k].geometry == shapes[k].geometry
  {
    var d := ShapeEntries(shapes);
    var s := ShapesOf(NewScene(background, shapes, lights));
    assert s == Values(d);
    forall k | 0 <= k < |s|
      ensures s[k] == Register(shapes[k], k + 1)
    {
      assert s[k] == d[k].1;
    }
  }

  /** The k-th light (from 0) is enumerated once, in input order, with Id k + 1 and its
      position and colour untouched. */
  lemma LightsNumberedInOrder(background: Background, shapes: seq<Shape>, lights: seq<Light>)
    ensures var l := LightsOf(NewScene(background, shapes, lights));
      |l| == |lights|
      && forall k :: 0 <= k < |l| ==>
           l[k].id == k + 1 && l[k].position == lights[k].position && l[k].color == lights[k].color
  {
  }

  /** TryGetShape succeeds exactly for the Ids 1..n and then returns the shape with that Id;
      Id 0, the Id of a no-hit record, never resolves. */
  lemma TryGetShapeIffRegistered(background: Background, shapes: seq<Shape>, lights: seq<Light>, id: int)
    ensures var r := TryGetShape(NewScene(background, shapes, lights), id);
      (r.Some? <==> 1 <= id <= |shapes|)
      && (r.Some? ==> r.value.id == id && r.value.geometry == shapes[id - 1].geometry)
  {
    var d := ShapeEntries(shapes);
    if 1 <= id <= |shapes| {
      assert d[id - 1] == (id, Register(shapes[id - 1], id));
      TryGetValueAt(d, id - 1);
    } else {
      forall j | 0 <= j < |d|
        ensures Keys(d)[j] != id
      {
        assert d[j].0 == j + 1;
      }
      assert id !in Keys(d);
    }
  }

  /** The tree is built over exactly the registered shapes: its root box encloses each of their
      boxes and its leaves hold each of them as often as the scene does. */
  lemma TreeHoldsRegisteredShapes(background: Background, shapes: seq<Shape>, lights: seq<Light>)
    ensures var scene := NewScene(background, shapes, lights);
      multiset(KdTrees.LeafShapes(scene.kdTree.root)) == multiset(ShapesOf(scene))
      && scene.kdTree.bbox == KdTrees.EncloseAll(ShapesOf(scene))
  {
    var registered := ShapesOf(NewScene(background, shapes, lights));
    KdTrees.SearchStopsAtMaxDepth();
    KdTrees.BuildKeepsShapes(registered, KdTrees.EncloseAll(registered), 0, KdTrees.Search);
  }
}
