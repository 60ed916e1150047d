/**
  The renderer (raylib/Renderer.cs): it raises progress 0, renders the image row by row on
  one thread when NumThreads is at most 1, and then (there is no else) renders it again with
  a row queue, NumThreads workers and a consumer that drains finished rows into the image.

  Progress events are appended to the renderer's `progress` log. The workers' finishing
  order is the parameter `order` (see module Rendering).
 */
module Renderers {
  import opened Rendering
  import Colors
  import RenderConfig
  import Scenes
  import RayTracers
  import RayTracersEx

  /** What the two tracers take beyond camera, settings, scene and the tree switch: the square
      root, Math.Pow and the members RayTracerEx relies on that no file of the model defines. */
  datatype TracerEnv = TracerEnv(sqrt: real -> real, pow: (real, real) -> real, extras: RayTracersEx.Extras)

  /** IRayTracer: either tracer, behind one GetPixelColor. */
  datatype Tracer = Plain(plain: RayTracers.RayTracer) | Ex(ex: RayTracersEx.RayTracerEx)

  function TracerRenderData(tracer: Tracer): RenderConfig.RenderData {
    match tracer
    case Plain(t) => t.renderData
    case Ex(t) => t.renderData
  }

  /** IRayTracer.GetPixelColor, dispatched to the tracer's own. */
  function TracerPixel(tracer: Tracer, x: int, y: int): (c: Colors.Color)
    requires TracerRenderData(tracer).width > 0 && TracerRenderData(tracer).height > 0
    ensures tracer.Plain? ==> c == RayTracers.GetPixelColor(tracer.plain, x, y)
    ensures tracer.Ex? ==> c == RayTracersEx.GetPixelColor(tracer.ex, x, y)
  {
    match tracer
    case Plain(t) => RayTracers.GetPixelColor(t, x, y)
    case Ex(t) => RayTracersEx.GetPixelColor(t, x, y)
  }

  /** The progress the single-threaded pass reports after row y: y * 100 / Height, from 0 for
      the first row and below 100 for every row of the image. */
  function RowProgress(y: int, height: int): (p: real)
    requires height > 0
    ensures y == 0 ==> p == 0.0
    ensures 0 <= y < height ==> 0.0 <= p < 100.0
  {
    assert 0 <= y < height ==> y as real * 100.0 < height as real * 100.0;
    (y as real * 100.0) / height as real
  }

  /** The single-threaded pass's reports, one per row. */
  function SingleThreadedProgress(height: int): (r: seq<real>)
    requires height > 0
    ensures |r| == height
  {
    seq(height, y requires 0 <= y < height => RowProgress(y, height))
  }

  /** The single-threaded pass never reports 100: its reports run from 0 up to
      (Height - 1) * 100 / Height, strictly increasing. */
  lemma SingleThreadedProgressBelow100(height: int)
    requires height > 0
    ensures SingleThreadedProgress(height)[0] == 0.0
    ensures SingleThreadedProgress(height)[height - 1] == ((height - 1) as real * 100.0) / height as real
    ensures forall y :: 0 <= y < height ==> SingleThreadedProgress(height)[y] < 100.0
    ensures forall i, j :: 0 <= i < j < height ==> SingleThreadedProgress(height)[i] < SingleThreadedProgress(height)[j]
  {
    forall i, j | 0 <= i < j < height
      ensures SingleThreadedProgress(height)[i] < SingleThreadedProgress(height)[j]
    {
      RowProgressIncreasing(i, j, height);
    }
  }

  lemma RowProgressIncreasing(i: int, j: int, height: int)
    requires i < j && height > 0
    ensures RowProgress(i, height) < RowProgress(j, height)
  {
    assert i as real * 100.0 < j as real * 100.0;
  }

  class Renderer {
    const renderData: RenderConfig.RenderData
    const useExTracer: bool
    const env: TracerEnv
    /** The PercentComplete of every Progress event raised so far. */
    var progress: seq<real>

    constructor (renderData: RenderConfig.RenderData, useEx: bool, env: TracerEnv)
      ensures this.renderData == renderData && this.useExTracer == useEx && this.env == env
      ensures progress == []
    {
      this.renderData := renderData;
      this.useExTracer := useEx;
      this.env := env;
      progress := [];
    }

    /** CreateRayTracer: a RayTracerEx when the renderer was built with useEx, a RayTracer
        otherwise, both over the renderer's settings. */
    function CreateRayTracer(camera: RayTracers.Camera, scene: Scenes.Scene, useKdTree: bool): (r: Tracer)
      ensures r.Ex? <==> useExTracer
      ensures TracerRenderData(r) == renderData
    {
      if useExTracer then Ex(RayTracersEx.RayTracerEx(camera, renderData, scene, useKdTree, env.sqrt, env.extras))
      else Plain(RayTracers.RayTracer(camera, renderData, scene, useKdTree, env.sqrt, env.pow))
    }

    /** Render: progress 0, the single-threaded pass when NumThreads <= 1, then the
        multi-threaded pass in every case. Every pixel ends up the tracer's colour for it. */
    method Render(pixelArray: PixelArray, camera: RayTracers.Camera, scene: Scenes.Scene, useKdTree: bool,
                  order: seq<int>)
      requires pixelArray.Valid()
      requires pixelArray.width == renderData.width > 0 && pixelArray.height == renderData.height > 0
      requires renderData.numThreads >= 1
      requires IsSchedule(order, renderData.height)
      modifies this, pixelArray.pixels
      ensures forall x, y :: 0 <= x < pixelArray.width && 0 <= y < pixelArray.height ==>
                pixelArray.pixels[x, y] == TracerPixel(CreateRayTracer(camera, scene, useKdTree), x, y)
      ensures progress == old(progress) + [0.0]
                          + (if renderData.numThreads <= 1 then SingleThreadedProgress(renderData.height) else [])
                          + ScheduledProgress(renderData.height)
    {
      progress := progress + [0.0];
      if renderData.numThreads <= 1 {
        RenderSingleThreaded(pixelArray, camera, scene, useKdTree);
      }
      RenderMultiThreaded(pixelArray, camera, scene, useKdTree, order);
    }

    /** RenderSingleThreaded: row by row, left to right, each pixel gets the tracer's colour;
        after each row its progress is reported. */
    method RenderSingleThreaded(pixelArray: PixelArray, camera: RayTracers.Camera, scene: Scenes.Scene, useKdTree: bool)
      requires pixelArray.Valid()
      requires pixelArray.width == renderData.width > 0 && pixelArray.height == renderData.height > 0
      modifies this, pixelArray.pixels
      ensures forall x, y :: 0 <= x < pixelArray.width && 0 <= y < pixelArray.height ==>
                pixelArray.pixels[x, y] == TracerPixel(CreateRayTracer(camera, scene, useKdTree), x, y)
      ensures progress == old(progress) + SingleThreadedProgress(renderData.height)
    {
      var tracer := CreateRayTracer(camera, scene, useKdTree);
      for y := 0 to renderData.height
        invariant progress == old(progress) + SingleThreadedProgress(renderData.height)[..y]
        invariant forall i, j :: 0 <= i < pixelArray.width && 0 <= j < pixelArray.height ==>
                    pixelArray.pixels[i, j] == if j < y then TracerPixel(tracer, i, j) else old(pixelArray.pixels[i, j])
      {
        RenderSingleRow(pixelArray, tracer, y);
        progress := progress + [RowProgress(y, renderData.height)];
        assert SingleThreadedProgress(renderData.height)[..y + 1]
               == SingleThreadedProgress(renderData.height)[..y] + [RowProgress(y, renderData.height)];
      }
      assert SingleThreadedProgress(renderData.height)[..renderData.height] == SingleThreadedProgress(renderData.height);
    }

    /** The inner loop of RenderSingleThreaded: row y, x = 0 .. Width - 1. */
    method RenderSingleRow(pixelArray: PixelArray, tracer: Tracer, y: int)
      requires pixelArray.Valid() && 0 <= y < pixelArray.height
      requires TracerRenderData(tracer) == renderData
      requires pixelArray.width == renderData.width > 0 && pixelArray.height == renderData.height > 0
      modifies pixelArray.pixels
      ensures forall i, j :: 0 <= i < pixelArray.width && 0 <= j < pixelArray.height ==>
                pixelArray.pixels[i, j] == if j == y then TracerPixel(tracer, i, j) else old(pixelArray.pixels[i, j])
    {
      for x := 0 to renderData.width
        invariant forall i, j :: 0 <= i < pixelArray.width && 0 <= j < pixelArray.height ==>
                    pixelArray.pixels[i, j] == if j == y && i < x then TracerPixel(tracer, i, j) else old(pixelArray.pixels[i, j])
      {
        var color := TracerPixel(tracer, x, y);
        pixelArray.SetPixelColor(x, y, color);
      }
    }

    /** RenderMultiThreaded: rows 0 .. Height - 1 are queued, the workers render them and
        the consumer drains the results, in the order they finish, into the image. */
    method RenderMultiThreaded(pixelArray: PixelArray, camera: RayTracers.Camera, scene: Scenes.Scene, useKdTree: bool,
                               order: seq<int>)
      requires pixelArray.Valid()
      requires pixelArray.width == renderData.width > 0 && pixelArray.height == renderData.height > 0
      requires renderData.numThreads >= 1
      requires IsSchedule(order, renderData.height)
      modifies this, pixelArray.pixels
      ensures forall x, y :: 0 <= x < pixelArray.width && 0 <= y < pixelArray.height ==>
                pixelArray.pixels[x, y] == TracerPixel(CreateRayTracer(camera, scene, useKdTree), x, y)
      ensures progress == old(progress) + ScheduledProgress(renderData.height)
    {
      var rayTracer := CreateRayTracer(camera, scene, useKdTree);
      var rowQueue := FillRowQueue(TracerRenderData(rayTracer).height);
      var pixel := (x, y) => TracerPixel(rayTracer, x, y);
      var results := RenderFunc(pixel, renderData.width, rowQueue, order);
      var percents := ResultFunc(pixelArray, results);
      progress := progress + percents;
      DrainedSchedule(order, pixel, renderData.width, renderData.height, results);
      ScheduledProgressReported(order, renderData.height, results);
    }
  }
}
