/**
  The per-line threaded renderer (raylib/PerLineThreadedRenderer.cs): the static variant of the
  multi-threaded pass for a RayTracer, which queues the rows, lets the workers render them
  and drains their results into a new pixel array of the tracer's size.

  The workers' finishing order is the parameter `order` (see module Rendering). The consumer
  only prints its percentages; they are returned here as `printed`.
 */
module PerLineRenderers {
  import opened Rendering
  import Colors
  import RayTracers

  /** Render: a new Width x Height image holding the tracer's colour in every pixel, whatever
      order the rows finish in; the consumer prints one percentage per row, the k-th being
      (k + 1) / Height * 100, so the last is 100. */
  method Render(rayTracer: RayTracers.RayTracer, order: seq<int>) returns (pixelArray: PixelArray, printed: seq<real>)
    requires rayTracer.renderData.width > 0 && rayTracer.renderData.height > 0
    requires rayTracer.renderData.numThreads >= 1
    requires IsSchedule(order, rayTracer.renderData.height)
    ensures fresh(pixelArray) && fresh(pixelArray.pixels) && pixelArray.Valid()
    ensures pixelArray.width == rayTracer.renderData.width && pixelArray.height == rayTracer.renderData.height
    ensures forall x, y :: 0 <= x < pixelArray.width && 0 <= y < pixelArray.height ==>
              pixelArray.pixels[x, y] == RayTracers.GetPixelColor(rayTracer, x, y)
    ensures printed == ScheduledProgress(rayTracer.renderData.height)
  {
    var width, height := rayTracer.renderData.width, rayTracer.renderData.height;
    var rowQueue := FillRowQueue(height);
    var pixel := (x, y) => RayTracers.GetPixelColor(rayTracer, x, y);
    var results := RenderFunc(pixel, width, rowQueue, order);
    pixelArray := new PixelArray(width, height);
    printed := ResultFunc(pixelArray, results);
    DrainedSchedule(order, pixel, width, height, results);
    ScheduledProgressReported(order, height, results);
  }
}
