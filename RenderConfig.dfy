/**
  Render settings (raylib/RenderData.cs): image size, recursion depth, thread count and the
  five effect switches, which the constructor turns all on.
 */
module RenderConfig {

  datatype RenderData = RenderData(
    width: int,
    height: int,
    rayTraceDepth: int,
    numThreads: int,
    threadPerLine: bool,
    renderDiffuse: bool,
    renderReflection: bool,
    renderRefraction: bool,
    renderShadow: bool,
    renderHighlights: bool)

  /** The constructor keeps its five arguments and enables every effect. */
  function NewRenderData(width: int, height: int, rayTraceDepth: int, numThreads: int, threadPerLine: bool): (r: RenderData)
    ensures r.width == width && r.height == height && r.rayTraceDepth == rayTraceDepth
    ensures r.numThreads == numThreads && r.threadPerLine == threadPerLine
    ensures AllEffectsOn(r)
  {
    RenderData(width, height, rayTraceDepth, numThreads, threadPerLine, true, true, true, true, true)
  }

  predicate AllEffectsOn(r: RenderData) {
    r.renderDiffuse && r.renderReflection && r.renderRefraction && r.renderShadow && r.renderHighlights
  }
}
