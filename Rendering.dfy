/**
  What the two threaded renderers (raylib/Renderer.cs, raylib/PerLineThreadedRenderer.cs) have
  in common, made sequential: the pixel sink, the queue of rows to render, the workers' row
  computation and the consumer that drains finished rows into the sink and reports progress.

  The workers run concurrently in the source. Here the rows reach the result queue in an
  order given as a parameter, a schedule: every row of the queue exactly once, in any order.
 */
module Rendering {
  import opened Wrappers
  import Colors

  /** PixelArray: a Width x Height grid of colours, indexed [x, y]. */
  class PixelArray {
    const width: int
    const height: int
    const pixels: array2<Colors.Color>

    predicate Valid() {
      pixels.Length0 == width && pixels.Length1 == height
    }

    /** A new image of the given size; the image library demands a positive size and starts
        every pixel black. */
    constructor (width: int, height: int)
      requires width > 0 && height > 0
      ensures this.width == width && this.height == height && Valid() && fresh(pixels)
      ensures forall x, y :: 0 <= x < width && 0 <= y < height ==> pixels[x, y] == Colors.Black
    {
      this.width := width;
      this.height := height;
      pixels := new Colors.Color[width, height]((x, y) => Colors.Black);
    }

    /** SetPixelColor: pixel (x, y) becomes color and no other pixel changes. */
    method SetPixelColor(x: int, y: int, color: Colors.Color)
      requires Valid() && 0 <= x < width && 0 <= y < height
      modifies pixels
      ensures pixels[x, y] == color
      ensures forall i, j :: 0 <= i < width && 0 <= j < height && (i != x || j != y) ==>
                pixels[i, j] == old(pixels[i, j])
    {
      pixels[x, y] := color;
    }
  }

  /** RenderLineResult: a row number and the colours of that row. */
  datatype LineResult = LineResult(y: int, rowPixels: seq<Colors.Color>)

  /** The rows 0 .. height - 1 in ascending order. */
  function Rows(height: int): (r: seq<int>)
    ensures |r| == if height <= 0 then 0 else height
    ensures forall i :: 0 <= i < |r| ==> r[i] == i
  {
    if height <= 0 then [] else seq(height, y requires 0 <= y < height => y)
  }

  /** The rows 0 .. height - 1 as a set: what incompleteRows starts as. */
  function AllRows(height: int): (r: set<int>)
    ensures forall y :: y in r <==> 0 <= y < height
    ensures |r| == if height <= 0 then 0 else height
  {
    if height <= 0 then {} else AllRows(height - 1) + {height - 1}
  }

  /** An order in which the rows 0 .. height - 1 can come back from the workers: each one
      exactly once. */
  predicate IsSchedule(order: seq<int>, height: int) {
    |order| == height
    && (forall i :: 0 <= i < |order| ==> 0 <= order[i] < height)
    && (forall i, j :: 0 <= i < j < |order| ==> order[i] != order[j])
  }

  /** The row-queue setup: rows 0 .. height - 1 are enqueued one by one. */
  method FillRowQueue(height: int) returns (rowQueue: seq<int>)
    ensures rowQueue == Rows(height)
  {
    rowQueue := [];
    var y := 0;
    while y < height
      invariant (height <= 0 && y == 0) || 0 <= y <= height
      invariant rowQueue == Rows(y)
    {
      rowQueue := rowQueue + [y];
      y := y + 1;
    }
  }

  /** The queue holds every row once, in ascending order. */
  lemma RowQueueAscendingOnce(height: int)
    ensures IsSchedule(Rows(height), height) || height < 0
    ensures forall i, j :: 0 <= i < j < |Rows(height)| ==> Rows(height)[i] < Rows(height)[j]
  {
  }

  /** The colours of row y: the pixel function at x = 0 .. width - 1. */
  function RowOf(pixel: (int, int) -> Colors.Color, width: int, y: int): (r: seq<Colors.Color>)
    ensures |r| == if width <= 0 then 0 else width
    ensures forall x :: 0 <= x < |r| ==> r[x] == pixel(x, y)
  {
    if width <= 0 then [] else seq(width, x requires 0 <= x < width => pixel(x, y))
  }

  /** The inner loop of RenderFunc: the row's colours are appended one by one. */
  method RenderRow(pixel: (int, int) -> Colors.Color, width: int, y: int) returns (rowPixels: seq<Colors.Color>)
    ensures rowPixels == RowOf(pixel, width, y)
  {
    rowPixels := [];
    var x := 0;
    while x < width
      invariant (width <= 0 && x == 0) || 0 <= x <= width
      invariant rowPixels == RowOf(pixel, x, y)
    {
      rowPixels := rowPixels + [pixel(x, y)];
      x := x + 1;
    }
  }

  /** RenderFunc, all workers together: each row is taken from the queue once and rendered
      into one result; the results arrive in the order the workers finish, given by `order`,
      the queue positions in arrival order. */
  method RenderFunc(pixel: (int, int) -> Colors.Color, width: int, rowQueue: seq<int>, order: seq<int>)
    returns (results: seq<LineResult>)
    requires IsSchedule(order, |rowQueue|)
    ensures |results| == |rowQueue|
    ensures forall k :: 0 <= k < |results| ==>
              results[k].y == rowQueue[order[k]] && results[k].rowPixels == RowOf(pixel, width, rowQueue[order[k]])
  {
    results := [];
    var next := 0;
    while next < |order|
      invariant 0 <= next <= |order| && |results| == next
      invariant forall k :: 0 <= k < next ==>
                  results[k].y == rowQueue[order[k]] && results[k].rowPixels == RowOf(pixel, width, rowQueue[order[k]])
    {
      var y := rowQueue[order[next]];
      next := next + 1;
      var rowPixels := RenderRow(pixel, width, y);
      results := results + [LineResult(y, rowPixels)];
    }
  }

  /** Where the last result for row y is, if there is one. */
  function LastFor(results: seq<LineResult>, y: int): (r: Option<nat>)
    ensures r.Some? ==> r.value < |results| && results[r.value].y == y
    ensures r.Some? ==> forall j :: r.value < j < |results| ==> results[j].y != y
    ensures r.None? ==> forall j :: 0 <= j < |results| ==> results[j].y != y
  {
    if results == [] then None
    else if results[|results| - 1].y == y then Some(|results| - 1)
    else LastFor(results[..|results| - 1], y)
  }

  /** The consumer's state after draining the first n results: the rows still incomplete and
      the percentages reported so far, one per result. */
  function DrainState(height: int, results: seq<LineResult>, n: nat): (r: (set<int>, seq<real>))
    requires n <= |results| && (n > 0 ==> height > 0)
    ensures |r.1| == n
  {
    if n == 0 then (AllRows(height), [])
    else
      var (incompleteRows, percents) := DrainState(height, results, n - 1);
      var remaining := incompleteRows - {results[n - 1].y};
      (remaining, percents + [Percentage(height - |remaining|, height)])
  }

  /** incompleteRows after the first k results. */
  function Incomplete(height: int, results: seq<LineResult>, k: nat): set<int>
    requires k <= |results| && (k > 0 ==> height > 0)
  {
    DrainState(height, results, k).0
  }

  /** The percentage the consumer reports after draining results[k]. */
  function PercentAfter(height: int, results: seq<LineResult>, k: nat): real
    requires height > 0 && k < |results|
  {
    DrainState(height, results, k + 1).1[k]
  }

  /** The percentage of complete rows: completeRows / totalRows * 100, in floating point. */
  function Percentage(completeRows: int, totalRows: int): real
    requires totalRows > 0
  {
    completeRows as real / totalRows as real * 100.0
  }

  /** The colour pixel (x, y) shows after the results are drained over a grid whose pixel was
      `before`: the last result for its row wins. (ResultFunc requires every row to be as wide
      as the image, so the last case does not arise there.) */
  function Drained(results: seq<LineResult>, x: nat, y: int, before: Colors.Color): Colors.Color {
    match LastFor(results, y)
    case Some(i) => if x < |results[i].rowPixels| then results[i].rowPixels[x] else before
    case None => before
  }

  /** Writes one result's row into the pixel array. */
  method WriteRow(pixelArray: PixelArray, result: LineResult)
    requires pixelArray.Valid() && 0 <= result.y < pixelArray.height
    requires |result.rowPixels| >= pixelArray.width
    modifies pixelArray.pixels
    ensures forall x, y :: 0 <= x < pixelArray.width && 0 <= y < pixelArray.height ==>
              pixelArray.pixels[x, y] == if y == result.y then result.rowPixels[x] else old(pixelArray.pixels[x, y])
  {
    for x := 0 to pixelArray.width
      invariant forall i, j :: 0 <= i < pixelArray.width && 0 <= j < pixelArray.height ==>
                  pixelArray.pixels[i, j] == if j == result.y && i < x then result.rowPixels[i] else old(pixelArray.pixels[i, j])
    {
      pixelArray.SetPixelColor(x, result.y, result.rowPixels[x]);
    }
  }

  /** The consumer's setup: every row 0 .. height - 1 is added to the incomplete set. */
  method AllIncomplete(height: nat) returns (incompleteRows: set<int>)
    ensures incompleteRows == AllRows(height)
  {
    incompleteRows := {};
    for y := 0 to height
      invariant incompleteRows == AllRows(y)
    {
      incompleteRows := incompleteRows + {y};
    }
  }

  /** The consumer's loop body for results[i]: its row is written, the row is marked complete
      and the percentage of complete rows is reported. */
  method DrainResult(pixelArray: PixelArray, results: seq<LineResult>, i: nat,
                     incompleteRows: set<int>, percents: seq<real>)
    returns (remaining: set<int>, reported: seq<real>)
    requires pixelArray.Valid() && i < |results|
    requires 0 <= results[i].y < pixelArray.height && |results[i].rowPixels| >= pixelArray.width
    requires (incompleteRows, percents) == DrainState(pixelArray.height, results, i)
    modifies pixelArray.pixels
    ensures forall x, y :: 0 <= x < pixelArray.width && 0 <= y < pixelArray.height ==>
              pixelArray.pixels[x, y]
              == if y == results[i].y then results[i].rowPixels[x] else old(pixelArray.pixels[x, y])
    ensures (remaining, reported) == DrainState(pixelArray.height, results, i + 1)
  {
    var renderLineResult := results[i];
    WriteRow(pixelArray, renderLineResult);
    remaining := incompleteRows - {renderLineResult.y};
    var totalRows := pixelArray.height;
    var completeRows := pixelArray.height - |remaining|;
    var percentComplete := Percentage(completeRows, totalRows);
    reported := percents + [percentComplete];
  }

  /** ResultFunc, the consumer: every row starts incomplete; each result, in arrival order, is
      written into its row, its row is marked complete and the percentage of complete rows is
      reported. */
  method ResultFunc(pixelArray: PixelArray, results: seq<LineResult>) returns (percents: seq<real>)
    requires pixelArray.Valid()
    requires forall i :: 0 <= i < |results| ==>
               0 <= results[i].y < pixelArray.height && |results[i].rowPixels| >= pixelArray.width
    modifies pixelArray.pixels
    ensures forall x, y :: 0 <= x < pixelArray.width && 0 <= y < pixelArray.height ==>
              pixelArray.pixels[x, y] == Drained(results, x, y, old(pixelArray.pixels[x, y]))
    ensures |results| > 0 ==> pixelArray.height > 0
    ensures percents == DrainState(pixelArray.height, results, |results|).1
  {
    var incompleteRows := AllIncomplete(pixelArray.height);
    percents := [];
    for i := 0 to |results|
      invariant i > 0 ==> pixelArray.height > 0
      invariant (incompleteRows, percents) == DrainState(pixelArray.height, results, i)
      invariant forall x, y :: 0 <= x < pixelArray.width && 0 <= y < pixelArray.height ==>
                  pixelArray.pixels[x, y] == Drained(results[..i], x, y, old(pixelArray.pixels[x, y]))
    {
      incompleteRows, percents := DrainResult(pixelArray, results, i, incompleteRows, percents);
      DrainedStep(results, i);
    }
    assert results[..|results|] == results;
  }

  /** Draining one more result changes only that result's row. */
  lemma DrainedStep(results: seq<LineResult>, i: int)
    requires 0 <= i < |results|
    ensures forall x: nat, y, before :: x < |results[i].rowPixels| ==>
              Drained(results[..i + 1], x, y, before)
              == if y == results[i].y then results[i].rowPixels[x] else Drained(results[..i], x, y, before)
  {
    forall x: nat, y, before | x < |results[i].rowPixels|
      ensures Drained(results[..i + 1], x, y, before)
              == if y == results[i].y then results[i].rowPixels[x] else Drained(results[..i], x, y, before)
    {
      LastForStep(results, i, y);
    }
  }

  lemma LastForStep(results: seq<LineResult>, i: int, y: int)
    requires 0 <= i < |results|
    ensures LastFor(results[..i + 1], y) == if results[i].y == y then Some(i) else LastFor(results[..i], y)
  {
    assert results[..i + 1][..i] == results[..i];
  }

  /** The k-th percentage reported is the share of rows complete once results[k] is drained;
      later results never change an earlier report. */
  lemma {:induction false} ReportedPercents(height: int, results: seq<LineResult>, n: nat)
    requires n <= |results| && height > 0
    ensures forall k: nat :: k < n ==>
              DrainState(height, results, n).1[k] == PercentAfter(height, results, k)
              == Percentage(height - |Incomplete(height, results, k + 1)|, height)
  {
    if n > 0 {
      ReportedPercents(height, results, n - 1);
    }
  }

  /** Rows completed stay complete. */
  lemma {:induction false} IncompleteShrinks(height: int, results: seq<LineResult>, i: nat, j: nat)
    requires i <= j <= |results| && height > 0
    ensures Incomplete(height, results, j) <= Incomplete(height, results, i)
    decreases j - i
  {
    if i < j {
      IncompleteShrinks(height, results, i, j - 1);
    }
  }

  /** The reported percentage never goes down, whatever the arrival order. */
  lemma PercentNonDecreasing(height: int, results: seq<LineResult>, i: nat, j: nat)
    requires height > 0 && i <= j < |results|
    ensures PercentAfter(height, results, i) <= PercentAfter(height, results, j)
  {
    var early, late := Incomplete(height, results, i + 1), Incomplete(height, results, j + 1);
    IncompleteShrinks(height, results, i + 1, j + 1);
    SubsetCardinality(late, early);
    FractionMonotone(height - |early|, height - |late|, height);
  }

  lemma SubsetCardinality(a: set<int>, b: set<int>)
    requires a <= b
    ensures |a| <= |b|
  {
    assert b == a + (b - a);
    assert a !! (b - a);
  }

  /** A row no result so far was for is still incomplete. */
  lemma {:induction false} StillIncomplete(height: int, results: seq<LineResult>, k: nat, y: int)
    requires k <= |results| && 0 <= y < height
    requires forall j :: 0 <= j < k ==> results[j].y != y
    ensures y in Incomplete(height, results, k)
  {
    if k > 0 {
      StillIncomplete(height, results, k - 1, y);
    }
  }

  /** The row of a drained result is complete. */
  lemma {:induction false} NoLongerIncomplete(height: int, results: seq<LineResult>, k: nat, j: nat)
    requires j < k <= |results| && height > 0
    ensures results[j].y !in Incomplete(height, results, k)
  {
    if j < k - 1 {
      NoLongerIncomplete(height, results, k - 1, j);
    }
  }

  lemma FractionMonotone(m: int, n: int, d: int)
    requires m <= n && d > 0
    ensures m as real / d as real * 100.0 <= n as real / d as real * 100.0
  {
    assert m as real / d as real <= n as real / d as real;
  }

  /** Along a schedule, k results leave height - k rows incomplete: the set empties exactly
      at the last arrival, which is when the consumer stops waiting. */
  lemma {:induction false} ScheduleIncomplete(order: seq<int>, height: int, results: seq<LineResult>, k: nat)
    requires IsSchedule(order, height) && |results| == height
    requires forall i :: 0 <= i < |results| ==> results[i].y == order[i]
    requires k <= height
    ensures |Incomplete(height, results, k)| == height - k
  {
    if k > 0 {
      ScheduleIncomplete(order, height, results, k - 1);
      var y := order[k - 1];
      var rest := Incomplete(height, results, k - 1);
      StillIncomplete(height, results, k - 1, y);
      assert rest == (rest - {y}) + {y};
    }
  }

  /** Along a schedule the k-th report (from 0) is (k + 1) / height * 100: strictly below 100
      until the last row arrives, and exactly 100 then. */
  lemma ScheduledPercents(order: seq<int>, height: int, results: seq<LineResult>)
    requires IsSchedule(order, height) && |results| == height && height > 0
    requires forall i :: 0 <= i < |results| ==> results[i].y == order[i]
    ensures forall k: nat :: k < height ==> PercentAfter(height, results, k) == (k + 1) as real / height as real * 100.0
    ensures PercentAfter(height, results, height - 1) == 100.0
    ensures forall k: nat :: k < height - 1 ==> PercentAfter(height, results, k) < 100.0
  {
    forall k: nat | k < height
      ensures PercentAfter(height, results, k) == (k + 1) as real / height as real * 100.0
    {
      ScheduledPercent(order, height, results, k);
    }
    forall k: nat | k < height - 1
      ensures PercentAfter(height, results, k) < 100.0
    {
      ScheduledPercent(order, height, results, k);
      FractionBelowOne(k + 1, height);
    }
    ScheduledPercent(order, height, results, height - 1);
    WholeFraction(height);
  }

  /** The progress reports of a drain that follows a schedule: 1/height, 2/height, ..., 1,
      times 100, whatever order the rows arrive in. */
  function ScheduledProgress(height: int): (r: seq<real>)
    ensures |r| == if height <= 0 then 0 else height
  {
    if height <= 0 then [] else seq(height, k requires 0 <= k < height => Percentage(k + 1, height))
  }

  /** Along a schedule, ResultFunc reports exactly ScheduledProgress: the sequence does not
      depend on the arrival order and its last value is 100. */
  lemma ScheduledProgressReported(order: seq<int>, height: int, results: seq<LineResult>)
    requires IsSchedule(order, height) && |results| == height
    requires forall i :: 0 <= i < |results| ==> results[i].y == order[i]
    ensures height > 0 ==> DrainState(height, results, height).1 == ScheduledProgress(height)
    ensures height > 0 ==> ScheduledProgress(height)[height - 1] == 100.0
  {
    if height > 0 {
      var reported := DrainState(height, results, height).1;
      ReportedPercents(height, results, height);
      forall k | 0 <= k < height
        ensures reported[k] == ScheduledProgress(height)[k]
      {
        ScheduledPercent(order, height, results, k);
      }
      WholeFraction(height);
    }
  }

  lemma WholeFraction(d: int)
    requires d > 0
    ensures d as real / d as real * 100.0 == 100.0
  {
  }

  lemma ScheduledPercent(order: seq<int>, height: int, results: seq<LineResult>, k: nat)
    requires IsSchedule(order, height) && |results| == height && k < height
    requires forall i :: 0 <= i < |results| ==> results[i].y == order[i]
    ensures PercentAfter(height, results, k) == (k + 1) as real / height as real * 100.0
  {
    ScheduleIncomplete(order, height, results, k + 1);
    var n := |Incomplete(height, results, k + 1)|;
    assert height - n == k + 1;
  }

  lemma FractionBelowOne(m: int, d: int)
    requires 0 <= m < d
    ensures m as real / d as real * 100.0 < 100.0
  {
    assert m as real / d as real < 1.0;
  }

  /** Along a schedule every row is written once with its own colours, so the drained image
      is the pixel function everywhere, whatever order the rows arrived in. */
  lemma DrainedSchedule(order: seq<int>, pixel: (int, int) -> Colors.Color, width: int, height: int,
                        results: seq<LineResult>)
    requires IsSchedule(order, height) && |results| == height
    requires forall i :: 0 <= i < |results| ==>
               results[i].y == order[i] && results[i].rowPixels == RowOf(pixel, width, order[i])
    ensures forall x: nat, y, before :: x < width && 0 <= y < height ==> Drained(results, x, y, before) == pixel(x, y)
  {
    ScheduleIncomplete(order, height, results, height);
    forall y | 0 <= y < height
      ensures LastFor(results, y).Some?
    {
      if forall j :: 0 <= j < height ==> results[j].y != y {
        StillIncomplete(height, results, height, y);
      }
    }
  }
}
