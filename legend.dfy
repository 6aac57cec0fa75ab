/** The colour legend of `drawLegend`: an ordinal axis over the thresholds and
    one box per palette colour. */
module Legend {
  import opened Bucketing

  const LegendBoxWidth: int := 40

  /** The boxes' top edge. */
  const LegendBoxY: int := 500

  /** The legend axis is translated right by `legendBoxWidth - 0.5`. */
  const LegendAxisShift: real := LegendBoxWidth as real - 0.5

  /** The legend scale's domain, ascending. */
  const LegendDomain: seq<real> := [2.8, 3.9, 5.0, 6.1, 7.2, 8.3, 9.5, 10.6, 11.7, 12.8]

  /** The legend scale's range: domain value i is placed at `100 + i * legendBoxWidth`. */
  function LegendRange(domain: seq<real>): (xs: seq<int>)
    ensures |xs| == |domain|
    ensures |xs| > 0 ==> xs[0] == 100
    ensures forall i :: 0 <= i < |xs| - 1 ==> xs[i] + LegendBoxWidth == xs[i + 1]
  {
    seq(|domain|, i => 100 + i * LegendBoxWidth)
  }

  datatype Box = Box(x: int, y: int, width: int, height: int, fill: string)

  /** One square box per colour, box i at `x = 100 + legendBoxWidth * i`: the
      boxes show the colours in order, left to right, each one ending where the
      next begins, so no two overlap. */
  function LegendBoxes(colors: seq<string>): (boxes: seq<Box>)
    ensures |boxes| == |colors|
    ensures |boxes| > 0 ==> boxes[0].x == 100
    ensures forall i :: 0 <= i < |boxes| ==> boxes[i].fill == colors[i] && boxes[i].width == LegendBoxWidth
    ensures forall i :: 0 <= i < |boxes| - 1 ==> boxes[i].x + boxes[i].width == boxes[i + 1].x
    ensures forall i, j :: 0 <= i < j < |boxes| ==> boxes[i].x + boxes[i].width <= boxes[j].x
  {
    seq(|colors|, i requires 0 <= i < |colors| =>
      Box(100 + LegendBoxWidth * i, LegendBoxY, LegendBoxWidth, LegendBoxWidth, colors[i]))
  }

  /** There is one legend box per bucket, and the box at a cell's bucket index
      shows that cell's colour. */
  lemma LegendBoxPerBucket(temp: real)
    ensures |LegendBoxes(CellColors)| == |LegendDomain| + 1
    ensures LegendBoxes(CellColors)[FillIndex(temp)].fill == GetFillColor(temp)
  {
  }

  /** The i-th legend domain value is the inclusive lower bound of bucket i + 1,
      whose colour box i + 1 shows. */
  lemma LegendDomainValueStartsBucket(i: nat)
    requires i < |LegendDomain|
    ensures FillIndex(LegendDomain[i]) == i + 1
    ensures forall t :: t < LegendDomain[i] ==> FillIndex(t) <= i
    ensures LegendBoxes(CellColors)[i + 1].fill == GetFillColor(LegendDomain[i])
  {
    assert LegendDomain == Thresholds;
    ThresholdIsInclusive(i);
  }

  /** The legend scale's position for the i-th domain value, plus the axis
      group's shift of `legendBoxWidth - 0.5`, is half a pixel left of the edge
      between box i and box i + 1 (the axis generator's own offsets are not
      part of this model). */
  lemma LegendTickAtBoxEdge(i: nat)
    requires i < |LegendDomain|
    ensures LegendRange(LegendDomain)[i] as real + LegendAxisShift
      == (LegendBoxes(CellColors)[i].x + LegendBoxes(CellColors)[i].width) as real - 0.5
    ensures LegendBoxes(CellColors)[i].x + LegendBoxes(CellColors)[i].width
      == LegendBoxes(CellColors)[i + 1].x
  {
  }
}
