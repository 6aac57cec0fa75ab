/** Chart geometry and the cell-size formulas of `drawGraph`. */
module Layout {

  datatype Padding = Padding(top: int, bottom: int, right: int, left: int)

  datatype ChartDimensions = ChartDimensions(width: int, height: int, padding: Padding)

  /** The compiled-in chart size: 1620 x 600 with padding 100/150/100/100. */
  const Dimensions := ChartDimensions(1620, 600, Padding(100, 150, 100, 100))

  /** A pixel range `[start, end]` as handed to a scale's `rangeRound`. */
  datatype PixelRange = PixelRange(start: int, end: int)

  /** The result of a JavaScript division of two non-negative numbers. */
  datatype JsQuotient = Finite(value: real) | PositiveInfinity | NotANumber

  /** The x range runs from the left padding to the width less the right padding. */
  function XRange(d: ChartDimensions): (r: PixelRange)
    ensures d.padding.left + d.padding.right <= d.width ==>
      r.start <= r.end && Span(r) == d.width - d.padding.left - d.padding.right
  {
    PixelRange(d.padding.left, d.width - d.padding.right)
  }

  /** The y range runs from the top padding to the height less the bottom padding. */
  function YRange(d: ChartDimensions): (r: PixelRange)
    ensures d.padding.top + d.padding.bottom <= d.height ==>
      r.start <= r.end && Span(r) == d.height - d.padding.top - d.padding.bottom
  {
    PixelRange(d.padding.top, d.height - d.padding.bottom)
  }

  /** The y domain `[...Array(12).keys()]`: the 0-based month indices. */
  const YDomain: seq<int> := seq(12, i => i)

  function Max(a: int, b: int): int { if a < b then b else a }

  function Min(a: int, b: int): int { if a < b then a else b }

  /** `max(range) - min(range)`: the distance between the endpoints, in
      whichever order they are given. */
  function Span(r: PixelRange): (s: nat)
    ensures s == r.end - r.start || s == r.start - r.end
    ensures Min(r.start, r.end) + s == Max(r.start, r.end)
  {
    Max(r.start, r.end) - Min(r.start, r.end)
  }

  /** JavaScript `num / den` on non-negative operands: division by zero gives
      Infinity, or NaN when the numerator is zero as well. */
  function Divide(num: nat, den: nat): (q: JsQuotient)
    ensures den > 0 <==> q.Finite?
    ensures q.Finite? ==> q.value * den as real == num as real && q.value >= 0.0
    ensures q.NotANumber? <==> num == 0 && den == 0
  {
    if den == 0 then (if num == 0 then NotANumber else PositiveInfinity)
    else Finite(num as real / den as real)
  }

  /** Cell height: the y-range span divided by 12. */
  function CellHeight(d: ChartDimensions): (h: real)
    ensures h * 12.0 == Span(YRange(d)) as real
  {
    Span(YRange(d)) as real / 12.0
  }

  /** Cell width: the x-range span divided by the number of domain years. */
  function CellWidth(d: ChartDimensions, xDomain: seq<int>): (w: JsQuotient)
    ensures |xDomain| > 0 ==> w.Finite? && w.value * |xDomain| as real == Span(XRange(d)) as real
    ensures |xDomain| == 0 && Span(XRange(d)) > 0 ==> w == PositiveInfinity
  {
    Divide(Span(XRange(d)), |xDomain|)
  }

  /** Twelve rows of height CellHeight fill the y range of the chart exactly,
      one per month index of the y domain. */
  lemma RowsTileYRange()
    ensures YRange(Dimensions) == PixelRange(100, 450)
    ensures |YDomain| == 12 && forall k :: 0 <= k < 12 ==> YDomain[k] == k
    ensures CellHeight(Dimensions) * |YDomain| as real == 350.0
    ensures YRange(Dimensions).start as real + CellHeight(Dimensions) * |YDomain| as real
            == YRange(Dimensions).end as real
  {
  }

  /** For a non-empty year domain, one column of width CellWidth per year fills
      the x range of the chart exactly; an empty domain gives Infinity. */
  lemma ColumnsTileXRange(xDomain: seq<int>)
    ensures XRange(Dimensions) == PixelRange(100, 1520)
    ensures |xDomain| > 0 ==>
      CellWidth(Dimensions, xDomain).Finite? &&
      CellWidth(Dimensions, xDomain).value * |xDomain| as real == 1420.0 &&
      XRange(Dimensions).start as real + CellWidth(Dimensions, xDomain).value * |xDomain| as real
        == XRange(Dimensions).end as real
    ensures |xDomain| == 0 ==> CellWidth(Dimensions, xDomain) == PositiveInfinity
  {
  }
}
