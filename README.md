# Heatmap of monthly global land-surface temperature: verified model of its rules

The page draws one rectangle per (year, month) record of a temperature
document, coloured by the absolute temperature `baseTemperature + variance`,
with a year axis, a month axis, a colour legend and a hover tooltip. Almost all
of `scripts/main.js` is drawing-library calls and DOM updates; this project
models the pure decision and layout rules inside it and proves what they
guarantee:

- `bucketing.dfy` (module `Bucketing`): the palette `cellColors` and
  `getFillColor`, a chain of inclusive `>=` tests from 12.8 down to 2.8 that
  falls through to palette entry 0. It is proved total, monotone, inclusive at
  every threshold, and equal to the rank of the temperature in the ascending
  threshold table (a reference definition independent of the chain).
- `legend.dfy` (module `Legend`): the legend scale's domain and range and the
  eleven legend boxes. Box k shows the colour of bucket k. The boxes abut
  without overlap. The scale position of the i-th domain value lies at the edge
  between box i and box i + 1 (less half a pixel), counting the scale position
  and the axis group's shift only, and that value is the lower bound of
  bucket i + 1.
- `layout.dfy` (module `Layout`): the chart constants, the x and y pixel ranges,
  and the cell width and height. Twelve rows tile the y range. For a non-empty
  year domain, one column per year tiles the x range in exact real arithmetic. JavaScript division by
  zero is modelled as Infinity or NaN, not excluded.
- `axes.dfy` (module `Axes`): the x-axis tick filter, with JavaScript's
  truncating `%` written out. The ticks are exactly the decade years of the
  domain, in domain order. The y-axis labels take the month of the k-th record,
  so they are right exactly when the document starts with January to December.
- `cells.dfy` (module `Cells`): the fill and `data-*` attributes of each cell.
  `data-month` is the 0-based month.
- `tooltip.dfy` (module `Tooltip`): the month number recovered from
  `data-month`, and the sign prefix of the variance line.
- `dataset.dfy` (module `Dataset`): the record shape and an `Option` type.

Temperatures are Dafny `real`s: the modelled code only compares them. The
scale objects of the drawing library are abstracted. The list of distinct
years of the band scale's domain is an input, and the pixel ranges come from
the chart constants.

## Model

| member | source | states |
|---|---|---|
| Bucketing.FillIndex | scripts/main.js:156-177 | total: every temperature gets one palette index in 0..10; index 0 exactly below 2.8, index 10 exactly at or above 12.8; otherwise index k exactly when the temperature lies in [threshold k-1, threshold k) |
| Bucketing.GetFillColor | scripts/main.js:156-178 | every temperature is coloured with an entry of the 11-colour palette |
| Bucketing.FillIndexIsRank | scripts/main.js:157-177 | the descending if/else chain equals the number of ascending thresholds at or below the temperature, so it agrees with any search over the sorted table |
| Bucketing.FillIndexMonotone | scripts/main.js:157-177 | t1 <= t2 implies index(t1) <= index(t2) |
| Bucketing.ThresholdIsInclusive | scripts/main.js:157-176 | a temperature equal to threshold i (2.8, ..., 12.8) gets bucket i + 1, and anything below it gets at most bucket i |
| Bucketing.FillColorDeterminesBucket | scripts/main.js:1-13 | the palette colours are distinct, so two temperatures share a colour exactly when they share a bucket |
| Legend.LegendRange | scripts/main.js:189-191 | one position per legend domain value: the first at 100, each next one 40 px (a box width) further right |
| Legend.LegendBoxes | scripts/main.js:198-208 | one box per colour, the first at x = 100; box i is filled with colour i and is 40 px wide; each box's right edge is the next box's left edge; boxes never overlap and are in strictly increasing x order |
| Legend.LegendBoxPerBucket | scripts/main.js:198-208 | there are 11 boxes, one per bucket, and the box at a cell's bucket index shows that cell's colour |
| Legend.LegendDomainValueStartsBucket | scripts/main.js:185-208 | the i-th legend domain value is the inclusive lower bound of bucket i + 1 (it gets bucket i + 1, anything below it at most bucket i), and box i + 1 shows its colour |
| Legend.LegendTickAtBoxEdge | scripts/main.js:185-208 | the legend scale's position for the i-th domain value plus the axis group's 39.5 px shift is half a pixel left of the edge where box i ends and box i + 1 begins |
| Layout.Span | scripts/main.js:80-82 | max(range) - min(range) is the absolute distance between the range endpoints, whatever their order |
| Layout.XRange | scripts/main.js:54-57 | the x range runs from the left padding to the width less the right padding: ascending, and its span is the width less both horizontal paddings whenever they fit |
| Layout.YRange | scripts/main.js:60-63 | the y range runs from the top padding to the height less the bottom padding: ascending, and its span is the height less both vertical paddings whenever they fit |
| Layout.Divide | scripts/main.js:81-82 | division by zero as in JavaScript (Infinity for num > 0, NaN for 0 / 0); otherwise the exact real quotient q, non-negative, with q * den == num |
| Layout.CellHeight | scripts/main.js:80 | the cell height times 12 equals the y-range span |
| Layout.CellWidth | scripts/main.js:81-82 | for any chart dimensions and a non-empty year domain, the (exact real) cell width times the number of years equals the x-range span; with no years and a non-zero span it is Infinity |
| Layout.RowsTileYRange | scripts/main.js:59-80 | the y range is [100, 450]; the y domain is 0..11; twelve rows of the cell height start at 100 and end exactly at 450 |
| Layout.ColumnsTileXRange | scripts/main.js:53-82 | the x range is [100, 1520]; for a non-empty year domain the exact real cell width times the number of years is 1420, so the columns end exactly at 1520; for an empty domain the width is Infinity |
| Axes.JsRemTen | scripts/main.js:263 | JavaScript `% 10`: the value r in (-10, 10) with a - r a multiple of 10 and the sign of a (r >= 0 for a >= 0, r <= 0 for a < 0); it is zero exactly when the year is a multiple of 10 |
| Axes.IsDecade | scripts/main.js:263 | the filter `val % 10 === 0` holds exactly when the year is a multiple of 10 |
| Axes.XTicks | scripts/main.js:263 | every tick is a domain year divisible by 10, and every domain year divisible by 10 is a tick |
| Axes.XTicksKeepOrder | scripts/main.js:263 | the ticks are a subsequence of the domain (order preserved) |
| Axes.XTicksCountOccurrences | scripts/main.js:263 | each decade year occurs among the ticks as often as in the domain, and no other value occurs |
| Axes.YTickMonth | scripts/main.js:273-275 | the label of row k is defined exactly for k below the number of records |
| Axes.YLabelsRightIffYearStartsInJanuary | scripts/main.js:270-275 | rows 0..11 are labelled with months 1..12 exactly when the first twelve records are January to December in order |
| Axes.YLabelWrongWhenFirstRecordIsFebruary | scripts/main.js:270-275 | a document starting in February labels the January row with February |
| Cells.DataMonth | scripts/main.js:147 | `data-month` is in 0..11 exactly when the record's month is in 1..12 |
| Cells.DrawCell | scripts/main.js:145-153 | the cell's fill is the palette colour of bucket(base + variance); its `data-month` plus 1 is the record's month and lies in 0..11 exactly when the month lies in 1..12; it carries the record's year and variance |
| Cells.DrawCells | scripts/main.js:140-153 | one cell per record, in record order: cell i carries record i's year, month - 1 and variance, and a palette colour |
| Cells.CellFollowsRecord | scripts/main.js:140-153 | for a record with month 1..12: its cell's `data-month` is month - 1 in 0..11; its fill is the palette colour of bucket(base + variance); it carries the record's year and variance |
| Cells.WarmerRecordNotColder | scripts/main.js:146 | a record with a larger variance gets a palette colour at the same or a higher index |
| Tooltip.TooltipMonthNumber | scripts/main.js:99 | the tooltip's `data-month + 1` undoes the cell's `month - 1`, giving back the record's 1-based month |
| Tooltip.VarianceText | scripts/main.js:111 | the shown text ends with the variance text unchanged; it is longer than that text exactly when the variance is non-negative, and then starts with `+` |
| Tooltip.VarianceSignShown | scripts/main.js:111 | for a variance printed as JavaScript prints numbers, the shown text starts with `+` or `-`, and with `+` exactly when the variance is non-negative |
| Tooltip.StripPlusRecoversText | scripts/main.js:111 | removing the added `+` gives back the variance text |

## Left out

- Loading the document (`getData`, lines 117-129): network I/O and JSON parsing.
- The drawing library's scales and axes (`scaleBand`, `rangeRound`, `align`, `scaleOrdinal`, axis generation): their source is not part of this model. The band scale's collapsing of the per-record `years` into distinct years is not modelled either; the domain is an input.
- Cell pixel positions `parseInt(xScale(...))` and `parseInt(yScale(...))` (lines 150-151): they depend on the band scale's rounding.
- DOM work: tooltip position, visibility and `innerHTML` (lines 92-95, 114); the hover listeners (lines 211-229); the title, description and axis labels (lines 231-252, 300-316).
- The x-axis path rewrite that splits the path on `H` and subtracts 104 (lines 287-291): it depends on the generated path format and on string-to-number coercion.
- The rounded tooltip temperature `Math.round(x * 1000) / 1000` (lines 105-106): floating-point arithmetic.
- Month names from `Date` and `toLocaleDateString` (lines 47-51, 99-104): a locale-dependent library call. Only the month numbers are modelled (Cells.DataMonth, Tooltip.TooltipMonthNumber, Axes.YTickMonth).
- Layout.Divide: the quotient is an exact real; the program computes it in IEEE-754 doubles and rounds it, so q * den == num holds of the model but not always of the program.
- Layout.CellWidth: the width is the exact real quotient; in doubles `(1420 / n) * n` can differ from 1420 (n = 19, for one), so the program's columns need not end exactly at the range end.
- Layout.ColumnsTileXRange: the exact tiling is proved for real quotients only; for some year counts (19, 38, 76, ...) the program's rounded width does not multiply back to 1420.
- Legend.LegendTickAtBoxEdge: it places the scale position plus the axis group's shift, not the drawn tick; the axis generator's own pixel offsets are not modelled.
- Bucketing.FillIndex: temperatures are exact reals. The floating-point sum `baseTemp + variance` and NaN are not modelled; a NaN would fail every `>=` test and get entry 0.
- Tooltip.VarianceText: the numeric value of the variance attribute is a parameter. The string-to-number coercion behind `variance >= 0` is not modelled.
- Axes.YTickMonth: the label is the month of the k-th record. It is not claimed correct in general; the real document starting in January is what makes it right.
