/** The month number and variance text of `drawTooltip`. */
module Tooltip {
  import opened Cells

  /** `parseInt(month) + 1`: the 1-based month the tooltip derives from a
      cell's `data-month`; it undoes DataMonth. */
  function TooltipMonthNumber(dataMonth: int): (m: int)
    ensures DataMonth(m) == dataMonth
  {
    dataMonth + 1
  }

  /** The variance line: `+` before a non-negative variance, the text unchanged
      otherwise. `text` is the variance attribute, already a string, and `value`
      its numeric value. */
  function VarianceText(text: string, value: real): (r: string)
    ensures |r| >= |text| && r[|r| - |text|..] == text
    ensures |r| > |text| <==> value >= 0.0
    ensures value >= 0.0 ==> r[0] == '+'
  {
    if value >= 0.0 then "+" + text else text
  }

  /** `text` reads as JavaScript prints the number `value`: it is non-empty,
      has no leading `+`, and has a leading `-` exactly when `value` is negative. */
  predicate PrintedAs(text: string, value: real) {
    |text| > 0 && text[0] != '+' && (text[0] == '-' <==> value < 0.0)
  }

  /** For a printed number the shown variance always carries an explicit sign,
      and it is `+` exactly when the variance is non-negative. */
  lemma VarianceSignShown(text: string, value: real)
    requires PrintedAs(text, value)
    ensures var r := VarianceText(text, value);
      |r| > 0 && (r[0] == '+' || r[0] == '-') && (r[0] == '+' <==> value >= 0.0)
  {
  }

  /** Removes one leading `+`. */
  function StripPlus(r: string): string {
    if |r| > 0 && r[0] == '+' then r[1..] else r
  }

  /** Stripping the added sign gives back the attribute text. */
  lemma StripPlusRecoversText(text: string, value: real)
    requires |text| == 0 || text[0] != '+'
    ensures StripPlus(VarianceText(text, value)) == text
  {
  }
}
