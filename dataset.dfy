/** The shape of the temperature document the chart is drawn from. */
module Dataset {

  datatype Option<+T> = None | Some(value: T)

  /** One entry of `monthlyVariance`: a calendar year, a 1-based month and the
      deviation (degrees Celsius) from the document's base temperature. */
  datatype Record = Record(year: int, month: int, variance: real)

  /** The month field lies in 1..12. */
  predicate ValidMonth(d: Record) {
    1 <= d.month <= 12
  }
}
