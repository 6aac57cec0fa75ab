/** The per-record attributes set by `drawCells`. */
module Cells {
  import opened Dataset
  import opened Bucketing
  import opened Layout

  /** A drawn cell's data: its fill and its `data-month`, `data-year`,
      `data-temp`, `width` and `height` attributes. */
  datatype Cell = Cell(fill: string, dataMonth: int, dataYear: int, dataTemp: real,
                       width: JsQuotient, height: real)

  /** `data-month`: the record's month less one, a 0-based row of the y domain. */
  function DataMonth(month: int): (m: int)
    ensures 1 <= month <= 12 <==> 0 <= m < 12
  {
    month - 1
  }

  /** The cell drawn for one record; the fill uses the absolute temperature. */
  function DrawCell(baseTemp: real, d: Record, cellWidth: JsQuotient, cellHeight: real): (c: Cell)
    ensures c.fill in CellColors && c.fill == CellColors[FillIndex(baseTemp + d.variance)]
    ensures c.dataMonth + 1 == d.month && (ValidMonth(d) <==> 0 <= c.dataMonth < 12)
    ensures c.dataYear == d.year && c.dataTemp == d.variance
  {
    Cell(GetFillColor(baseTemp + d.variance), DataMonth(d.month), d.year, d.variance,
         cellWidth, cellHeight)
  }

  /** One cell per record, in record order. */
  function DrawCells(baseTemp: real, data: seq<Record>, cellWidth: JsQuotient, cellHeight: real)
    : (cells: seq<Cell>)
    ensures |cells| == |data|
    ensures forall i :: 0 <= i < |data| ==>
      cells[i].dataYear == data[i].year && cells[i].dataMonth + 1 == data[i].month &&
      cells[i].dataTemp == data[i].variance && cells[i].fill in CellColors
  {
    seq(|data|, i requires 0 <= i < |data| => DrawCell(baseTemp, data[i], cellWidth, cellHeight))
  }

  /** Cell i belongs to record i: its row is the record's month as a 0-based
      index in 0..11, its fill is the bucket colour of base + variance, and it
      carries the record's year and variance. */
  lemma CellFollowsRecord(baseTemp: real, data: seq<Record>, cellWidth: JsQuotient,
                          cellHeight: real, i: nat)
    requires i < |data| && ValidMonth(data[i])
    ensures var c := DrawCells(baseTemp, data, cellWidth, cellHeight)[i];
      0 <= c.dataMonth <= 11 && c.dataMonth + 1 == data[i].month &&
      c.fill == CellColors[FillIndex(baseTemp + data[i].variance)] &&
      c.dataYear == data[i].year && c.dataTemp == data[i].variance
  {
  }

  /** A record with a larger variance never gets a colder colour. */
  lemma WarmerRecordNotColder(baseTemp: real, data: seq<Record>, cellWidth: JsQuotient,
                              cellHeight: real, i: nat, j: nat)
    requires i < |data| && j < |data| && data[i].variance <= data[j].variance
    ensures var cells := DrawCells(baseTemp, data, cellWidth, cellHeight);
      exists ki, kj :: 0 <= ki <= kj < |CellColors| &&
        cells[i].fill == CellColors[ki] && cells[j].fill == CellColors[kj]
  {
    FillIndexMonotone(baseTemp + data[i].variance, baseTemp + data[j].variance);
    var ki, kj := FillIndex(baseTemp + data[i].variance), FillIndex(baseTemp + data[j].variance);
    assert DrawCells(baseTemp, data, cellWidth, cellHeight)[i].fill == CellColors[ki];
    assert DrawCells(baseTemp, data, cellWidth, cellHeight)[j].fill == CellColors[kj];
  }
}
