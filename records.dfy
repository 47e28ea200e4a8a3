/** Rows of the spreadsheet the pipeline reads. Row order is the only link
    between a record, its cleaned text and its prediction. */
module Records {

  /** One input row: its `Description` cell and the row's other cells, in
      column order. */
  datatype Record = Record(description: string, otherCells: seq<string>)

  /** One row of the frame the cleaning stage returns: the input row with its
      `processed_desc` cell appended. */
  datatype ProcessedRecord = ProcessedRecord(record: Record, processedDesc: string)
}
