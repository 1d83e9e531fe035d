/** What an upload reports instead of writing to the page: the warnings and information
    messages shown on the way, and either the value that was stored or the reason nothing
    was stored. */
module Outcomes {
  import opened Cells

  /** The warnings (`st.warning`) and information messages (`st.info`) of the upload paths. */
  datatype Notice =
    | TypeCellEmpty                        // A3 is empty: the consultation type stays "N/A"
    | PeriodUnrecognized(f3: Cell)         // F3 is empty or has no "de": month and year stay "N/A"
    | XlsMetadataUnsupported               // .xls: no A3/F3 extraction
    | CsvMetadataNotApplicable             // .csv: no A3/F3 extraction
    | AreaRenamed                          // the first contract column 'Área' became 'Especialidade'
    | Utf8ReadFailed                       // the CDR file is retried as latin-1 with ';'
    | DenylistedColumnAbsent(name: string) // a CDR column to drop is not there
    | SentinelAbsent                       // the CDR file has no 'Observação Status' column

  /** The three contract checks, each reported at most once. */
  datatype ContractCheck = CostCenterCheck | UnitValueCheck | ContractDateCheck

  /** Why an upload stored nothing (an `st.error`, either returned on directly or raised and
      caught by the handler around the whole upload). */
  datatype Failure =
    | UnsupportedFormat
    | ReaderFailed                             // a spreadsheet or CSV reader raised
    | ColumnCountMismatch                      // fewer than four columns to rename
    | PeriodUnpack(pieces: nat)                // F3 split into other than two pieces
    | PeriodNotText                            // F3 has no `split` (not a string)
    | MissingCsvColumns(expected: seq<string>) // the message lists all four expected columns
    | NoColumns                                // a contract sheet without any column
    | MissingRequiredColumns(missing: seq<string>)
    | DuplicateColumn(name: string)            // a selected label names two columns
    | Validation(checks: seq<ContractCheck>, preview: seq<seq<Cell>>)
    | CsvUnreadable                            // both CSV readings failed to decode or parse
    | MunicipioMissing

  datatype Result<T> = Ok(value: T) | Fail(failure: Failure)

  datatype Outcome<T> = Outcome(notices: seq<Notice>, result: Result<T>)
}
