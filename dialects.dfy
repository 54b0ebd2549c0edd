/** The formatting conventions handed to the CSV codec. */
module Dialects {
  import opened Common

  /** The quoting policies of Python's csv module. */
  datatype Quoting = QuoteAll | QuoteMinimal | QuoteNonNumeric | QuoteNone

  datatype Dialect = Dialect(
    delimiter: char,
    doublequote: bool,
    escapechar: Option<char>,
    lineterminator: string,
    quotechar: char,
    quoting: Quoting,
    skipinitialspace: bool,
    strict: bool)

  /** The package's own dialect, used when none is given and none is sniffed. */
  const CommaDialect := Dialect(',', true, None, "\r\n", '"', QuoteMinimal, false, false)

  /** Python's built-in `csv.excel` dialect: its own attributes, and
      `csv.Dialect`'s defaults (no escape character, not strict) for the rest. */
  const Excel := Dialect(
    delimiter := ',', quotechar := '"', doublequote := true, skipinitialspace := false,
    lineterminator := "\r\n", quoting := QuoteMinimal,
    escapechar := None, strict := false)

  /** The package's dialect writes and reads exactly as `csv.excel` does. */
  lemma CommaDialectIsExcel()
    ensures CommaDialect == Excel
  {
  }
}
