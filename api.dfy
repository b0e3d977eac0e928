/**
 * The canonical data model of a resource under validation: the uploaded
 * `DataFile` and the typed tabular parts (`TabularDataFile`) it is decomposed into.
 */
module Api {
  import opened Wrappers

  /** A Darwin Core term, identified by its qualified name. */
  type Term = string

  /** A filesystem path; paths are compared by their text. */
  type Path = string

  /** Java's `int`: the range of values a boxed `Integer` line count can hold. */
  const INT32_MIN: int := -0x8000_0000
  const INT32_MAX: int := 0x7fff_ffff
  type Int32 = x: int | INT32_MIN <= x <= INT32_MAX

  /** Java's `int` subtraction, which wraps around modulo 2^32. */
  function Int32Sub(a: Int32, b: Int32): (r: Int32)
    ensures INT32_MIN <= a - b <= INT32_MAX ==> r == a - b
    ensures (r - (a - b)) % 0x1_0000_0000 == 0
  {
    var d := (a - b - INT32_MIN) % 0x1_0000_0000 + INT32_MIN;
    d
  }

  /** A character set, identified by its canonical name. */
  datatype Charset = Charset(name: string)

  /** Whether a tabular part is the core of the star schema or one of its extensions. */
  datatype DwcFileType = CORE | EXTENSION

  /** The semantic row type of a part together with its core/extension classification. */
  datatype RowTypeKey = RowTypeKey(rowType: Term, dwcFileType: DwcFileType)

  /** The column holding the record identifier and the term it is known by. */
  datatype TermIndex = TermIndex(index: Int32, term: Term)

  /** The declared format of an uploaded resource. */
  datatype FileFormat = DWCA | TABULAR | SPREADSHEET {
    /** Formats that the archive reader can open directly (everything but spreadsheets). */
    predicate IsTabularBased() {
      this != SPREADSHEET
    }
  }

  /** An uploaded resource, immutable once created. */
  datatype DataFile = DataFile(
    key: string,
    filePath: Path,
    sourceFileName: string,
    fileFormat: FileFormat,
    receivedAsMediaType: Option<string>,
    mediaType: Option<string>)

  /** One tabular part of a resource: a core or extension file, or a split of one. */
  datatype TabularDataFile = TabularDataFile(
    filePath: Path,
    sourceFileName: string,
    rowTypeKey: RowTypeKey,
    columns: seq<Term>,
    recordIdentifier: Option<TermIndex>,
    defaultValues: Option<map<Term, string>>,
    lineOffset: Option<Int32>,
    withHeader: bool,
    characterEncoding: Charset,
    delimiterChar: char,
    quoteChar: Option<char>,
    numberOfLines: Int32,
    numberOfLinesWithData: Int32)
  {
    function RowType(): Term {
      rowTypeKey.rowType
    }
  }
}
