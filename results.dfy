/** What evaluators report: evaluation types, issues and result elements. */
module Results {
  import opened Wrappers
  import opened Api

  /** The categories of findings produced by the structure evaluators. */
  datatype EvaluationType =
    | DWCA_UNREADABLE
    | DWCA_META_XML_NOT_FOUND
    | DWCA_META_XML_SCHEMA
    | REQUIRED_TERM_MISSING
    | UNKNOWN_TERM
    | UNKNOWN_ROWTYPE
    | EML_GBIF_SCHEMA
    | EML_NOT_FOUND

  /** The data an issue is about: a row type and, for term-level issues, a term in it. */
  datatype TermWithinRowType = TermWithinRowType(rowType: Term, term: Option<Term>)

  /** One finding, with the row type/term it relates to. */
  datatype ValidationIssue = ValidationIssue(evaluationType: EvaluationType, relatedData: TermWithinRowType)

  /**
   * An element of the resource and what was found in it: either the single
   * exception-style finding of a structural check, or the issues collected
   * about the archive descriptor.
   */
  datatype ValidationResultElement =
    | OnException(fileName: string, evaluationType: EvaluationType, message: Option<string>)
    | ForMetaDescriptor(fileName: string, issues: seq<ValidationIssue>)
}
