/**
 * What the Darwin Core archive reader hands to the validator: an opened archive
 * with its core and extension descriptors. The reader itself is not modelled;
 * its answers are inputs.
 */
module Archives {
  import opened Wrappers
  import opened Api

  /** The name of an archive's descriptor file. */
  const META_FN: string := "meta.xml"

  /** The term an id column is known by when the descriptor names none (defined by the archive reader). */
  const DEFAULT_ID_TERM: Term := "http://rs.tdwg.org/dwc/terms/ID"

  /** A file on disk as the reader resolved it: its path, its last path component, and whether it exists (`present`). */
  datatype FileRef = FileRef(path: Path, name: string, present: bool)

  /** The id column declared for an archive file; its term may be left out. */
  datatype IdField = IdField(index: Int32, term: Option<Term>)

  /** One data file described by the archive descriptor. */
  datatype ArchiveFile = ArchiveFile(
    rowType: Term,
    /** per column, the terms mapped onto it (the first one names the column) */
    header: seq<seq<Term>>,
    /** the terms of the declared fields, each once, in iteration order */
    fieldTerms: seq<Term>,
    ignoreHeaderLines: Option<Int32>,
    id: Option<IdField>,
    defaultValues: Option<map<Term, string>>,
    /** the location as written in the descriptor */
    location: Option<string>,
    /** the location resolved against the archive directory */
    locationFile: Option<FileRef>,
    encoding: string,
    fieldsTerminatedBy: string,
    fieldsEnclosedBy: Option<char>)
  {
    /** Whether the file declares a field for `t`. */
    predicate HasTerm(t: Term) {
      t in fieldTerms
    }
  }

  /** An opened archive: at most one core, ordered extensions, an optional metadata document. */
  datatype Archive = Archive(
    locationName: string,
    core: Option<ArchiveFile>,
    extensions: seq<ArchiveFile>,
    metadataLocationFile: Option<FileRef>)

  /** How opening an archive through the reader ends. */
  datatype ArchiveAccess =
    | Readable(archive: Archive)
    | Unreadable(message: string)

  /** How validating an XML document against a schema ends. */
  datatype SchemaCheck =
    | SchemaValid
    | SchemaViolation(message: string)
    | SchemaReadFault(message: string)
}
