/**
 * Structural evaluation of a resource's metadata document (EML): is it there,
 * and is it valid against the GBIF EML schema. The archive reader and the
 * schema validator are inputs.
 */
module EmlStructure {
  import opened Wrappers
  import opened Api
  import opened Archives
  import opened Results

  /** A result element holding a single exception-style finding about `sourceFilename`. */
  function BuildResult(sourceFilename: string, evaluationType: EvaluationType, message: Option<string>)
    : (r: ValidationResultElement)
    ensures r.OnException? && r.fileName == sourceFilename
    ensures r.evaluationType == evaluationType && r.message == message
  {
    OnException(sourceFilename, evaluationType, message)
  }

  /**
   * Evaluates the metadata document of the archive in a folder. `access` is
   * how opening the archive ended, and `emlCheck` how validating its metadata
   * document against the EML schema ends. A missing document and an
   * unreadable archive are both reported as a missing document.
   */
  function Evaluate(access: ArchiveAccess, emlCheck: SchemaCheck, sourceFilename: string)
    : (r: Option<ValidationResultElement>)
    requires access.Readable? ==> access.archive.metadataLocationFile.Some?
    ensures access.Unreadable? ==> r == Some(OnException(sourceFilename, EML_NOT_FOUND, Some(access.message)))
    ensures access.Readable? && !access.archive.metadataLocationFile.value.present ==>
      r == Some(OnException(sourceFilename, EML_NOT_FOUND, None))
    ensures access.Readable? && access.archive.metadataLocationFile.value.present && emlCheck.SchemaViolation? ==>
      r == Some(OnException(sourceFilename, EML_GBIF_SCHEMA, Some(emlCheck.message)))
    ensures access.Readable? && access.archive.metadataLocationFile.value.present && emlCheck.SchemaReadFault? ==>
      r == Some(OnException(sourceFilename, EML_NOT_FOUND, Some(emlCheck.message)))
    ensures r.None? <==> access.Readable? && access.archive.metadataLocationFile.value.present && emlCheck.SchemaValid?
    ensures r.Some? ==>
      && r.value.OnException? && r.value.fileName == sourceFilename
      && (r.value.evaluationType == EML_GBIF_SCHEMA || r.value.evaluationType == EML_NOT_FOUND)
  {
    match access
    case Unreadable(message) => Some(BuildResult(sourceFilename, EML_NOT_FOUND, Some(message)))
    case Readable(archive) =>
      var datasetMetadataFile := archive.metadataLocationFile.value;
      if datasetMetadataFile.present then
        match emlCheck
        case SchemaValid => None
        case SchemaViolation(message) => Some(BuildResult(sourceFilename, EML_GBIF_SCHEMA, Some(message)))
        case SchemaReadFault(message) => Some(BuildResult(sourceFilename, EML_NOT_FOUND, Some(message)))
      else
        Some(BuildResult(sourceFilename, EML_NOT_FOUND, None))
  }
}
