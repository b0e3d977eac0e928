/**
 * Preparation of an uploaded resource: reading the archive descriptor of the
 * (normalized) resource and turning each of its data files into a typed
 * tabular part, then assembling the parts into a star-schema `DwcDataFile`.
 *
 * Everything the preparation asks of the filesystem and of the libraries it
 * calls (opening an archive, rewriting files, converting spreadsheets,
 * resolving charset names, creating a folder) is an input, see `Collaborators`.
 */
module DataFileFactory {
  import opened Wrappers
  import opened Api
  import opened Archives
  import opened DwcDataFiles

  // ---------------------------------------------------------------------------
  // Failures
  // ---------------------------------------------------------------------------

  /** The message of an archive file whose descriptor leaves a column without a term. */
  const NO_HEADER_MESSAGE: string := "A column has no header"

  /** The message of the state check on the destination folder. */
  const NOT_A_FOLDER_MESSAGE: string := "destinationFolder should point to a folder"

  /** Why a resource is refused (the message of an `UnsupportedDataFileException`). */
  datatype Unsupported =
      /** an archive-reader rejection, rethrown with the reader's message */
    | ArchiveRejected(message: string)
      /** "DataFile should have exactly 1 core. Found <found>" */
    | MoreThanOneCore(found: int)
      /** "<mediaType> can not be converted" */
    | NotConvertible(mediaType: Option<string>)
      /** "<mediaType> conversion returned no content (no line)" */
    | NoContent(mediaType: Option<string>)

  /** The exceptions preparation ends with. */
  datatype Error =
    | UnsupportedDataFile(reason: Unsupported)
      /** the archive reader's own rejection, when it is not rethrown */
    | UnsupportedArchive(message: string)
      /** a data file the descriptor names is missing; carries the declared location */
    | FileNotFound(location: Option<string>)
    | IOError(message: string)
      /** `Charset.forName` refused the name */
    | UnsupportedCharset(charsetName: string)
    | IllegalState(message: string)

  /** What `prepareDwcBased` rethrows: a reader rejection becomes an unsupported data file. */
  function Rethrown(e: Error): (r: Error)
    ensures e.UnsupportedArchive? ==> r == UnsupportedDataFile(ArchiveRejected(e.message))
    ensures !e.UnsupportedArchive? ==> r == e
  {
    match e
    case UnsupportedArchive(m) => UnsupportedDataFile(ArchiveRejected(m))
    case _ => e
  }

  // ---------------------------------------------------------------------------
  // Collaborators
  // ---------------------------------------------------------------------------

  /** How the archive reader fails to open a location. */
  datatype OpenFailure =
    | UnknownDelimiters(message: string)
    | ArchiveUnsupported(message: string)
    | OpenIOFault(message: string)

  /** The outcome of opening a location with the archive reader. */
  datatype Opening = Opened(archive: Archive) | OpenFailed(failure: OpenFailure)

  /** The three spreadsheet formats a converter exists for. */
  datatype SpreadsheetKind = OfficeSpreadsheet | Excel | OpenDocumentSpreadsheet

  /** What a spreadsheet converter reports: the CSV file written and its number of lines. */
  datatype ConversionResult = ConversionResult(resultPath: Path, resultFileName: Path, numOfLines: Int32)

  /**
   * The answers of everything preparation calls out to:
   * whether the destination is a folder; the archive reader, by location;
   * the file normalizer, given the sniffed charsets (a failure is its I/O fault message);
   * the creation of the conversion folder (a failure message, or none);
   * the spreadsheet converter of each kind; and `Charset.forName`.
   */
  datatype Collaborators = Collaborators(
    destinationIsDirectory: bool,
    open: Path -> Opening,
    normalize: map<Path, Charset> -> Result<map<Path, Int32>, string>,
    createDirectory: Option<string>,
    convert: SpreadsheetKind -> Result<ConversionResult, string>,
    forName: string -> Option<Charset>)

  // ---------------------------------------------------------------------------
  // Splits
  // ---------------------------------------------------------------------------

  /** `a` and `b` describe the same data: they differ at most in path, offset, line counts and header flag. */
  predicate SameContent(a: TabularDataFile, b: TabularDataFile) {
    && a.sourceFileName == b.sourceFileName
    && a.rowTypeKey == b.rowTypeKey
    && a.columns == b.columns
    && a.recordIdentifier == b.recordIdentifier
    && a.defaultValues == b.defaultValues
    && a.characterEncoding == b.characterEncoding
    && a.delimiterChar == b.delimiterChar
    && a.quoteChar == b.quoteChar
  }

  /**
   * The part standing for a portion of `tabDataFile` after a split: the parent's
   * content with the split's own path, offset, line counts and header flag.
   */
  function NewTabularDataFileSplit(tabDataFile: TabularDataFile, splitFilePath: Path, lineOffset: Option<Int32>,
                                   numberOfLines: Int32, numberOfLinesWithData: Int32, withHeader: bool)
    : (r: TabularDataFile)
    ensures SameContent(r, tabDataFile)
    ensures r.filePath == splitFilePath && r.lineOffset == lineOffset && r.withHeader == withHeader
    ensures r.numberOfLines == numberOfLines && r.numberOfLinesWithData == numberOfLinesWithData
  {
    TabularDataFile(splitFilePath, tabDataFile.sourceFileName, tabDataFile.rowTypeKey, tabDataFile.columns,
                    tabDataFile.recordIdentifier, tabDataFile.defaultValues, lineOffset, withHeader,
                    tabDataFile.characterEncoding, tabDataFile.delimiterChar, tabDataFile.quoteChar,
                    numberOfLines, numberOfLinesWithData)
  }

  /** Splitting a split is splitting the original: nothing of the first split survives but what the parent had. */
  lemma SplitOfSplit(t: TabularDataFile, p1: Path, o1: Option<Int32>, n1: Int32, d1: Int32, h1: bool,
                     p2: Path, o2: Option<Int32>, n2: Int32, d2: Int32, h2: bool)
    ensures NewTabularDataFileSplit(NewTabularDataFileSplit(t, p1, o1, n1, d1, h1), p2, o2, n2, d2, h2)
         == NewTabularDataFileSplit(t, p2, o2, n2, d2, h2)
  {
  }

  /** A split with the parent's own path, offset, counts and header flag is the parent itself. */
  lemma SplitWithParentValues(t: TabularDataFile)
    ensures NewTabularDataFileSplit(t, t.filePath, t.lineOffset, t.numberOfLines, t.numberOfLinesWithData, t.withHeader) == t
  {
  }

  // ---------------------------------------------------------------------------
  // Small helpers
  // ---------------------------------------------------------------------------

  /** Java's `Character.isWhitespace`. */
  predicate IsWhitespace(c: char) {
    || '\U{0009}' <= c <= '\U{000D}'
    || '\U{001C}' <= c <= '\U{0020}'
    || c == '\U{1680}'
    || '\U{2000}' <= c <= '\U{2006}'
    || '\U{2008}' <= c <= '\U{200A}'
    || c == '\U{2028}' || c == '\U{2029}' || c == '\U{205F}' || c == '\U{3000}'
  }

  /** `StringUtils.isBlank` on a non-null string: empty or whitespace only. */
  predicate IsBlank(s: string) {
    forall i :: 0 <= i < |s| ==> IsWhitespace(s[i])
  }

  /** The location charsets and line counts of the core are keyed by: its declared location, else the archive's name. */
  function SafeGetCoreLocation(archive: Archive): (r: string)
    ensures archive.core.Some? && archive.core.value.location.Some? ==> r == archive.core.value.location.value
    ensures archive.core.None? || archive.core.value.location.None? ==> r == archive.locationName
  {
    if archive.core.None? || archive.core.value.location.None? then archive.locationName
    else archive.core.value.location.value
  }

  /** The name reported for the core: its own file name for an archive, the uploaded name otherwise. */
  function DetermineSourceFilename(originalDataFile: DataFile, core: ArchiveFile): (r: string)
    ensures originalDataFile.fileFormat == DWCA && core.locationFile.Some? ==> r == core.locationFile.value.name
    ensures originalDataFile.fileFormat != DWCA || core.locationFile.None? ==> r == originalDataFile.sourceFileName
  {
    if originalDataFile.fileFormat == DWCA && core.locationFile.Some? then core.locationFile.value.name
    else originalDataFile.sourceFileName
  }

  /** Resolves a charset name: a blank name gives no charset, an unknown one throws. */
  function ExtractCharset(charsetName: string, forName: string -> Option<Charset>): (r: Result<Option<Charset>, Error>)
    ensures r == Success(None) <==> IsBlank(charsetName)
    ensures r.Failure? <==> !IsBlank(charsetName) && forName(charsetName).None?
    ensures r.Failure? ==> r.error == UnsupportedCharset(charsetName)
    ensures r.Success? && r.value.Some? ==> Some(r.value.value) == forName(charsetName)
  {
    if IsBlank(charsetName) then Success(None)
    else match forName(charsetName)
      case Some(cs) => Success(Some(cs))
      case None => Failure(UnsupportedCharset(charsetName))
  }

  /** The value of a key in a map, or nothing: `Map.get`. */
  function MapGet<K, V>(m: map<K, V>, k: K): (r: Option<V>)
    ensures r.Some? <==> k in m
    ensures r.Some? ==> r.value == m[k]
  {
    if k in m then Some(m[k]) else None
  }

  /** The data files of an archive in the order preparation visits them: the core, then the extensions. */
  function ArchiveFiles(archive: Archive): (r: seq<ArchiveFile>)
    ensures |r| == |archive.extensions| + (if archive.core.Some? then 1 else 0)
  {
    (if archive.core.Some? then [archive.core.value] else []) + archive.extensions
  }

  // ---------------------------------------------------------------------------
  // Preview: metadata location and sniffed charsets
  // ---------------------------------------------------------------------------

  /** What is learnt about an upload before it is rewritten. */
  datatype Preview = Preview(metadataFilePath: Option<Path>, charsetsByPath: map<Path, Charset>)

  /** A file's declared encoding is not blank. */
  predicate Declared(f: ArchiveFile) {
    !IsBlank(f.encoding)
  }

  /** A file declares an encoding that cannot be resolved. */
  predicate Unresolvable(f: ArchiveFile, forName: string -> Option<Charset>) {
    Declared(f) && forName(f.encoding).None?
  }

  /**
   * Reading the encodings of `files` in order: the charset of the last one that
   * declares an encoding, or the failure of the first that cannot be resolved.
   */
  function CharsetScan(files: seq<ArchiveFile>, forName: string -> Option<Charset>): Result<Option<Charset>, Error>
  {
    if files == [] then Success(None)
    else
      var previous :- CharsetScan(files[..|files| - 1], forName);
      var cs :- ExtractCharset(files[|files| - 1].encoding, forName);
      Success(if cs.Some? then cs else previous)
  }

  /** The charset map a scan leaves: at most one entry, under the core's location. */
  function CharsetMap(coreLocation: Path, found: Option<Charset>): map<Path, Charset> {
    if found.Some? then map[coreLocation := found.value] else map[]
  }

  /** Scanning one more file after a successful scan: its failure, or its charset if it has one. */
  lemma CharsetScanStep(files: seq<ArchiveFile>, i: nat, forName: string -> Option<Charset>)
    requires i < |files| && CharsetScan(files[..i], forName).Success?
    ensures ExtractCharset(files[i].encoding, forName).Failure? ==>
      CharsetScan(files[..i + 1], forName) == Failure(ExtractCharset(files[i].encoding, forName).error)
    ensures ExtractCharset(files[i].encoding, forName).Success? ==>
      var cs := ExtractCharset(files[i].encoding, forName).value;
      CharsetScan(files[..i + 1], forName) == Success(if cs.Some? then cs else CharsetScan(files[..i], forName).value)
  {
    assert files[..i + 1][..i] == files[..i];
  }

  /** A failed scan of a prefix is the failure of every longer scan. */
  lemma {:induction false} CharsetScanFailurePersists(s: seq<ArchiveFile>, t: seq<ArchiveFile>, forName: string -> Option<Charset>)
    requires CharsetScan(s, forName).Failure?
    ensures CharsetScan(s + t, forName) == CharsetScan(s, forName)
  {
    if t != [] {
      assert (s + t)[..|s + t| - 1] == s + t[..|t| - 1];
      CharsetScanFailurePersists(s, t[..|t| - 1], forName);
      assert CharsetScan(s + t[..|t| - 1], forName).Failure?;
    } else {
      assert s + t == s;
    }
  }

  /** A scan that fails on a prefix fails the same way on the whole list. */
  lemma CharsetScanPrefixFailure(files: seq<ArchiveFile>, n: nat, forName: string -> Option<Charset>)
    requires n <= |files| && CharsetScan(files[..n], forName).Failure?
    ensures CharsetScan(files, forName) == CharsetScan(files[..n], forName)
  {
    CharsetScanFailurePersists(files[..n], files[n..], forName);
    assert files[..n] + files[n..] == files;
  }

  /** A scan fails iff some file declares an unresolvable encoding, and then with the first such one. */
  lemma {:induction false} CharsetScanFailure(files: seq<ArchiveFile>, forName: string -> Option<Charset>)
    ensures CharsetScan(files, forName).Failure? <==> exists i :: 0 <= i < |files| && Unresolvable(files[i], forName)
    ensures CharsetScan(files, forName).Failure? ==>
      exists i :: 0 <= i < |files| && Unresolvable(files[i], forName)
        && CharsetScan(files, forName).error == UnsupportedCharset(files[i].encoding)
        && forall j :: 0 <= j < i ==> !Unresolvable(files[j], forName)
  {
    if files != [] {
      var n := |files| - 1;
      var init := files[..n];
      CharsetScanFailure(init, forName);
      if CharsetScan(init, forName).Failure? {
        var i :| 0 <= i < |init| && Unresolvable(init[i], forName)
          && CharsetScan(init, forName).error == UnsupportedCharset(init[i].encoding)
          && forall j :: 0 <= j < i ==> !Unresolvable(init[j], forName);
        assert files[i] == init[i];
        forall j | 0 <= j < i ensures !Unresolvable(files[j], forName) {
          assert files[j] == init[j];
        }
      } else {
        forall j | 0 <= j < n ensures !Unresolvable(files[j], forName) {
          assert files[j] == init[j];
        }
      }
    }
  }

  /**
   * A successful scan finds the charset of the last file declaring an encoding,
   * and finds none iff no file declares one.
   */
  lemma {:induction false} CharsetScanFindsLastDeclared(files: seq<ArchiveFile>, forName: string -> Option<Charset>)
    requires CharsetScan(files, forName).Success?
    ensures CharsetScan(files, forName).value.None? <==> forall i :: 0 <= i < |files| ==> !Declared(files[i])
    ensures CharsetScan(files, forName).value.Some? ==>
      exists i :: 0 <= i < |files| && Declared(files[i])
        && forName(files[i].encoding) == CharsetScan(files, forName).value
        && forall j :: i < j < |files| ==> !Declared(files[j])
  {
    if files != [] {
      var n := |files| - 1;
      var init := files[..n];
      CharsetScanFindsLastDeclared(init, forName);
      if Declared(files[n]) {
        assert forName(files[n].encoding) == CharsetScan(files, forName).value;
      } else {
        if CharsetScan(init, forName).value.Some? {
          var i :| 0 <= i < |init| && Declared(init[i])
            && forName(init[i].encoding) == CharsetScan(init, forName).value
            && forall j :: i < j < |init| ==> !Declared(init[j]);
          assert files[i] == init[i];
          forall j | i < j < |files| ensures !Declared(files[j]) {
            if j < n {
              assert files[j] == init[j];
            }
          }
        } else {
          forall j | 0 <= j < |files| ensures !Declared(files[j]) {
            if j < n {
              assert files[j] == init[j];
            }
          }
        }
      }
    }
  }

  /**
   * The charsets an opened archive declares, each recorded under the core's
   * location, so that at most one is kept: that of the last file declaring one.
   */
  function CharsetsOf(archive: Archive, forName: string -> Option<Charset>): Result<map<Path, Charset>, Error> {
    var found :- CharsetScan(ArchiveFiles(archive), forName);
    Success(CharsetMap(SafeGetCoreLocation(archive), found))
  }

  /**
   * The preview of an upload. Only formats the archive reader handles are
   * opened; a reader that cannot detect the delimiters leaves the preview empty.
   */
  function PreviewOf(dataFile: DataFile, open: Path -> Opening, forName: string -> Option<Charset>): Result<Preview, Error>
  {
    if !dataFile.fileFormat.IsTabularBased() then Success(Preview(None, map[]))
    else
      match open(dataFile.filePath)
      case OpenFailed(UnknownDelimiters(_)) => Success(Preview(None, map[]))
      case OpenFailed(ArchiveUnsupported(m)) => Failure(UnsupportedArchive(m))
      case OpenFailed(OpenIOFault(m)) => Failure(IOError(m))
      case Opened(archive) =>
        var charsetsByPath :- CharsetsOf(archive, forName);
        var metadataFilePath := if archive.metadataLocationFile.Some? then Some(archive.metadataLocationFile.value.path) else None;
        Success(Preview(metadataFilePath, charsetsByPath))
  }

  /**
   * The sniffed charsets of an archive are all keyed by the core's location:
   * an extension's charset is never recorded under the extension's own
   * location (unless it coincides with the core's); a charset is recorded iff
   * some file declares an encoding, and it is that of the last such file.
   */
  lemma CharsetsKeyedByCoreLocation(archive: Archive, forName: string -> Option<Charset>)
    requires CharsetsOf(archive, forName).Success?
    ensures var charsets := CharsetsOf(archive, forName).value;
      var files := ArchiveFiles(archive);
      && charsets.Keys <= {SafeGetCoreLocation(archive)}
      && (forall e :: e in archive.extensions && e.location.Some? && e.location.value != SafeGetCoreLocation(archive) ==>
            e.location.value !in charsets)
      && (charsets == map[] <==> forall i :: 0 <= i < |files| ==> !Declared(files[i]))
      && (charsets != map[] ==>
            exists i :: 0 <= i < |files| && Declared(files[i])
              && forName(files[i].encoding) == Some(charsets[SafeGetCoreLocation(archive)])
              && forall j :: i < j < |files| ==> !Declared(files[j]))
  {
    var found := CharsetScan(ArchiveFiles(archive), forName).value;
    CharsetScanFindsLastDeclared(ArchiveFiles(archive), forName);
    if found.Some? {
      assert SafeGetCoreLocation(archive) in CharsetsOf(archive, forName).value;
    }
  }

  /**
   * Collects the charsets of an opened archive, core first and then the
   * extensions in order, each under the core's location.
   */
  method CollectCharsets(archive: Archive, forName: string -> Option<Charset>) returns (r: Result<map<Path, Charset>, Error>)
    ensures r == CharsetsOf(archive, forName)
  {
    var files := ArchiveFiles(archive);
    var coreLocation := SafeGetCoreLocation(archive);
    var charsetsByPath: map<Path, Charset> := map[];
    ghost var found: Option<Charset> := None;
    var i := 0;
    while i < |files|
      invariant 0 <= i <= |files|
      invariant CharsetScan(files[..i], forName) == Success(found)
      invariant charsetsByPath == CharsetMap(coreLocation, found)
    {
      CharsetScanStep(files, i, forName);
      var cs := ExtractCharset(files[i].encoding, forName);
      if cs.Failure? {
        CharsetScanPrefixFailure(files, i + 1, forName);
        return Failure(cs.error);
      }
      if cs.value.Some? {
        charsetsByPath := charsetsByPath[coreLocation := cs.value.value];
        found := cs.value;
      }
      i := i + 1;
    }
    assert files[..i] == files;
    r := Success(charsetsByPath);
  }

  /**
   * Builds the preview of an upload: opens it when the reader handles its
   * format, records the metadata document's path and collects the charsets.
   */
  method ExtractFrom(dataFile: DataFile, open: Path -> Opening, forName: string -> Option<Charset>)
    returns (r: Result<Preview, Error>)
    ensures r == PreviewOf(dataFile, open, forName)
  {
    var charsetsByPath: map<Path, Charset> := map[];
    var metadataFilePath: Option<Path> := None;
    if dataFile.fileFormat.IsTabularBased() {
      var opening := open(dataFile.filePath);
      if opening.Opened? {
        var archive := opening.archive;
        if archive.metadataLocationFile.Some? {
          metadataFilePath := Some(archive.metadataLocationFile.value.path);
        }
        charsetsByPath :- CollectCharsets(archive, forName);
      } else if opening.failure.ArchiveUnsupported? {
        return Failure(UnsupportedArchive(opening.failure.message));
      } else if opening.failure.OpenIOFault? {
        return Failure(IOError(opening.failure.message));
      }
    }
    r := Success(Preview(metadataFilePath, charsetsByPath));
  }

  // ---------------------------------------------------------------------------
  // One tabular part per archive file
  // ---------------------------------------------------------------------------

  /** The number of header lines to skip: the declared count, 0 when none is declared. */
  function IgnoreHeaderLines(f: ArchiveFile): Int32 {
    f.ignoreHeaderLines.GetOr(0)
  }

  /**
   * The exception building a part from `f` throws, checked in the order the
   * builder runs: the backing file must exist, every column must have a term,
   * and the declared encoding must resolve to a charset.
   */
  function CreateError(f: ArchiveFile, forName: string -> Option<Charset>): (r: Option<Error>)
    requires f.locationFile.Some?
  {
    if !f.locationFile.value.present then Some(FileNotFound(f.location))
    else if [] in f.header then Some(UnsupportedArchive(NO_HEADER_MESSAGE))
    else if forName(f.encoding).None? then Some(UnsupportedCharset(f.encoding))
    else None
  }

  /**
   * Building a part from `f` does not dereference a missing value: the file is
   * resolved, and when the builder gets as far as constructing the part, the
   * delimiter is not empty and the file's line count is known.
   */
  predicate PartDefined(f: ArchiveFile, numberOfLines: Option<Int32>, forName: string -> Option<Charset>) {
    && f.locationFile.Some?
    && (CreateError(f, forName).None? ==> |f.fieldsTerminatedBy| > 0 && numberOfLines.Some?)
  }

  /**
   * `t` is the part built from archive file `f`: one column per declared column,
   * named by its first term; the record identifier copied from the id field with
   * the default id term when it has none; no line offset; a header iff header
   * lines are to be skipped; and as many data lines as lines minus header lines
   * (in 32-bit arithmetic).
   */
  ghost predicate PreparedFrom(t: TabularDataFile, f: ArchiveFile, sourceFileName: string, fileType: DwcFileType,
                               numberOfLines: Int32, forName: string -> Option<Charset>)
    requires f.locationFile.Some? && |f.fieldsTerminatedBy| > 0
  {
    && t.filePath == f.locationFile.value.path
    && t.sourceFileName == sourceFileName
    && t.rowTypeKey == RowTypeKey(f.rowType, fileType)
    && |t.columns| == |f.header|
    && (forall i :: 0 <= i < |f.header| ==> |f.header[i]| > 0 && t.columns[i] == f.header[i][0])
    && (f.id.None? ==> t.recordIdentifier.None?)
    && (f.id.Some? ==> t.recordIdentifier == Some(TermIndex(f.id.value.index, f.id.value.term.GetOr(DEFAULT_ID_TERM))))
    && t.defaultValues == f.defaultValues
    && t.lineOffset.None?
    && t.withHeader == (IgnoreHeaderLines(f) > 0)
    && Some(t.characterEncoding) == forName(f.encoding)
    && t.delimiterChar == f.fieldsTerminatedBy[0]
    && t.quoteChar == f.fieldsEnclosedBy
    && t.numberOfLines == numberOfLines
    && t.numberOfLinesWithData == Int32Sub(numberOfLines, IgnoreHeaderLines(f))
  }

  /**
   * Builds the tabular part of one archive file, collecting the column headers
   * one column at a time.
   */
  method CreateDwcBasedTabularDataFile(archiveFile: ArchiveFile, sourceFileName: string, fileType: DwcFileType,
                                       numberOfLines: Option<Int32>, forName: string -> Option<Charset>)
    returns (r: Result<TabularDataFile, Error>)
    requires PartDefined(archiveFile, numberOfLines, forName)
    ensures r.Failure? <==> CreateError(archiveFile, forName).Some?
    ensures r.Failure? ==> CreateError(archiveFile, forName) == Some(r.error)
    ensures r.Success? ==> PreparedFrom(r.value, archiveFile, sourceFileName, fileType, numberOfLines.value, forName)
  {
    var locationFile := archiveFile.locationFile.value;
    if !locationFile.present {
      return Failure(FileNotFound(archiveFile.location));
    }
    var headers: seq<Term> := [];
    var i := 0;
    while i < |archiveFile.header|
      invariant 0 <= i <= |archiveFile.header|
      invariant |headers| == i
      invariant forall k :: 0 <= k < i ==> |archiveFile.header[k]| > 0 && headers[k] == archiveFile.header[k][0]
    {
      var terms := archiveFile.header[i];
      if terms == [] {
        return Failure(UnsupportedArchive(NO_HEADER_MESSAGE));
      }
      headers := headers + [terms[0]];
      i := i + 1;
    }
    var defaultValues := archiveFile.defaultValues;
    var recordIdentifier :=
      if archiveFile.id.None? then None
      else Some(TermIndex(archiveFile.id.value.index, archiveFile.id.value.term.GetOr(DEFAULT_ID_TERM)));
    var ignoreHeaderLines := if archiveFile.ignoreHeaderLines.Some? then archiveFile.ignoreHeaderLines.value else 0;
    var charset := forName(archiveFile.encoding);
    if charset.None? {
      return Failure(UnsupportedCharset(archiveFile.encoding));
    }
    var lines := numberOfLines.value;
    r := Success(TabularDataFile(locationFile.path, sourceFileName, RowTypeKey(archiveFile.rowType, fileType),
                                 headers, recordIdentifier, defaultValues, None, ignoreHeaderLines > 0,
                                 charset.value, archiveFile.fieldsTerminatedBy[0], archiveFile.fieldsEnclosedBy,
                                 lines, Int32Sub(lines, ignoreHeaderLines)));
  }

  // ---------------------------------------------------------------------------
  // All parts of an archive
  // ---------------------------------------------------------------------------

  /**
   * What one part is built from: the archive file, its reported name, its type,
   * the path its line count is looked up under, and that line count. The name
   * and the path are absent when the archive file does not resolve them (an
   * extension without a location file or a declared location), in which case
   * reaching the request dereferences a missing value.
   */
  datatype PartRequest = PartRequest(file: ArchiveFile, sourceFileName: Option<string>, fileType: DwcFileType,
                                     lineCountKey: Option<Path>, numberOfLines: Option<Int32>)

  /** The part for an extension: named by its file, its line count keyed by its declared location. */
  function ExtensionRequest(e: ArchiveFile, pathAndLines: map<Path, Int32>): (r: PartRequest)
    ensures r.file == e && r.fileType == EXTENSION && r.lineCountKey == e.location
    ensures r.sourceFileName.Some? <==> e.locationFile.Some?
    ensures r.sourceFileName.Some? ==> r.sourceFileName.value == e.locationFile.value.name
    ensures e.location.Some? ==> r.numberOfLines == MapGet(pathAndLines, e.location.value)
  {
    var sourceFileName := if e.locationFile.Some? then Some(e.locationFile.value.name) else None;
    var numberOfLines := if e.location.Some? then MapGet(pathAndLines, e.location.value) else None;
    PartRequest(e, sourceFileName, EXTENSION, e.location, numberOfLines)
  }

  /**
   * The parts to build, in order: the core first when there is one, tagged CORE,
   * then one per extension in archive order, tagged EXTENSION.
   */
  function PartRequests(dataFile: DataFile, archive: Archive, pathAndLines: map<Path, Int32>): seq<PartRequest>
  {
    var core :=
      if archive.core.Some? then
        [PartRequest(archive.core.value, Some(DetermineSourceFilename(dataFile, archive.core.value)), CORE,
                     Some(SafeGetCoreLocation(archive)), MapGet(pathAndLines, SafeGetCoreLocation(archive)))]
      else [];
    core + seq(|archive.extensions|, k requires 0 <= k < |archive.extensions| =>
                 ExtensionRequest(archive.extensions[k], pathAndLines))
  }

  /** One request per file of the archive, in the order preparation visits them. */
  lemma PartRequestsFiles(dataFile: DataFile, archive: Archive, pathAndLines: map<Path, Int32>)
    ensures var reqs := PartRequests(dataFile, archive, pathAndLines);
      && |reqs| == |ArchiveFiles(archive)|
      && forall i :: 0 <= i < |reqs| ==> reqs[i].file == ArchiveFiles(archive)[i]
  {
  }

  /** The core request comes first, and it is the only one tagged CORE. */
  lemma PartRequestsTags(dataFile: DataFile, archive: Archive, pathAndLines: map<Path, Int32>)
    ensures var reqs := PartRequests(dataFile, archive, pathAndLines);
      && |reqs| == |archive.extensions| + (if archive.core.Some? then 1 else 0)
      && forall i :: 0 <= i < |reqs| ==> (reqs[i].fileType == CORE <==> i == 0 && archive.core.Some?)
  {
  }

  /** Reaching the request dereferences nothing missing: its name, its line-count path and its backing file resolve. */
  predicate RequestDefined(q: PartRequest) {
    q.sourceFileName.Some? && q.lineCountKey.Some? && q.file.locationFile.Some?
  }

  /** The part of the request is built. */
  predicate Builds(q: PartRequest, forName: string -> Option<Charset>) {
    RequestDefined(q) && CreateError(q.file, forName).None?
  }

  /** The parts of the first `n` requests are all built. */
  predicate BuildsBefore(reqs: seq<PartRequest>, n: nat, forName: string -> Option<Charset>)
    requires n <= |reqs|
  {
    forall j :: 0 <= j < n ==> Builds(reqs[j], forName)
  }

  /** Every part is built. */
  predicate AllPartsBuild(reqs: seq<PartRequest>, forName: string -> Option<Charset>) {
    BuildsBefore(reqs, |reqs|, forName)
  }

  /** Handling the request, once reached, dereferences no missing value. */
  predicate PartReady(q: PartRequest, forName: string -> Option<Charset>) {
    RequestDefined(q) && PartDefined(q.file, q.numberOfLines, forName)
  }

  /**
   * No request that building the parts in order reaches dereferences a missing
   * value: a request is reached when the parts of all requests before it are built.
   */
  predicate PartsDefined(reqs: seq<PartRequest>, forName: string -> Option<Charset>) {
    forall i :: 0 <= i < |reqs| && BuildsBefore(reqs, i, forName) ==> PartReady(reqs[i], forName)
  }

  /** `t` is the part built from the request. */
  ghost predicate BuiltFrom(t: TabularDataFile, q: PartRequest, forName: string -> Option<Charset>) {
    && PartReady(q, forName)
    && CreateError(q.file, forName).None?
    && PreparedFrom(t, q.file, q.sourceFileName.value, q.fileType, q.numberOfLines.value, forName)
  }

  /** `parts` are the parts built, in order, from the first `n` requests, none of which failed. */
  ghost predicate PartsBuilt(parts: seq<TabularDataFile>, reqs: seq<PartRequest>, n: nat, forName: string -> Option<Charset>)
    requires n <= |reqs|
  {
    && |parts| == n
    && forall k :: 0 <= k < n ==> BuiltFrom(parts[k], reqs[k], forName)
  }

  /** Request `n` is the first whose part cannot be built, and building it fails with `e`. */
  predicate FirstFailureAt(reqs: seq<PartRequest>, n: nat, e: Error, forName: string -> Option<Charset>) {
    && n < |reqs|
    && BuildsBefore(reqs, n, forName)
    && RequestDefined(reqs[n])
    && CreateError(reqs[n].file, forName) == Some(e)
  }

  /**
   * The outcome of building the parts of `reqs` in order: every part when all
   * can be built, otherwise the error of the first that cannot (a reader
   * rejection rethrown as an unsupported data file).
   */
  ghost predicate PreparedOutcome(r: Result<seq<TabularDataFile>, Error>, reqs: seq<PartRequest>,
                                  forName: string -> Option<Charset>)
  {
    && (r.Success? <==> AllPartsBuild(reqs, forName))
    && (r.Success? ==> PartsBuilt(r.value, reqs, |reqs|, forName))
    && (r.Failure? ==> exists i: nat, e :: FirstFailureAt(reqs, i, e, forName) && r.error == Rethrown(e))
  }

  /** Building one more part extends the parts built. */
  lemma PartsBuiltExtend(parts: seq<TabularDataFile>, reqs: seq<PartRequest>, n: nat, t: TabularDataFile,
                         forName: string -> Option<Charset>)
    requires n < |reqs|
    requires PartsBuilt(parts, reqs, n, forName)
    requires BuiltFrom(t, reqs[n], forName)
    ensures PartsBuilt(parts + [t], reqs, n + 1, forName)
  {
  }

  /** Parts built from the first `n` requests mean those requests all build. */
  lemma PartsBuiltBuilds(parts: seq<TabularDataFile>, reqs: seq<PartRequest>, n: nat, forName: string -> Option<Charset>)
    requires n <= |reqs|
    requires PartsBuilt(parts, reqs, n, forName)
    ensures BuildsBefore(reqs, n, forName)
  {
  }

  /**
   * Requests after the first part that fails are never reached: appending any
   * requests to them, even ones that resolve nothing, keeps building defined
   * and keeps the same first failure.
   */
  lemma {:induction false} UnreachedRequestsUnconstrained(reqs: seq<PartRequest>, tail: seq<PartRequest>, n: nat, e: Error,
                                                          forName: string -> Option<Charset>)
    requires FirstFailureAt(reqs, n, e, forName) && n + 1 == |reqs|
    requires PartsDefined(reqs, forName)
    ensures PartsDefined(reqs + tail, forName)
    ensures FirstFailureAt(reqs + tail, n, e, forName)
    ensures !AllPartsBuild(reqs + tail, forName)
  {
    var all := reqs + tail;
    assert !Builds(all[n], forName);
    forall i | 0 <= i < |all| && BuildsBefore(all, i, forName)
      ensures PartReady(all[i], forName)
    {
      if i <= n {
        assert BuildsBefore(reqs, i, forName) by {
          forall j | 0 <= j < i ensures Builds(reqs[j], forName) {
            assert all[j] == reqs[j];
          }
        }
        assert all[i] == reqs[i];
      } else {
        assert false;
      }
    }
    forall j | 0 <= j < n ensures Builds(all[j], forName) {
      assert all[j] == reqs[j];
    }
  }

  /**
   * A core whose backing file is missing ends preparation with a not-found
   * error before any extension is reached, whatever the extensions declare.
   */
  lemma MissingCoreFileStopsPreparation(dataFile: DataFile, archive: Archive, pathAndLines: map<Path, Int32>,
                                        forName: string -> Option<Charset>)
    requires archive.core.Some? && archive.core.value.locationFile.Some?
    requires !archive.core.value.locationFile.value.present
    ensures var reqs := PartRequests(dataFile, archive, pathAndLines);
      && PartsDefined(reqs, forName)
      && FirstFailureAt(reqs, 0, FileNotFound(archive.core.value.location), forName)
  {
    var reqs := PartRequests(dataFile, archive, pathAndLines);
    var head := reqs[..1];
    assert BuildsBefore(head, 0, forName);
    assert FirstFailureAt(head, 0, FileNotFound(archive.core.value.location), forName);
    UnreachedRequestsUnconstrained(head, reqs[1..], 0, FileNotFound(archive.core.value.location), forName);
    assert head + reqs[1..] == reqs;
  }

  /** The error of opening the location to prepare, as `prepareDwcBased` reports it. */
  function OpeningError(f: OpenFailure): (r: Error)
    ensures f.OpenIOFault? ==> r == IOError(f.message)
    ensures !f.OpenIOFault? ==> r == UnsupportedDataFile(ArchiveRejected(f.message))
  {
    match f
    case UnknownDelimiters(m) => UnsupportedDataFile(ArchiveRejected(m))
    case ArchiveUnsupported(m) => UnsupportedDataFile(ArchiveRejected(m))
    case OpenIOFault(m) => IOError(m)
  }

  /** Whether the archive at a location can be handed to `PrepareDwcBased` without a dereference of a missing value. */
  predicate PreparableAt(pathToOpen: Path, dataFile: DataFile, pathAndLines: map<Path, Int32>,
                         open: Path -> Opening, forName: string -> Option<Charset>) {
    open(pathToOpen).Opened? ==>
      PartsDefined(PartRequests(dataFile, open(pathToOpen).archive, pathAndLines), forName)
  }

  /**
   * Builds the list of parts of the archive at `pathToOpen`: the core first,
   * then the extensions in order; the first part that cannot be built ends
   * the preparation with its error (a reader rejection rethrown as an
   * unsupported data file).
   */
  method PrepareDwcBased(pathToOpen: Path, originalDataFile: DataFile, pathAndLines: map<Path, Int32>,
                         open: Path -> Opening, forName: string -> Option<Charset>)
    returns (r: Result<seq<TabularDataFile>, Error>)
    requires PreparableAt(pathToOpen, originalDataFile, pathAndLines, open, forName)
    ensures open(pathToOpen).OpenFailed? ==> r == Failure(OpeningError(open(pathToOpen).failure))
    ensures open(pathToOpen).Opened? ==>
      var reqs := PartRequests(originalDataFile, open(pathToOpen).archive, pathAndLines);
      PreparedOutcome(r, reqs, forName)
  {
    var opening := open(pathToOpen);
    if opening.OpenFailed? {
      return Failure(OpeningError(opening.failure));
    }
    var archive := opening.archive;
    ghost var reqs := PartRequests(originalDataFile, archive, pathAndLines);
    var dataFileList: seq<TabularDataFile> := [];
    var start := 0;
    if archive.core.Some? {
      var core := archive.core.value;
      assert reqs[0] == PartRequest(core, Some(DetermineSourceFilename(originalDataFile, core)), CORE,
                                    Some(SafeGetCoreLocation(archive)), MapGet(pathAndLines, SafeGetCoreLocation(archive)));
      assert BuildsBefore(reqs, 0, forName);
      var part := CreateDwcBasedTabularDataFile(core, DetermineSourceFilename(originalDataFile, core), CORE,
                                                MapGet(pathAndLines, SafeGetCoreLocation(archive)), forName);
      if part.Failure? {
        assert FirstFailureAt(reqs, 0, part.error, forName);
        return Failure(Rethrown(part.error));
      }
      PartsBuiltExtend(dataFileList, reqs, 0, part.value, forName);
      dataFileList := dataFileList + [part.value];
      start := 1;
    }
    var i := 0;
    while i < |archive.extensions|
      invariant 0 <= i <= |archive.extensions|
      invariant start + i <= |reqs|
      invariant PartsBuilt(dataFileList, reqs, start + i, forName)
    {
      var ext := archive.extensions[i];
      assert reqs[start + i] == ExtensionRequest(ext, pathAndLines);
      PartsBuiltBuilds(dataFileList, reqs, start + i, forName);
      var part := CreateDwcBasedTabularDataFile(ext, ext.locationFile.value.name, EXTENSION,
                                                MapGet(pathAndLines, ext.location.value), forName);
      if part.Failure? {
        assert FirstFailureAt(reqs, start + i, part.error, forName);
        return Failure(Rethrown(part.error));
      }
      PartsBuiltExtend(dataFileList, reqs, start + i, part.value, forName);
      dataFileList := dataFileList + [part.value];
      i := i + 1;
    }
    PartsBuiltBuilds(dataFileList, reqs, |reqs|, forName);
    r := Success(dataFileList);
  }

  // ---------------------------------------------------------------------------
  // Spreadsheets
  // ---------------------------------------------------------------------------

  /** Media type of Office Open XML spreadsheets. */
  const APPLICATION_OFFICE_SPREADSHEET: string := "application/vnd.openxmlformats-officedocument.spreadsheetml.sheet"
  /** Media type of legacy Excel workbooks. */
  const APPLICATION_EXCEL: string := "application/vnd.ms-excel"
  /** Media type of OpenDocument spreadsheets. */
  const APPLICATION_OPEN_DOC_SPREADSHEET: string := "application/vnd.oasis.opendocument.spreadsheet"

  /**
   * The lower-case ASCII letter Java's `equalsIgnoreCase` matches `c` with, if any:
   * upper-case ASCII letters, and the four non-ASCII letters whose case mapping
   * lands on an ASCII letter (dotted capital I, dotless i, long s, Kelvin sign).
   */
  function FoldCase(c: char): char {
    if 'A' <= c <= 'Z' then (c as int + 32) as char
    else if c == '\U{0130}' || c == '\U{0131}' then 'i'
    else if c == '\U{017F}' then 's'
    else if c == '\U{212A}' then 'k'
    else c
  }

  /** `constant.equalsIgnoreCase(s)` for a constant written in lower-case ASCII. */
  predicate EqualsIgnoreCase(constant: string, s: Option<string>) {
    s.Some? && |s.value| == |constant| && forall i :: 0 <= i < |constant| ==> FoldCase(s.value[i]) == constant[i]
  }

  /** The converter a media type selects, testing the three spreadsheet types in order. */
  function SpreadsheetKindOf(mediaType: Option<string>): (r: Option<SpreadsheetKind>)
    ensures r == Some(OfficeSpreadsheet) <==> EqualsIgnoreCase(APPLICATION_OFFICE_SPREADSHEET, mediaType)
    ensures r == Some(Excel) <==> EqualsIgnoreCase(APPLICATION_EXCEL, mediaType)
    ensures r == Some(OpenDocumentSpreadsheet) <==> EqualsIgnoreCase(APPLICATION_OPEN_DOC_SPREADSHEET, mediaType)
  {
    if EqualsIgnoreCase(APPLICATION_OFFICE_SPREADSHEET, mediaType) then Some(OfficeSpreadsheet)
    else if EqualsIgnoreCase(APPLICATION_EXCEL, mediaType) then Some(Excel)
    else if EqualsIgnoreCase(APPLICATION_OPEN_DOC_SPREADSHEET, mediaType) then Some(OpenDocumentSpreadsheet)
    else None
  }

  /** Media types that agree letter for letter up to case select the same converter. */
  lemma SpreadsheetKindIgnoresCase(m1: string, m2: string)
    requires |m1| == |m2| && forall i :: 0 <= i < |m1| ==> FoldCase(m1[i]) == FoldCase(m2[i])
    ensures SpreadsheetKindOf(Some(m1)) == SpreadsheetKindOf(Some(m2))
  {
  }

  /**
   * Converts a spreadsheet upload to CSV: creates the conversion folder, picks
   * the converter by media type (ignoring case), and refuses a conversion that
   * wrote no line.
   */
  function HandleSpreadsheetConversion(spreadsheetDataFile: DataFile, createDirectory: Option<string>,
                                       convert: SpreadsheetKind -> Result<ConversionResult, string>)
    : (r: Result<ConversionResult, Error>)
    requires spreadsheetDataFile.fileFormat == SPREADSHEET
    ensures createDirectory.Some? ==> r == Failure(IOError(createDirectory.value))
    ensures createDirectory.None? && SpreadsheetKindOf(spreadsheetDataFile.mediaType).None? ==>
      r == Failure(UnsupportedDataFile(NotConvertible(spreadsheetDataFile.mediaType)))
    ensures r.Success? ==>
      && SpreadsheetKindOf(spreadsheetDataFile.mediaType).Some?
      && convert(SpreadsheetKindOf(spreadsheetDataFile.mediaType).value) == Success(r.value)
      && r.value.numOfLines > 0
    ensures (&& createDirectory.None? && SpreadsheetKindOf(spreadsheetDataFile.mediaType).Some?
             && convert(SpreadsheetKindOf(spreadsheetDataFile.mediaType).value).Success?
             && convert(SpreadsheetKindOf(spreadsheetDataFile.mediaType).value).value.numOfLines <= 0) ==>
      r == Failure(UnsupportedDataFile(NoContent(spreadsheetDataFile.mediaType)))
    ensures (&& createDirectory.None? && SpreadsheetKindOf(spreadsheetDataFile.mediaType).Some?
             && convert(SpreadsheetKindOf(spreadsheetDataFile.mediaType).value).Success?
             && convert(SpreadsheetKindOf(spreadsheetDataFile.mediaType).value).value.numOfLines > 0) ==>
      r == Success(convert(SpreadsheetKindOf(spreadsheetDataFile.mediaType).value).value)
    ensures (&& createDirectory.None? && SpreadsheetKindOf(spreadsheetDataFile.mediaType).Some?
             && convert(SpreadsheetKindOf(spreadsheetDataFile.mediaType).value).Failure?) ==>
      r == Failure(IOError(convert(SpreadsheetKindOf(spreadsheetDataFile.mediaType).value).error))
  {
    if createDirectory.Some? then Failure(IOError(createDirectory.value))
    else
      var mediaType := spreadsheetDataFile.mediaType;
      match SpreadsheetKindOf(mediaType)
      case None => Failure(UnsupportedDataFile(NotConvertible(mediaType)))
      case Some(kind) =>
        match convert(kind)
        case Failure(m) => Failure(IOError(m))
        case Success(conversionResult) =>
          if conversionResult.numOfLines <= 0 then Failure(UnsupportedDataFile(NoContent(mediaType)))
          else Success(conversionResult)
  }

  // ---------------------------------------------------------------------------
  // Normalization and assembly
  // ---------------------------------------------------------------------------

  /** What the archive reader is pointed at after normalization, with the line count of every file. */
  datatype Target = Target(pathToOpen: Path, pathAndLines: map<Path, Int32>)

  /**
   * Spreadsheets are converted to a single CSV file, whose name is the only
   * key of the line counts; everything else is rewritten into the destination
   * folder by the normalizer, given the sniffed charsets.
   */
  function NormalizationTarget(dataFile: DataFile, destinationFolder: Path, c: Collaborators,
                               charsetsByPath: map<Path, Charset>): (r: Result<Target, Error>)
    ensures dataFile.fileFormat == SPREADSHEET && r.Success? ==>
      && HandleSpreadsheetConversion(dataFile, c.createDirectory, c.convert).Success?
      && r.value.pathToOpen == HandleSpreadsheetConversion(dataFile, c.createDirectory, c.convert).value.resultPath
      && var conversionResult := HandleSpreadsheetConversion(dataFile, c.createDirectory, c.convert).value;
         r.value.pathAndLines == map[conversionResult.resultFileName := conversionResult.numOfLines]
    ensures dataFile.fileFormat == SPREADSHEET ==>
      && (r.Failure? <==> HandleSpreadsheetConversion(dataFile, c.createDirectory, c.convert).Failure?)
      && (r.Failure? ==> r.error == HandleSpreadsheetConversion(dataFile, c.createDirectory, c.convert).error)
    ensures dataFile.fileFormat != SPREADSHEET ==>
      (r.Success? <==> c.normalize(charsetsByPath).Success?)
      && (r.Success? ==> r.value == Target(destinationFolder, c.normalize(charsetsByPath).value))
      && (r.Failure? ==> r.error == IOError(c.normalize(charsetsByPath).error))
  {
    if dataFile.fileFormat == SPREADSHEET then
      var conversionResult :- HandleSpreadsheetConversion(dataFile, c.createDirectory, c.convert);
      Success(Target(conversionResult.resultPath, map[conversionResult.resultFileName := conversionResult.numOfLines]))
    else
      match c.normalize(charsetsByPath)
      case Failure(m) => Failure(IOError(m))
      case Success(normalizedFiles) => Success(Target(destinationFolder, normalizedFiles))
  }

  /** Normalizes the upload and builds its parts from the normalized files. */
  method NormalizeAndPrepare(dataFile: DataFile, destinationFolder: Path, preview: Preview, c: Collaborators)
    returns (r: Result<seq<TabularDataFile>, Error>)
    requires NormalizationTarget(dataFile, destinationFolder, c, preview.charsetsByPath).Success? ==>
      var t := NormalizationTarget(dataFile, destinationFolder, c, preview.charsetsByPath).value;
      PreparableAt(t.pathToOpen, dataFile, t.pathAndLines, c.open, c.forName)
    ensures NormalizationTarget(dataFile, destinationFolder, c, preview.charsetsByPath).Failure? ==>
      r == Failure(NormalizationTarget(dataFile, destinationFolder, c, preview.charsetsByPath).error)
    ensures NormalizationTarget(dataFile, destinationFolder, c, preview.charsetsByPath).Success? ==>
      var t := NormalizationTarget(dataFile, destinationFolder, c, preview.charsetsByPath).value;
      && (c.open(t.pathToOpen).OpenFailed? ==> r == Failure(OpeningError(c.open(t.pathToOpen).failure)))
      && (c.open(t.pathToOpen).Opened? ==>
            PreparedOutcome(r, PartRequests(dataFile, c.open(t.pathToOpen).archive, t.pathAndLines), c.forName))
  {
    var target :- NormalizationTarget(dataFile, destinationFolder, c, preview.charsetsByPath);
    r := PrepareDwcBased(target.pathToOpen, dataFile, target.pathAndLines, c.open, c.forName);
  }

  // ---------------------------------------------------------------------------
  // Grouping by file type and assembly
  // ---------------------------------------------------------------------------

  /** The parts of one file type, in list order: one bucket of the grouping by file type. */
  function PartsOfType(parts: seq<TabularDataFile>, fileType: DwcFileType): (r: seq<TabularDataFile>)
    ensures forall t :: t in r ==> t in parts && t.rowTypeKey.dwcFileType == fileType
    ensures r == [] <==> forall i :: 0 <= i < |parts| ==> parts[i].rowTypeKey.dwcFileType != fileType
  {
    if parts == [] then []
    else
      var last := parts[|parts| - 1];
      var init := PartsOfType(parts[..|parts| - 1], fileType);
      if last.rowTypeKey.dwcFileType == fileType then init + [last] else init
  }

  /** Grouping distributes over concatenation, so each bucket keeps the list order. */
  lemma {:induction false} PartsOfTypeAppend(a: seq<TabularDataFile>, b: seq<TabularDataFile>, fileType: DwcFileType)
    ensures PartsOfType(a + b, fileType) == PartsOfType(a, fileType) + PartsOfType(b, fileType)
  {
    if b == [] {
      assert a + b == a;
    } else {
      var n := |b| - 1;
      assert (a + b)[..|a + b| - 1] == a + b[..n];
      PartsOfTypeAppend(a, b[..n], fileType);
    }
  }

  /** Every part lands in exactly one of the two buckets. */
  lemma {:induction false} PartsOfTypeCount(parts: seq<TabularDataFile>)
    ensures |PartsOfType(parts, CORE)| + |PartsOfType(parts, EXTENSION)| == |parts|
  {
    if parts != [] {
      PartsOfTypeCount(parts[..|parts| - 1]);
    }
  }

  /** A list whose parts all have the given type is its own bucket. */
  lemma {:induction false} PartsOfTypeAll(parts: seq<TabularDataFile>, fileType: DwcFileType)
    requires forall i :: 0 <= i < |parts| ==> parts[i].rowTypeKey.dwcFileType == fileType
    ensures PartsOfType(parts, fileType) == parts
  {
    if parts != [] {
      var n := |parts| - 1;
      PartsOfTypeAll(parts[..n], fileType);
      assert parts[..n] + [parts[n]] == parts;
    }
  }

  /** Each part built carries the file type of its request. */
  lemma PartsBuiltTypes(parts: seq<TabularDataFile>, reqs: seq<PartRequest>, forName: string -> Option<Charset>)
    requires PartsBuilt(parts, reqs, |reqs|, forName)
    ensures |parts| == |reqs|
    ensures forall i :: 0 <= i < |parts| ==> parts[i].rowTypeKey.dwcFileType == reqs[i].fileType
  {
  }

  /** Parts tagged like requests whose first `start` are the core ones group into those and the rest. */
  lemma GroupingByTags(parts: seq<TabularDataFile>, reqs: seq<PartRequest>, start: nat)
    requires |parts| == |reqs| && start <= |reqs|
    requires forall i :: 0 <= i < |parts| ==> parts[i].rowTypeKey.dwcFileType == reqs[i].fileType
    requires forall i :: 0 <= i < |reqs| ==> (reqs[i].fileType == CORE <==> i < start)
    ensures PartsOfType(parts, CORE) == parts[..start]
    ensures PartsOfType(parts, EXTENSION) == parts[start..]
  {
  }

  /**
   * The parts built from the requests of an archive group into the core part
   * alone (or nothing without a core) and the extension parts in archive
   * order: preparation never finds more than one core.
   */
  lemma PreparedPartsGrouping(dataFile: DataFile, archive: Archive, pathAndLines: map<Path, Int32>,
                              parts: seq<TabularDataFile>, forName: string -> Option<Charset>)
    requires PartsBuilt(parts, PartRequests(dataFile, archive, pathAndLines), |PartRequests(dataFile, archive, pathAndLines)|, forName)
    ensures var start := if archive.core.Some? then 1 else 0;
      && |parts| == start + |archive.extensions|
      && PartsOfType(parts, CORE) == parts[..start]
      && PartsOfType(parts, EXTENSION) == parts[start..]
      && |PartsOfType(parts, CORE)| <= 1
  {
    var reqs := PartRequests(dataFile, archive, pathAndLines);
    PartRequestsTags(dataFile, archive, pathAndLines);
    PartsBuiltTypes(parts, reqs, forName);
    GroupingByTags(parts, reqs, if archive.core.Some? then 1 else 0);
  }

  /** Everything preparation learns before it builds parts: the preview, the normalized target and the archive there. */
  datatype Plan = Plan(preview: Preview, target: Target, archive: Archive)

  /**
   * The steps of preparation before the parts are built, each ending it with
   * its error: the destination must be a folder, then the preview, the
   * normalization and the opening of the normalized resource.
   */
  function PlanOf(dataFile: DataFile, destinationFolder: Path, c: Collaborators): Result<Plan, Error>
  {
    if !c.destinationIsDirectory then Failure(IllegalState(NOT_A_FOLDER_MESSAGE))
    else
      var preview :- PreviewOf(dataFile, c.open, c.forName);
      var target :- NormalizationTarget(dataFile, destinationFolder, c, preview.charsetsByPath);
      match c.open(target.pathToOpen)
      case OpenFailed(f) => Failure(OpeningError(f))
      case Opened(archive) => Success(Plan(preview, target, archive))
  }

  /**
   * Preparation runs without dereferencing a missing value: every part request
   * reached has what it needs, and there is a core whenever every part builds.
   */
  predicate PreparationDefined(dataFile: DataFile, destinationFolder: Path, c: Collaborators) {
    PlanOf(dataFile, destinationFolder, c).Success? ==>
      var p := PlanOf(dataFile, destinationFolder, c).value;
      && PartsDefined(PartRequests(dataFile, p.archive, p.target.pathAndLines), c.forName)
      && (AllPartsBuild(PartRequests(dataFile, p.archive, p.target.pathAndLines), c.forName) ==> p.archive.core.Some?)
  }

  /**
   * Prepares an upload for evaluation: previews it, normalizes it into the
   * destination folder, builds its parts and assembles them into a
   * `DwcDataFile` with the core, the extensions (absent when there are none)
   * and the metadata document's path from the preview.
   */
  method PrepareDataFile(dataFile: DataFile, destinationFolder: Path, c: Collaborators) returns (r: Result<DwcDataFile, Error>)
    requires PreparationDefined(dataFile, destinationFolder, c)
    ensures PlanOf(dataFile, destinationFolder, c).Failure? ==>
      r.Failure? && r.error == PlanOf(dataFile, destinationFolder, c).error
    ensures PlanOf(dataFile, destinationFolder, c).Success? ==>
      var p := PlanOf(dataFile, destinationFolder, c).value;
      var reqs := PartRequests(dataFile, p.archive, p.target.pathAndLines);
      && (r.Success? <==> AllPartsBuild(reqs, c.forName))
      && (r.Failure? ==> exists i: nat, e :: FirstFailureAt(reqs, i, e, c.forName) && r.error == Rethrown(e))
      && (r.Success? ==>
            exists parts ::
              && PartsBuilt(parts, reqs, |reqs|, c.forName)
              && r.value.core == parts[0]
              && r.value.extensions == (if |parts| == 1 then None else Some(parts[1..]))
              && r.value.dataFile == dataFile
              && r.value.metadataFilePath == p.preview.metadataFilePath
              && r.value.Valid())
    ensures r.Success? ==> fresh(r.value)
  {
    if !c.destinationIsDirectory {
      return Failure(IllegalState(NOT_A_FOLDER_MESSAGE));
    }
    var dataFilePreview :- ExtractFrom(dataFile, c.open, c.forName);
    var dataFileList :- NormalizeAndPrepare(dataFile, destinationFolder, dataFilePreview, c);
    ghost var p := PlanOf(dataFile, destinationFolder, c).value;
    PreparedPartsGrouping(dataFile, p.archive, p.target.pathAndLines, dataFileList, c.forName);
    var coreTabularDataFile := PartsOfType(dataFileList, CORE);
    if |coreTabularDataFile| > 1 {
      // unreachable: the parts built hold at most one core
      assert false;
      return Failure(UnsupportedDataFile(MoreThanOneCore(|coreTabularDataFile|)));
    }
    var extensionTabularDataFiles := PartsOfType(dataFileList, EXTENSION);
    var extensions := if extensionTabularDataFiles == [] then None else Some(extensionTabularDataFiles);
    var d := new DwcDataFile(dataFile, coreTabularDataFile[0], extensions, dataFilePreview.metadataFilePath);
    r := Success(d);
  }
}
