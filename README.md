# GBIF data validator: resource preparation and structure evaluation, in Dafny

This project models the part of the GBIF data validator that takes an uploaded
resource and gets it ready for evaluation. It covers four pieces:

- **Preparation** (`DataFileFactory`). An upload can be a Darwin Core archive, a
  single tabular file or a spreadsheet.
  - A preview of the upload records where its metadata document is and which
    charsets its files declare.
  - The upload is then normalized into a destination folder. Spreadsheets are
    first converted to CSV, which must use one of three media types, compared
    case-insensitively.
  - Each data file named by the archive descriptor becomes a typed tabular part:
    its columns, record identifier, header flag, charset, delimiter and line
    counts.
  - The parts are grouped by file type into a star schema.
- **The star schema** (`DwcDataFiles`). This is one core part, optional extension
  parts and an optional metadata path. Parts can be looked up by row type; the
  lookup is built once, by the constructor, and never changes.
- **Darwin Core archive structure evaluation** (`DwcaStructure`). There are three
  structural outcomes: unreadable archive, missing `meta.xml`, or `meta.xml`
  invalid against its schema. Otherwise each data file is checked against the
  extension registered for its row type: required terms missing, unknown
  terms, or an unknown row type.
- **EML structure evaluation** (`EmlStructure`). This has four outcomes and
  returns at most one result element.

Everything the Java code asks of libraries, the filesystem or the network is an
input. This covers opening an archive, the file normalizer, the spreadsheet
converters, XML schema validation, the extension registry, `Charset.forName`,
creating a folder, and whether a file exists.
- The preparation methods take these as a `Collaborators` record.
- The evaluators take the answers as parameters.
- Java exceptions become a `Result` with an `Error` datatype. Its
  constructors follow the exceptions the code throws and catches, with a few
  exception classes folded together (see "## Left out"). Where the Java code
  would dereference a null, the member has a precondition instead; for the
  parts of an archive this applies only to the parts preparation actually
  reaches.

The Java code depends on a few library constants, and the model uses these values:
- the media types `application/vnd.openxmlformats-officedocument.spreadsheetml.sheet`,
  `application/vnd.ms-excel` and `application/vnd.oasis.opendocument.spreadsheet`;
- the default id term `http://rs.tdwg.org/dwc/terms/ID`;
- the descriptor file name `meta.xml`;
- every format except `SPREADSHEET` counts as "tabular based".

Java integer and string semantics are written out:
- `numberOfLines - ignoreHeaderLines` is 32-bit arithmetic that wraps around (`Api.Int32Sub`).
- `equalsIgnoreCase` against the lower-case ASCII media types accepts upper-case
  ASCII letters. It also accepts the four non-ASCII letters that Java's case
  mapping sends onto ASCII letters: U+0130 and U+0131 for `i`, U+017F for `s`,
  and U+212A for `k`.
- `StringUtils.isBlank` uses Java's `Character.isWhitespace` set.

Some behaviour is modelled exactly as written:
- The preview records every charset it finds, including those of extensions,
  under the core's location. So at most one charset reaches the normalizer: the
  charset of the last file that declares an encoding.
  `DataFileFactory.CharsetsKeyedByCoreLocation` states this.
- The "more than one core" check in `prepareDataFile` can never fire, because the
  parts list holds at most one core. `DataFileFactory.PreparedPartsGrouping`
  proves this, and `DataFileFactory.PrepareDataFile` keeps the check as a branch
  the verifier shows is dead.

Files: `wrappers.dfy` (Option/Result), `api.dfy` (data model), `results.dfy`
(evaluation types and result elements), `archives.dfy` (what the archive reader
hands over), `dwc_data_file.dfy`, `data_file_factory.dfy`,
`dwca_structure_evaluator.dfy`, `eml_structure_evaluator.dfy`.

## Model

| member | source | states |
|---|---|---|
| Api.Int32Sub | validator-processor/src/main/java/org/gbif/validation/source/DataFileFactory.java:248 | Java `int` subtraction: the exact difference when it fits in 32 bits, and always congruent to it modulo 2^32 |
| DwcDataFiles.RowTypeIndexDomain | validator-processor/src/main/java/org/gbif/validation/api/DwcDataFile.java:35-39 | the lookup has a row type iff the core or some extension has it; a row type maps to a part of that row type |
| DwcDataFiles.RowTypeIndexLastWrite | validator-processor/src/main/java/org/gbif/validation/api/DwcDataFile.java:38-39 | a row type some extension has maps to the last extension in list order that has it |
| DwcDataFiles.RowTypeIndexCore | validator-processor/src/main/java/org/gbif/validation/api/DwcDataFile.java:36-39 | the core's row type maps to the core when no extension has that row type |
| DwcDataFiles.RowTypeIndexSize | validator-processor/src/main/java/org/gbif/validation/api/DwcDataFile.java:35-41 | the lookup has at most 1 + (number of extensions) entries |
| DwcDataFiles.DwcDataFile.constructor | validator-processor/src/main/java/org/gbif/validation/api/DwcDataFile.java:28-42 | keeps the data file, core, extension list (absent iff none was given) and metadata path (absent iff none was given) as given; the core must be present (the first put dereferences it); the lookup built by the puts is the core then each extension in order (`Valid`), and every field is `const`, so it never changes |
| DwcDataFiles.DwcDataFile.GetByRowType | validator-processor/src/main/java/org/gbif/validation/api/DwcDataFile.java:57-59 | returns the last extension with the row type; without one, the core if it has the row type; otherwise nothing |
| DwcDataFiles.DwcDataFile.GetTabularDataFiles | validator-processor/src/main/java/org/gbif/validation/api/DwcDataFile.java:48-50 | one part per distinct registered row type, each the one the lookup returns for it, every registered row type present, at most 1 + (number of extensions) parts, order unspecified |
| DwcDataFiles.ExtensionShadowsCore | validator-processor/src/main/java/org/gbif/validation/api/DwcDataFile.java:36-39 | an extension sharing the core's row type shadows the core in lookups: the core's row type finds the last such extension, and no longer finds the core unless that extension equals it |
| DataFileFactory.Rethrown | validator-processor/src/main/java/org/gbif/validation/source/DataFileFactory.java:200-203 | an archive-reader rejection is rethrown as an unsupported data file with the same message; other errors pass unchanged |
| DataFileFactory.NewTabularDataFileSplit | validator-processor/src/main/java/org/gbif/validation/source/DataFileFactory.java:98-107 | a split has its parent's source name, row type key, columns, record identifier, default values, charset, delimiter and quote; path, offset, line counts and header flag come from the arguments |
| DataFileFactory.SplitOfSplit | validator-processor/src/main/java/org/gbif/validation/source/DataFileFactory.java:98-107 | splitting a split is splitting the original with the second split's arguments |
| DataFileFactory.SplitWithParentValues | validator-processor/src/main/java/org/gbif/validation/source/DataFileFactory.java:98-107 | a split with the parent's own path, offset, counts and header flag equals the parent |
| DataFileFactory.SafeGetCoreLocation | validator-processor/src/main/java/org/gbif/validation/source/DataFileFactory.java:305-310 | the core's declared location, or the archive's own name when there is no core or it declares no location |
| DataFileFactory.DetermineSourceFilename | validator-processor/src/main/java/org/gbif/validation/source/DataFileFactory.java:321-327 | for an archive upload with a resolved core file, that file's name; otherwise the uploaded file's name |
| DataFileFactory.ExtractCharset | validator-processor/src/main/java/org/gbif/validation/source/DataFileFactory.java:382-384 | no charset iff the name is blank; an unsupported-charset error iff the name is not blank and does not resolve; otherwise the resolved charset |
| DataFileFactory.CharsetScanFailurePersists | validator-processor/src/main/java/org/gbif/validation/source/DataFileFactory.java:361-367 | once a charset fails to resolve, scanning further files does not change the failure |
| DataFileFactory.CharsetScanFailure | validator-processor/src/main/java/org/gbif/validation/source/DataFileFactory.java:361-367 | reading the encodings fails iff some file declares one that does not resolve, and it fails with the first such file's name |
| DataFileFactory.CharsetScanFindsLastDeclared | validator-processor/src/main/java/org/gbif/validation/source/DataFileFactory.java:361-367 | a successful read finds no charset iff no file declares one; otherwise it finds the charset of the last declaring file |
| DataFileFactory.CharsetsKeyedByCoreLocation | validator-processor/src/main/java/org/gbif/validation/source/DataFileFactory.java:361-367 | every sniffed charset is keyed by the core's location, and no extension's own (different) location gets a charset; the map is empty iff no file declares an encoding, and otherwise holds the last declared charset |
| DataFileFactory.CollectCharsets | validator-processor/src/main/java/org/gbif/validation/source/DataFileFactory.java:359-367 | the loop over the core and then the extensions leaves the charset map of the specification `CharsetsOf`, or the first resolution error |
| DataFileFactory.ExtractFrom | validator-processor/src/main/java/org/gbif/validation/source/DataFileFactory.java:350-374 | the preview is `PreviewOf`: only formats other than spreadsheets are opened; a reader that cannot detect delimiters gives an empty preview; other reader errors propagate; the metadata path comes from the archive |
| DataFileFactory.CreateDwcBasedTabularDataFile | validator-processor/src/main/java/org/gbif/validation/source/DataFileFactory.java:217-249 | fails iff the backing file is missing (not-found, checked first), a column has no term ("A column has no header"), or the charset does not resolve; on success the part is `PreparedFrom` the archive file: one column per declared column named by its first term, the id copied with the default id term, no line offset, a header iff header lines are skipped (absent counts as 0), data lines = lines - header lines |
| DataFileFactory.PartRequestsTags | validator-processor/src/main/java/org/gbif/validation/source/DataFileFactory.java:188-199 | the parts to build are the core (if any) first, the only one tagged CORE, then the extensions, tagged EXTENSION |
| DataFileFactory.PartRequestsFiles | validator-processor/src/main/java/org/gbif/validation/source/DataFileFactory.java:188-199 | one part per archive file, core first and then the extensions in archive order |
| DataFileFactory.OpeningError | validator-processor/src/main/java/org/gbif/validation/source/DataFileFactory.java:185-203 | an I/O fault while opening propagates; an undetectable delimiter or an unsupported archive is rethrown as an unsupported data file with the reader's message |
| DataFileFactory.ExtensionRequest | validator-processor/src/main/java/org/gbif/validation/source/DataFileFactory.java:194-197 | an extension's part is named by its location file and takes the line count stored under its declared location; the name is missing iff the extension has no location file |
| DataFileFactory.PrepareDwcBased | validator-processor/src/main/java/org/gbif/validation/source/DataFileFactory.java:180-205 | succeeds iff every part builds, and then holds one part per request, in order, each `PreparedFrom` its archive file; otherwise fails with the first failing part's error, rethrown. It requires only that the requests it reaches are defined |
| DataFileFactory.UnreachedRequestsUnconstrained | validator-processor/src/main/java/org/gbif/validation/source/DataFileFactory.java:188-198 | requests after the first failing part are never reached: whatever follows, building stays defined and fails at the same part |
| DataFileFactory.MissingCoreFileStopsPreparation | validator-processor/src/main/java/org/gbif/validation/source/DataFileFactory.java:188-198 | a core whose backing file is missing fails with not-found before any extension is reached, whatever the extensions declare |
| DataFileFactory.SpreadsheetKindOf | validator-processor/src/main/java/org/gbif/validation/source/DataFileFactory.java:277-286 | each converter is selected iff the media type equals its type ignoring case; an absent media type selects none |
| DataFileFactory.SpreadsheetKindIgnoresCase | validator-processor/src/main/java/org/gbif/validation/source/DataFileFactory.java:277-286 | media types equal up to case select the same converter |
| DataFileFactory.HandleSpreadsheetConversion | validator-processor/src/main/java/org/gbif/validation/source/DataFileFactory.java:263-295 | a failure to create the conversion folder comes first; a media type that is none of the three fails as not convertible; a failing converter gives an I/O error with its message; a conversion reporting 0 or fewer lines fails as no content; a conversion with at least one line succeeds with exactly the converter's result, and every success is such a conversion |
| DataFileFactory.NormalizationTarget | validator-processor/src/main/java/org/gbif/validation/source/DataFileFactory.java:153-168 | a spreadsheet is opened at the converted file, and its line counts map the converted file name, and nothing else, to the converter's line count; conversion errors propagate; anything else is opened at the destination folder with the normalizer's line counts, and a normalizer failure is an I/O error |
| DataFileFactory.NormalizeAndPrepare | validator-processor/src/main/java/org/gbif/validation/source/DataFileFactory.java:153-168 | a normalization error or an opening error ends preparation with that error; otherwise the outcome is that of building the parts of the normalized archive |
| DataFileFactory.PartsOfType | validator-processor/src/main/java/org/gbif/validation/source/DataFileFactory.java:131-134 | a bucket holds only parts of its file type, taken from the list, and is empty iff no part has that type |
| DataFileFactory.PartsOfTypeAppend | validator-processor/src/main/java/org/gbif/validation/source/DataFileFactory.java:131-134 | grouping distributes over concatenation, so each bucket keeps list order |
| DataFileFactory.PartsOfTypeCount | validator-processor/src/main/java/org/gbif/validation/source/DataFileFactory.java:131-134 | every part is in exactly one of the CORE and EXTENSION buckets |
| DataFileFactory.PreparedPartsGrouping | validator-processor/src/main/java/org/gbif/validation/source/DataFileFactory.java:131-145 | the prepared parts group into the core part alone (or nothing) and the extension parts in archive order, so there is never more than one core |
| DataFileFactory.PrepareDataFile | validator-processor/src/main/java/org/gbif/validation/source/DataFileFactory.java:121-146 | a destination that is not a folder fails the state check; errors of the preview, normalization and opening propagate in that order; otherwise it succeeds iff every part builds. On success the core is the first part, the extensions are the rest (absent if none), the metadata path comes from the preview and the lookup is valid; on failure the error is the first failing part's error |
| DwcaStructure.RequiredTermsMissingExact | validator-processor/src/main/java/org/gbif/validation/evaluator/DwcaResourceStructureEvaluator.java:91-94 | a missing-term issue is reported for a property iff it is required and the file has no field for it |
| DwcaStructure.RequiredTermsMissingDistinct | validator-processor/src/main/java/org/gbif/validation/evaluator/DwcaResourceStructureEvaluator.java:91-94 | when the property names are distinct, each missing property is reported exactly once |
| DwcaStructure.UnknownTermsExact | validator-processor/src/main/java/org/gbif/validation/evaluator/DwcaResourceStructureEvaluator.java:97-100 | an unknown-term issue is reported for a field term iff the extension does not define it |
| DwcaStructure.UnknownTermsDistinct | validator-processor/src/main/java/org/gbif/validation/evaluator/DwcaResourceStructureEvaluator.java:97-100 | field terms are distinct, so each unknown term is reported exactly once |
| DwcaStructure.EvaluateArchiveFile | validator-processor/src/main/java/org/gbif/validation/evaluator/DwcaResourceStructureEvaluator.java:85-107 | an unregistered row type gives exactly one unknown-row-type issue; a registered one gives the missing required terms followed by the unknown terms; the file contributes nothing iff it has no issue, and otherwise one element attributed to meta.xml |
| DwcaStructure.ArchiveElementsAppend | validator-processor/src/main/java/org/gbif/validation/evaluator/DwcaResourceStructureEvaluator.java:62-67 | evaluating consecutive files gives their elements one after the other |
| DwcaStructure.ArchiveElementsFromFiles | validator-processor/src/main/java/org/gbif/validation/evaluator/DwcaResourceStructureEvaluator.java:62-67 | each file contributes at most one element, and every element is some file's non-empty issue list attributed to meta.xml |
| DwcaStructure.CoreEvaluatedFirst | validator-processor/src/main/java/org/gbif/validation/evaluator/DwcaResourceStructureEvaluator.java:62-67 | the core's element, if any, comes before the extensions' elements, which follow in archive order |
| DwcaStructure.EvaluateFiles | validator-processor/src/main/java/org/gbif/validation/evaluator/DwcaResourceStructureEvaluator.java:62-67 | evaluating the core and then each extension collects exactly the elements `ArchiveElements` specifies for those files, in that order |
| DwcaStructure.Evaluate | validator-processor/src/main/java/org/gbif/validation/evaluator/DwcaResourceStructureEvaluator.java:50-83 | an unreadable archive gives one DWCA_UNREADABLE element with the fault message; a missing meta.xml gives one DWCA_META_XML_NOT_FOUND element with no message; a schema violation gives one DWCA_META_XML_SCHEMA element with the parser message and no term checks; an I/O fault while validating gives DWCA_UNREADABLE; a valid meta.xml gives the file elements, core first; the result is absent iff nothing was collected |
| EmlStructure.BuildResult | validator-core/src/main/java/org/gbif/validation/evaluator/EmlResourceStructureEvaluator.java:72-75 | the element carries the given file name, evaluation type and message |
| EmlStructure.Evaluate | validator-core/src/main/java/org/gbif/validation/evaluator/EmlResourceStructureEvaluator.java:38-59 | no result iff the archive is readable, its metadata file exists and passes the schema. A schema violation gives EML_GBIF_SCHEMA with the parser message. A missing file gives EML_NOT_FOUND with no message. An unreadable archive or an I/O fault gives EML_NOT_FOUND with the fault message. Every result is one element attributed to the given file name |

## Left out

- `DataFileFactory.newDataFile` (both overloads): a plain constructor call; one overload also draws a random UUID key. `Api.DataFile` holds the same fields.
- Logging, the UUIDs used to name the conversion folder and the CSV file, and the paths built from them. The conversion folder appears only as the success or failure of creating it.
- The archive reader, the file normalizer, the spreadsheet converters, the XML schema validators, the extension registry and `Charset.forName` are not reimplemented. Their answers are inputs.
- Java `null`s that lead to a null dereference are not modelled as outcomes; the members require the values instead:
  - a null core handed to `DwcDataFile`;
  - for a part that preparation reaches (all parts before it were built): a missing line count when the part gets built, an unresolved location file, an extension without a location, or an empty field delimiter. Parts after the first failing one may lack any of these (`DataFileFactory.UnreachedRequestsUnconstrained`);
  - a null core in a valid archive for `DwcaStructure.Evaluate`;
  - a null metadata location file for `EmlStructure.Evaluate`.
- Null arguments that the source rejects with `Objects.requireNonNull` cannot occur, because Dafny values are never null.
- Exception messages that may be null in Java are always present strings in the model.
- Some exception classes are folded into one `Error` constructor, so the model does not tell them apart:
  - `Charset.forName`'s `IllegalCharsetNameException` and `UnsupportedCharsetException` both become `UnsupportedCharset`;
  - any exception a spreadsheet converter throws becomes `IOError` with its message.
- `DataFileFactory.NewTabularDataFileSplit` takes non-null line counts; a null `numberOfLines` or `numberOfLinesWithData` in a split is not modelled.
- How splitting chooses chunk offsets is not part of the shown code, so there is no offset arithmetic.
- Hash-map iteration order:
  - The order of `getTabularDataFiles` is left unspecified.
  - The field terms of an archive file are a sequence in an unspecified order. They are distinct, as the keys of a map.
- Paths are compared as text; `Paths.get` normalization is not modelled.
- `FileBashUtilities`, `JobMonitor`, `JobStorage`, `OccurrenceValidationApp` and `ValidationConfiguration` are not part of this model. They are process I/O, actor messaging, an interface without implementation, a command-line entry point and configuration getters.
- The two test files exercise classes that are not part of this model.
- `DwcaStructure.RequiredTermsMissingDistinct` assumes the extension's property names are distinct. The registry's data is an input, and the source does not guarantee this.
