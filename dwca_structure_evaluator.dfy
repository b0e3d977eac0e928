/**
 * Structural evaluation of a Darwin Core archive: is it readable, is its
 * descriptor (meta.xml) there and valid against the schema, and do its data
 * files use the terms their registered extension defines.
 *
 * The archive reader, the XML schema validator and the extension registry are
 * inputs: their answers are parameters.
 */
module DwcaStructure {
  import opened Wrappers
  import opened Api
  import opened Archives
  import opened Results

  /** A property an extension defines, and whether a file of that row type must have it. */
  datatype ExtensionProperty = ExtensionProperty(qualname: Term, required: bool)

  /** A registered extension: its row type and the properties it defines, in order. */
  datatype Extension = Extension(rowType: Term, properties: seq<ExtensionProperty>)
  {
    /** Whether the extension defines a property for term `t`. */
    predicate HasProperty(t: Term) {
      exists i :: 0 <= i < |properties| && properties[i].qualname == t
    }
  }

  /** No element occurs twice. */
  predicate Distinct<T(==)>(s: seq<T>) {
    forall i, j :: 0 <= i < j < |s| ==> s[i] != s[j]
  }

  /** The qualified names of a list of properties, in order. */
  function Qualnames(props: seq<ExtensionProperty>): (r: seq<Term>)
    ensures |r| == |props| && forall i :: 0 <= i < |props| ==> r[i] == props[i].qualname
  {
    seq(|props|, i requires 0 <= i < |props| => props[i].qualname)
  }

  // ---------------------------------------------------------------------------
  // Issues of one archive file
  // ---------------------------------------------------------------------------

  /** The issue of a required property the file has no field for. */
  function MissingIssue(ext: Extension, p: ExtensionProperty): ValidationIssue {
    ValidationIssue(REQUIRED_TERM_MISSING, TermWithinRowType(ext.rowType, Some(p.qualname)))
  }

  /** The issue of a field term the extension does not define. */
  function UnknownTermIssue(ext: Extension, t: Term): ValidationIssue {
    ValidationIssue(UNKNOWN_TERM, TermWithinRowType(ext.rowType, Some(t)))
  }

  /** The issue of a file whose row type is not registered. */
  function UnknownRowTypeIssue(rowType: Term): ValidationIssue {
    ValidationIssue(UNKNOWN_ROWTYPE, TermWithinRowType(rowType, None))
  }

  /** Whether property `p` is required and the file declares no field for it. */
  predicate IsMissing(f: ArchiveFile, p: ExtensionProperty) {
    p.required && !f.HasTerm(p.qualname)
  }

  /** One missing-term issue per property of `props` that is required and absent from `f`, in property order. */
  function RequiredTermsMissing(ext: Extension, f: ArchiveFile, props: seq<ExtensionProperty>): seq<ValidationIssue>
  {
    if props == [] then []
    else
      var p := props[|props| - 1];
      RequiredTermsMissing(ext, f, props[..|props| - 1]) + (if IsMissing(f, p) then [MissingIssue(ext, p)] else [])
  }

  /** One unknown-term issue per term of `terms` the extension does not define, in term order. */
  function UnknownTerms(ext: Extension, terms: seq<Term>): seq<ValidationIssue>
  {
    if terms == [] then []
    else
      var t := terms[|terms| - 1];
      UnknownTerms(ext, terms[..|terms| - 1]) + (if !ext.HasProperty(t) then [UnknownTermIssue(ext, t)] else [])
  }

  /**
   * The issues are exactly those of the required properties the file lacks:
   * every issue is a missing-term issue of such a property, and each such
   * property has its issue.
   */
  lemma {:induction false} RequiredTermsMissingExact(ext: Extension, f: ArchiveFile, props: seq<ExtensionProperty>)
    ensures forall issue :: issue in RequiredTermsMissing(ext, f, props) <==>
      exists i :: 0 <= i < |props| && IsMissing(f, props[i]) && issue == MissingIssue(ext, props[i])
  {
    if props != [] {
      var n := |props| - 1;
      RequiredTermsMissingExact(ext, f, props[..n]);
      forall issue | issue in RequiredTermsMissing(ext, f, props)
        ensures exists i :: 0 <= i < |props| && IsMissing(f, props[i]) && issue == MissingIssue(ext, props[i])
      {
        if issue in RequiredTermsMissing(ext, f, props[..n]) {
          var i :| 0 <= i < n && IsMissing(f, props[..n][i]) && issue == MissingIssue(ext, props[..n][i]);
          assert props[i] == props[..n][i];
        }
      }
      forall i | 0 <= i < |props| && IsMissing(f, props[i])
        ensures MissingIssue(ext, props[i]) in RequiredTermsMissing(ext, f, props)
      {
        if i < n {
          assert props[..n][i] == props[i];
        }
      }
    }
  }

  /** With distinct property names, no property is reported missing twice. */
  lemma {:induction false} RequiredTermsMissingDistinct(ext: Extension, f: ArchiveFile, props: seq<ExtensionProperty>)
    requires Distinct(Qualnames(props))
    ensures Distinct(RequiredTermsMissing(ext, f, props))
  {
    if props != [] {
      var n := |props| - 1;
      var init := props[..n];
      assert Qualnames(init) == Qualnames(props)[..n];
      RequiredTermsMissingDistinct(ext, f, init);
      RequiredTermsMissingExact(ext, f, init);
      var issues := RequiredTermsMissing(ext, f, init);
      if IsMissing(f, props[n]) {
        forall i | 0 <= i < n && IsMissing(f, init[i]) ensures MissingIssue(ext, init[i]) != MissingIssue(ext, props[n]) {
          assert Qualnames(props)[i] != Qualnames(props)[n];
        }
        assert MissingIssue(ext, props[n]) !in issues;
        assert forall i :: 0 <= i < |issues| ==> (issues + [MissingIssue(ext, props[n])])[i] == issues[i];
      }
    }
  }

  /**
   * The issues are exactly those of the field terms the extension does not
   * define: every issue is an unknown-term issue of such a term, and each such
   * term has its issue.
   */
  lemma {:induction false} UnknownTermsExact(ext: Extension, terms: seq<Term>)
    ensures forall issue :: issue in UnknownTerms(ext, terms) <==>
      exists i :: 0 <= i < |terms| && !ext.HasProperty(terms[i]) && issue == UnknownTermIssue(ext, terms[i])
  {
    if terms != [] {
      var n := |terms| - 1;
      UnknownTermsExact(ext, terms[..n]);
      forall issue | issue in UnknownTerms(ext, terms)
        ensures exists i :: 0 <= i < |terms| && !ext.HasProperty(terms[i]) && issue == UnknownTermIssue(ext, terms[i])
      {
        if issue in UnknownTerms(ext, terms[..n]) {
          var i :| 0 <= i < n && !ext.HasProperty(terms[..n][i]) && issue == UnknownTermIssue(ext, terms[..n][i]);
          assert terms[i] == terms[..n][i];
        }
      }
      forall i | 0 <= i < |terms| && !ext.HasProperty(terms[i])
        ensures UnknownTermIssue(ext, terms[i]) in UnknownTerms(ext, terms)
      {
        if i < n {
          assert terms[..n][i] == terms[i];
        }
      }
    }
  }

  /** Field terms are distinct, so no term is reported unknown twice. */
  lemma {:induction false} UnknownTermsDistinct(ext: Extension, terms: seq<Term>)
    requires Distinct(terms)
    ensures Distinct(UnknownTerms(ext, terms))
  {
    if terms != [] {
      var n := |terms| - 1;
      var init := terms[..n];
      UnknownTermsDistinct(ext, init);
      UnknownTermsExact(ext, init);
      var issues := UnknownTerms(ext, init);
      if !ext.HasProperty(terms[n]) {
        forall i | 0 <= i < n && !ext.HasProperty(init[i]) ensures UnknownTermIssue(ext, init[i]) != UnknownTermIssue(ext, terms[n]) {
          assert terms[i] != terms[n];
        }
        assert UnknownTermIssue(ext, terms[n]) !in issues;
        assert forall i :: 0 <= i < |issues| ==> (issues + [UnknownTermIssue(ext, terms[n])])[i] == issues[i];
      }
    }
  }

  /**
   * The issues of one archive file: for a registered row type, the missing
   * required terms followed by the unknown terms; otherwise the single
   * unknown-row-type issue.
   */
  function FileIssues(f: ArchiveFile, extensionOf: Term -> Option<Extension>): seq<ValidationIssue> {
    match extensionOf(f.rowType)
    case None => [UnknownRowTypeIssue(f.rowType)]
    case Some(ext) => RequiredTermsMissing(ext, f, ext.properties) + UnknownTerms(ext, f.fieldTerms)
  }

  /** The element of one archive file: its issues attributed to meta.xml, nothing when it has none. */
  function FileElement(f: ArchiveFile, extensionOf: Term -> Option<Extension>): Option<ValidationResultElement> {
    var issues := FileIssues(f, extensionOf);
    if issues == [] then None else Some(ForMetaDescriptor(META_FN, issues))
  }

  /**
   * Evaluates one archive file against the extension registered for its row
   * type, collecting issues one property and then one field at a time.
   */
  method EvaluateArchiveFile(archiveFile: ArchiveFile, extensionOf: Term -> Option<Extension>)
    returns (r: Option<ValidationResultElement>)
    ensures r == FileElement(archiveFile, extensionOf)
    ensures extensionOf(archiveFile.rowType).None? ==>
      r == Some(ForMetaDescriptor(META_FN, [UnknownRowTypeIssue(archiveFile.rowType)]))
    ensures extensionOf(archiveFile.rowType).Some? ==>
      var ext := extensionOf(archiveFile.rowType).value;
      var issues := RequiredTermsMissing(ext, archiveFile, ext.properties) + UnknownTerms(ext, archiveFile.fieldTerms);
      && (r.None? <==> issues == [])
      && (r.Some? ==> r.value == ForMetaDescriptor(META_FN, issues))
  {
    var validationIssues: seq<ValidationIssue> := [];
    var registered := extensionOf(archiveFile.rowType);
    if registered.Some? {
      var ext := registered.value;
      var properties := ext.properties;
      var i := 0;
      while i < |properties|
        invariant 0 <= i <= |properties|
        invariant validationIssues == RequiredTermsMissing(ext, archiveFile, properties[..i])
      {
        assert properties[..i + 1][..i] == properties[..i];
        var ep := properties[i];
        if ep.required && !archiveFile.HasTerm(ep.qualname) {
          validationIssues := validationIssues + [MissingIssue(ext, ep)];
        }
        i := i + 1;
      }
      assert properties[..i] == properties;
      ghost var missing := validationIssues;
      var fields := archiveFile.fieldTerms;
      var j := 0;
      while j < |fields|
        invariant 0 <= j <= |fields|
        invariant validationIssues == missing + UnknownTerms(ext, fields[..j])
      {
        assert fields[..j + 1][..j] == fields[..j];
        var t := fields[j];
        if !ext.HasProperty(t) {
          validationIssues := validationIssues + [UnknownTermIssue(ext, t)];
        }
        j := j + 1;
      }
      assert fields[..j] == fields;
      assert validationIssues == FileIssues(archiveFile, extensionOf);
    } else {
      validationIssues := [UnknownRowTypeIssue(archiveFile.rowType)];
    }
    r := if validationIssues == [] then None else Some(ForMetaDescriptor(META_FN, validationIssues));
  }

  // ---------------------------------------------------------------------------
  // The whole archive
  // ---------------------------------------------------------------------------

  /** The elements of a list of archive files, in file order, leaving out files without issues. */
  function ArchiveElements(files: seq<ArchiveFile>, extensionOf: Term -> Option<Extension>): seq<ValidationResultElement>
  {
    if files == [] then []
    else
      var last := FileElement(files[|files| - 1], extensionOf);
      ArchiveElements(files[..|files| - 1], extensionOf) + (if last.Some? then [last.value] else [])
  }

  /** The elements of consecutive lists of files follow one another: evaluation keeps file order. */
  lemma {:induction false} ArchiveElementsAppend(a: seq<ArchiveFile>, b: seq<ArchiveFile>, extensionOf: Term -> Option<Extension>)
    ensures ArchiveElements(a + b, extensionOf) == ArchiveElements(a, extensionOf) + ArchiveElements(b, extensionOf)
  {
    if b == [] {
      assert a + b == a;
    } else {
      var n := |b| - 1;
      assert (a + b)[..|a + b| - 1] == a + b[..n];
      ArchiveElementsAppend(a, b[..n], extensionOf);
    }
  }

  /**
   * Each file contributes at most one element, and every element is the
   * non-empty issue list of some file, attributed to meta.xml.
   */
  lemma {:induction false} ArchiveElementsFromFiles(files: seq<ArchiveFile>, extensionOf: Term -> Option<Extension>)
    ensures |ArchiveElements(files, extensionOf)| <= |files|
    ensures forall e :: e in ArchiveElements(files, extensionOf) ==>
      exists i :: 0 <= i < |files| && FileElement(files[i], extensionOf) == Some(e)
        && e == ForMetaDescriptor(META_FN, FileIssues(files[i], extensionOf)) && FileIssues(files[i], extensionOf) != []
  {
    if files != [] {
      var n := |files| - 1;
      ArchiveElementsFromFiles(files[..n], extensionOf);
      forall e | e in ArchiveElements(files, extensionOf)
        ensures exists i ::
          && 0 <= i < |files| && FileElement(files[i], extensionOf) == Some(e)
          && e == ForMetaDescriptor(META_FN, FileIssues(files[i], extensionOf)) && FileIssues(files[i], extensionOf) != []
      {
        if e in ArchiveElements(files[..n], extensionOf) {
          var i :| 0 <= i < n && FileElement(files[..n][i], extensionOf) == Some(e)
            && e == ForMetaDescriptor(META_FN, FileIssues(files[..n][i], extensionOf)) && FileIssues(files[..n][i], extensionOf) != [];
          assert files[i] == files[..n][i];
        } else {
          assert FileElement(files[n], extensionOf) == Some(e);
        }
      }
    }
  }

  /** Evaluating one more file appends that file's element, if it has one. */
  lemma ArchiveElementsStep(files: seq<ArchiveFile>, n: nat, extensionOf: Term -> Option<Extension>)
    requires n < |files|
    ensures ArchiveElements(files[..n + 1], extensionOf)
         == ArchiveElements(files[..n], extensionOf)
            + (if FileElement(files[n], extensionOf).Some? then [FileElement(files[n], extensionOf).value] else [])
  {
    assert files[..n + 1][..n] == files[..n];
  }

  /** The archive files evaluated, core first and then the extensions in archive order. */
  function EvaluatedFiles(archive: Archive): seq<ArchiveFile>
    requires archive.core.Some?
  {
    [archive.core.value] + archive.extensions
  }

  /**
   * Evaluates the files of an archive with a valid descriptor, the core first
   * and then the extensions in archive order, collecting the element of every
   * file that has issues.
   */
  method EvaluateFiles(archive: Archive, extensionOf: Term -> Option<Extension>)
    returns (elements: seq<ValidationResultElement>)
    requires archive.core.Some?
    ensures elements == ArchiveElements(EvaluatedFiles(archive), extensionOf)
  {
    ghost var files := EvaluatedFiles(archive);
    elements := [];
    var coreElement := EvaluateArchiveFile(archive.core.value, extensionOf);
    ArchiveElementsStep(files, 0, extensionOf);
    if coreElement.Some? {
      elements := elements + [coreElement.value];
    }
    var i := 0;
    while i < |archive.extensions|
      invariant 0 <= i <= |archive.extensions|
      invariant elements == ArchiveElements(files[..1 + i], extensionOf)
    {
      assert files[1 + i] == archive.extensions[i];
      ArchiveElementsStep(files, 1 + i, extensionOf);
      var element := EvaluateArchiveFile(archive.extensions[i], extensionOf);
      if element.Some? {
        elements := elements + [element.value];
      }
      i := i + 1;
    }
    assert files[..1 + i] == files;
  }

  /**
   * Evaluates the structure of the archive at `dataFile`'s path. `access` is
   * how opening it ended, `metaXmlPresent` whether the descriptor file exists
   * in it, and `metaXmlCheck` how validating that file against the descriptor
   * schema ends. Structural failures are reported against the uploaded file's
   * name; term-level issues against meta.xml. Nothing found is no result.
   */
  method Evaluate(dataFile: DataFile, access: ArchiveAccess, metaXmlPresent: bool, metaXmlCheck: SchemaCheck,
                  extensionOf: Term -> Option<Extension>)
    returns (r: Option<seq<ValidationResultElement>>)
    requires access.Readable? && metaXmlPresent && metaXmlCheck.SchemaValid? ==> access.archive.core.Some?
    ensures access.Unreadable? ==>
      r == Some([OnException(dataFile.sourceFileName, DWCA_UNREADABLE, Some(access.message))])
    ensures access.Readable? && !metaXmlPresent ==>
      r == Some([OnException(dataFile.sourceFileName, DWCA_META_XML_NOT_FOUND, None)])
    ensures access.Readable? && metaXmlPresent && metaXmlCheck.SchemaViolation? ==>
      r == Some([OnException(dataFile.sourceFileName, DWCA_META_XML_SCHEMA, Some(metaXmlCheck.message))])
    ensures access.Readable? && metaXmlPresent && metaXmlCheck.SchemaReadFault? ==>
      r == Some([OnException(dataFile.sourceFileName, DWCA_UNREADABLE, Some(metaXmlCheck.message))])
    ensures access.Readable? && metaXmlPresent && metaXmlCheck.SchemaValid? ==>
      var elements := ArchiveElements(EvaluatedFiles(access.archive), extensionOf);
      && (r.None? <==> elements == [])
      && (r.Some? ==> r.value == elements)
    ensures r.Some? ==> r.value != []
  {
    var validationResultElements: seq<ValidationResultElement>;
    if access.Unreadable? {
      validationResultElements := [OnException(dataFile.sourceFileName, DWCA_UNREADABLE, Some(access.message))];
    } else if !metaXmlPresent {
      validationResultElements := [OnException(dataFile.sourceFileName, DWCA_META_XML_NOT_FOUND, None)];
    } else if metaXmlCheck.SchemaViolation? {
      validationResultElements := [OnException(dataFile.sourceFileName, DWCA_META_XML_SCHEMA, Some(metaXmlCheck.message))];
    } else if metaXmlCheck.SchemaReadFault? {
      validationResultElements := [OnException(dataFile.sourceFileName, DWCA_UNREADABLE, Some(metaXmlCheck.message))];
    } else {
      validationResultElements := EvaluateFiles(access.archive, extensionOf);
    }
    r := if validationResultElements == [] then None else Some(validationResultElements);
  }

  /**
   * With a valid descriptor, the core's element (if any) comes first and the
   * extensions' elements follow in archive order.
   */
  lemma CoreEvaluatedFirst(archive: Archive, extensionOf: Term -> Option<Extension>)
    requires archive.core.Some?
    ensures ArchiveElements(EvaluatedFiles(archive), extensionOf)
         == (if FileElement(archive.core.value, extensionOf).Some? then [FileElement(archive.core.value, extensionOf).value] else [])
            + ArchiveElements(archive.extensions, extensionOf)
  {
    ArchiveElementsAppend([archive.core.value], archive.extensions, extensionOf);
    assert [archive.core.value][..0] == [];
  }
}
