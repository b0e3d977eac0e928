/**
 * The resource as a star schema: one core part, optional extension parts and
 * an optional metadata document, with a lookup of parts by row type that is
 * built once, at construction, and never changes afterwards.
 */
module DwcDataFiles {
  import opened Wrappers
  import opened Api

  /**
   * The lookup the constructor builds: the core is put first, then every
   * extension in list order, a later put for a row type replacing an earlier one.
   */
  function RowTypeIndex(core: TabularDataFile, extensions: seq<TabularDataFile>): map<Term, TabularDataFile>
  {
    if extensions == [] then map[core.RowType() := core]
    else
      var last := extensions[|extensions| - 1];
      RowTypeIndex(core, extensions[..|extensions| - 1])[last.RowType() := last]
  }

  /** Some extension of `extensions` has row type `r`. */
  ghost predicate SomeExtensionHas(extensions: seq<TabularDataFile>, r: Term) {
    exists i :: 0 <= i < |extensions| && extensions[i].RowType() == r
  }

  /** `extensions[i]` has row type `r` and no later extension has it. */
  ghost predicate LastWithRowType(extensions: seq<TabularDataFile>, i: int, r: Term) {
    && 0 <= i < |extensions|
    && extensions[i].RowType() == r
    && forall j :: i < j < |extensions| ==> extensions[j].RowType() != r
  }

  /** Dropping the last extension loses row type `r` only when that extension is the one having it. */
  lemma SomeExtensionHasInit(extensions: seq<TabularDataFile>, r: Term)
    requires extensions != []
    ensures SomeExtensionHas(extensions, r) <==>
      SomeExtensionHas(extensions[..|extensions| - 1], r) || extensions[|extensions| - 1].RowType() == r
  {
  }

  /** A row type is mapped iff the core or some extension has it, and it is mapped to a part of that row type. */
  lemma {:induction false} RowTypeIndexDomain(core: TabularDataFile, extensions: seq<TabularDataFile>, r: Term)
    ensures r in RowTypeIndex(core, extensions) <==> r == core.RowType() || SomeExtensionHas(extensions, r)
    ensures r in RowTypeIndex(core, extensions) ==> RowTypeIndex(core, extensions)[r].RowType() == r
  {
    if extensions != [] {
      RowTypeIndexDomain(core, extensions[..|extensions| - 1], r);
      SomeExtensionHasInit(extensions, r);
    }
  }

  /** Every entry of the lookup is registered under its own row type. */
  lemma RowTypeIndexKeys(core: TabularDataFile, extensions: seq<TabularDataFile>, k: Term)
    requires k in RowTypeIndex(core, extensions)
    ensures RowTypeIndex(core, extensions)[k].RowType() == k
  {
    RowTypeIndexDomain(core, extensions, k);
  }

  /** Last write wins: a row type some extension has is mapped to the last extension having it. */
  lemma {:induction false} RowTypeIndexLastWrite(core: TabularDataFile, extensions: seq<TabularDataFile>, r: Term)
    ensures SomeExtensionHas(extensions, r) ==>
      r in RowTypeIndex(core, extensions) &&
      exists i :: LastWithRowType(extensions, i, r) && RowTypeIndex(core, extensions)[r] == extensions[i]
  {
    if !SomeExtensionHas(extensions, r) {
      return;
    }
    var n := |extensions| - 1;
    var init := extensions[..n];
    SomeExtensionHasInit(extensions, r);
    if extensions[n].RowType() == r {
      assert LastWithRowType(extensions, n, r);
    } else {
      RowTypeIndexLastWrite(core, init, r);
      var i :| LastWithRowType(init, i, r) && RowTypeIndex(core, init)[r] == init[i];
      forall j | i < j < |extensions| ensures extensions[j].RowType() != r {
        if j < n {
          assert extensions[j] == init[j];
        }
      }
      assert LastWithRowType(extensions, i, r);
    }
  }

  /** A row type no extension has is mapped to the core when the core has it. */
  lemma {:induction false} RowTypeIndexCore(core: TabularDataFile, extensions: seq<TabularDataFile>)
    ensures !SomeExtensionHas(extensions, core.RowType()) ==>
      core.RowType() in RowTypeIndex(core, extensions) && RowTypeIndex(core, extensions)[core.RowType()] == core
  {
    if extensions != [] && !SomeExtensionHas(extensions, core.RowType()) {
      SomeExtensionHasInit(extensions, core.RowType());
      RowTypeIndexCore(core, extensions[..|extensions| - 1]);
    }
  }

  /** The lookup has at most one entry more than there are extensions. */
  lemma {:induction false} RowTypeIndexSize(core: TabularDataFile, extensions: seq<TabularDataFile>)
    ensures |RowTypeIndex(core, extensions)| <= 1 + |extensions|
  {
    if extensions != [] {
      var n := |extensions| - 1;
      RowTypeIndexSize(core, extensions[..n]);
      var m := RowTypeIndex(core, extensions[..n]);
      var k := extensions[n].RowType();
      if k in m {
        assert m[k := extensions[n]].Keys == m.Keys;
      } else {
        assert m[k := extensions[n]].Keys == m.Keys + {k};
      }
    }
  }

  /** The row types of a list of parts. */
  function RowTypesOf(files: seq<TabularDataFile>): set<Term> {
    if files == [] then {} else RowTypesOf(files[..|files| - 1]) + {files[|files| - 1].RowType()}
  }

  /** A row type is among those of a list of parts iff some part of the list has it. */
  lemma {:induction false} RowTypesOfMembers(files: seq<TabularDataFile>, r: Term)
    ensures r in RowTypesOf(files) <==> exists i :: 0 <= i < |files| && files[i].RowType() == r
  {
    if files != [] {
      var n := |files| - 1;
      RowTypesOfMembers(files[..n], r);
      if r in RowTypesOf(files[..n]) {
        var i :| 0 <= i < n && files[..n][i].RowType() == r;
        assert files[i].RowType() == r;
      }
      if exists i :: 0 <= i < |files| && files[i].RowType() == r {
        var i :| 0 <= i < |files| && files[i].RowType() == r;
        if i < n {
          assert files[..n][i].RowType() == r;
        }
      }
    }
  }

  /** `files` holds the entries of `m` for exactly the keys in `seen`, one per key. */
  ghost predicate Listed(files: seq<TabularDataFile>, m: map<Term, TabularDataFile>, seen: set<Term>) {
    && (forall i :: 0 <= i < |files| ==> files[i].RowType() in m && m[files[i].RowType()] == files[i])
    && RowTypesOf(files) == seen
    && (forall i, j :: 0 <= i < j < |files| ==> files[i].RowType() != files[j].RowType())
    && |files| == |seen|
  }

  /** Adding the entry of a key not yet listed lists it too. */
  lemma ListedExtend(files: seq<TabularDataFile>, m: map<Term, TabularDataFile>, seen: set<Term>, k: Term)
    requires Listed(files, m, seen)
    requires k in m && m[k].RowType() == k && k !in seen
    ensures Listed(files + [m[k]], m, seen + {k})
  {
    var next := files + [m[k]];
    assert next[..|files|] == files;
    forall i | 0 <= i < |files| ensures files[i].RowType() != k {
      RowTypesOfMembers(files, files[i].RowType());
    }
  }

  class DwcDataFile {
    const dataFile: DataFile
    const core: TabularDataFile
    /** the extension list exactly as given, absent when none was given */
    const extensions: Option<seq<TabularDataFile>>
    const metadataFilePath: Option<Path>
    const tabularDataFileByTerm: map<Term, TabularDataFile>

    /** The extensions, an absent list read as an empty one. */
    function ExtensionList(): seq<TabularDataFile> {
      extensions.GetOr([])
    }

    /** The lookup is the one built from the core and the extensions, in that order. */
    ghost predicate Valid() {
      tabularDataFileByTerm == RowTypeIndex(core, ExtensionList())
    }

    constructor (dataFile: DataFile, core: TabularDataFile, extensions: Option<seq<TabularDataFile>>,
                 metadataFilePath: Option<Path>)
      ensures this.dataFile == dataFile && this.core == core
      ensures this.extensions == extensions && this.metadataFilePath == metadataFilePath
      ensures Valid()
    {
      var fileByRowType := map[core.RowType() := core];
      if extensions.Some? {
        var exts := extensions.value;
        var i := 0;
        while i < |exts|
          invariant 0 <= i <= |exts|
          invariant fileByRowType == RowTypeIndex(core, exts[..i])
        {
          assert exts[..i + 1][..i] == exts[..i];
          fileByRowType := fileByRowType[exts[i].RowType() := exts[i]];
          i := i + 1;
        }
        assert exts[..i] == exts;
      }
      this.dataFile := dataFile;
      this.core := core;
      this.extensions := extensions;
      this.metadataFilePath := metadataFilePath;
      this.tabularDataFileByTerm := fileByRowType;
    }

    /**
     * The part registered for a row type: the last extension with that row type,
     * otherwise the core when it has it, otherwise nothing.
     */
    function GetByRowType(term: Term): (r: Option<TabularDataFile>)
      requires Valid()
      ensures r.Some? <==> term == core.RowType() || SomeExtensionHas(ExtensionList(), term)
      ensures r.Some? ==> r.value.RowType() == term
      ensures SomeExtensionHas(ExtensionList(), term) ==>
        exists i :: LastWithRowType(ExtensionList(), i, term) && r == Some(ExtensionList()[i])
      ensures !SomeExtensionHas(ExtensionList(), term) && term == core.RowType() ==> r == Some(core)
    {
      RowTypeIndexDomain(core, ExtensionList(), term);
      RowTypeIndexLastWrite(core, ExtensionList(), term);
      RowTypeIndexCore(core, ExtensionList());
      if term in tabularDataFileByTerm then Some(tabularDataFileByTerm[term]) else None
    }

    /**
     * The registered parts, one per distinct row type among the core and the
     * extensions, in no particular order.
     */
    method GetTabularDataFiles() returns (files: seq<TabularDataFile>)
      requires Valid()
      ensures forall i :: 0 <= i < |files| ==> GetByRowType(files[i].RowType()) == Some(files[i])
      ensures forall r :: GetByRowType(r).Some? ==> exists i :: 0 <= i < |files| && files[i].RowType() == r
      ensures forall i, j :: 0 <= i < j < |files| ==> files[i].RowType() != files[j].RowType()
      ensures |files| <= 1 + |ExtensionList()|
    {
      var m := tabularDataFileByTerm;
      var keys := m.Keys;
      ghost var seen: set<Term> := {};
      files := [];
      while keys != {}
        invariant keys !! seen && keys + seen == m.Keys
        invariant Listed(files, m, seen)
        decreases keys
      {
        var k :| k in keys;
        RowTypeIndexKeys(core, ExtensionList(), k);
        ListedExtend(files, m, seen, k);
        files := files + [m[k]];
        keys := keys - {k};
        seen := seen + {k};
      }
      ListedLookup(this, files);
    }
  }

  /**
   * A list holding every entry of a valid lookup once is what
   * `GetTabularDataFiles` promises: each part is what the lookup returns for
   * its row type, every row type found is listed, and no row type twice.
   */
  lemma ListedLookup(d: DwcDataFile, files: seq<TabularDataFile>)
    requires d.Valid()
    requires Listed(files, d.tabularDataFileByTerm, d.tabularDataFileByTerm.Keys)
    ensures forall i :: 0 <= i < |files| ==> d.GetByRowType(files[i].RowType()) == Some(files[i])
    ensures forall r :: d.GetByRowType(r).Some? ==> exists i :: 0 <= i < |files| && files[i].RowType() == r
    ensures forall i, j :: 0 <= i < j < |files| ==> files[i].RowType() != files[j].RowType()
    ensures |files| <= 1 + |d.ExtensionList()|
  {
    forall r | d.GetByRowType(r).Some?
      ensures exists i :: 0 <= i < |files| && files[i].RowType() == r
    {
      RowTypesOfMembers(files, r);
    }
    RowTypeIndexSize(d.core, d.ExtensionList());
  }

  /**
   * An extension sharing the core's row type shadows the core in lookups: the
   * core's row type finds the last such extension, and no longer the core
   * unless that extension equals it.
   */
  lemma ExtensionShadowsCore(d: DwcDataFile, i: int)
    requires d.Valid()
    requires LastWithRowType(d.ExtensionList(), i, d.core.RowType())
    ensures d.GetByRowType(d.core.RowType()) == Some(d.ExtensionList()[i])
    ensures d.ExtensionList()[i] != d.core ==> d.GetByRowType(d.core.RowType()) != Some(d.core)
  {
  }
}
