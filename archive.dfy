/** Unpacking the downloaded JAR into the scratch directory: the list of
    extracted files, in archive order, and the directory they end up in
    (a map from relative path to contents). */
module Archive {
  import opened Wrappers
  import opened Bytes

  /** One entry as the zip reader presents it: its raw name, its enclosed
      name (`None` when the name would leave the target directory) and its
      contents. */
  datatype ZipEntry = ZipEntry(name: string, enclosedName: Option<string>, data: Bytes)

  /** A name ending in '/' stands for a directory. */
  predicate IsDirectory(e: ZipEntry) {
    |e.name| > 0 && e.name[|e.name| - 1] == '/'
  }

  /** An entry that is written out as a file and listed. */
  predicate IsExtractedFile(e: ZipEntry) {
    e.enclosedName.Some? && !IsDirectory(e)
  }

  /** The enclosed names of the extracted files, in archive order. */
  function ExtractedNames(entries: seq<ZipEntry>): (names: seq<string>)
    ensures |names| <= |entries|
    decreases |entries|
  {
    if entries == [] then []
    else
      var last := entries[|entries| - 1];
      ExtractedNames(entries[..|entries| - 1])
        + (if IsExtractedFile(last) then [last.enclosedName.value] else [])
  }

  /** The scratch directory after extraction: every file entry written at
      its enclosed name, a later entry replacing an earlier one. */
  function ExtractedDir(entries: seq<ZipEntry>): map<string, Bytes>
    decreases |entries|
  {
    if entries == [] then map[]
    else
      var last := entries[|entries| - 1];
      var dir := ExtractedDir(entries[..|entries| - 1]);
      if IsExtractedFile(last) then dir[last.enclosedName.value := last.data] else dir
  }

  /** The extraction loop: entries without an enclosed name are skipped,
      directories are created but not listed, files are listed and written. */
  method Extract(entries: seq<ZipEntry>) returns (files: seq<string>, dir: map<string, Bytes>)
    ensures files == ExtractedNames(entries)
    ensures dir == ExtractedDir(entries)
  {
    files, dir := [], map[];
    for i := 0 to |entries|
      invariant files == ExtractedNames(entries[..i])
      invariant dir == ExtractedDir(entries[..i])
    {
      assert entries[..i + 1][..i] == entries[..i];
      var e := entries[i];
      if e.enclosedName.None? {
        continue;
      }
      if IsDirectory(e) {
        // the directory is created on disk; it holds no listed file
      } else {
        files := files + [e.enclosedName.value];
        dir := dir[e.enclosedName.value := e.data];
      }
    }
    assert entries[..|entries|] == entries;
  }

  /** Listing preserves archive order: the files of two consecutive runs of
      entries are the files of the first followed by those of the second. */
  lemma {:induction false} ExtractedNamesAppend(a: seq<ZipEntry>, b: seq<ZipEntry>)
    ensures ExtractedNames(a + b) == ExtractedNames(a) + ExtractedNames(b)
    decreases |b|
  {
    if b != [] {
      var b' := b[..|b| - 1];
      assert (a + b)[..|a + b| - 1] == a + b';
      ExtractedNamesAppend(a, b');
    } else {
      assert a + b == a;
    }
  }

  /** A name is listed exactly when some entry with that enclosed name is a
      file entry. */
  lemma {:induction false} ExtractedNamesMembership(entries: seq<ZipEntry>, n: string)
    ensures n in ExtractedNames(entries) <==>
      exists i :: 0 <= i < |entries| && IsExtractedFile(entries[i]) && entries[i].enclosedName == Some(n)
    decreases |entries|
  {
    if entries != [] {
      var init := entries[..|entries| - 1];
      ExtractedNamesMembership(init, n);
      assert forall i :: 0 <= i < |init| ==> init[i] == entries[i];
    }
  }

  /** The scratch directory holds exactly the listed files. */
  lemma {:induction false} ListedFilesAreWritten(entries: seq<ZipEntry>)
    ensures forall n :: n in ExtractedDir(entries) <==> n in ExtractedNames(entries)
    decreases |entries|
  {
    if entries != [] {
      ListedFilesAreWritten(entries[..|entries| - 1]);
    }
  }

  /** Entry `i` is the last file entry written at `n`. */
  predicate LastWriter(entries: seq<ZipEntry>, n: string, i: int) {
    && 0 <= i < |entries|
    && IsExtractedFile(entries[i])
    && entries[i].enclosedName == Some(n)
    && forall j :: i < j < |entries| ==> !(IsExtractedFile(entries[j]) && entries[j].enclosedName == Some(n))
  }

  /** What a listed file holds: the contents of the last file entry with
      that name. */
  lemma {:induction false} ExtractedContents(entries: seq<ZipEntry>, n: string)
    requires n in ExtractedDir(entries)
    ensures exists i :: LastWriter(entries, n, i) && ExtractedDir(entries)[n] == entries[i].data
    decreases |entries|
  {
    var last := entries[|entries| - 1];
    var init := entries[..|entries| - 1];
    if IsExtractedFile(last) && last.enclosedName == Some(n) {
      assert LastWriter(entries, n, |entries| - 1);
    } else {
      ExtractedContents(init, n);
      var i :| LastWriter(init, n, i) && ExtractedDir(init)[n] == init[i].data;
      assert entries[i] == init[i];
      assert forall j :: i < j < |entries| - 1 ==> entries[j] == init[j];
      assert LastWriter(entries, n, i);
    }
  }
}
