/** Archive formats and their detection from the output file's name. */
module ArchiveFormats {
  import opened Results
  import opened Paths

  /** The supported container encodings: today only a Zstandard-compressed tarball. */
  datatype ArchiveFormat = TarZst

  /** Detection failed; carries the file name that was looked at, not the whole path. */
  datatype UnknownArchiveFormat = UnknownArchiveFormat(fileName: string)

  /** The ordered table of (file extension, format) pairs. */
  const SupportedFormats: seq<(string, ArchiveFormat)> := [(".tar.zst", TarZst)]

  predicate EndsWith(s: string, suffix: string) {
    |suffix| <= |s| && s[|s| - |suffix|..] == suffix
  }

  /** The name `autodetect` inspects: the path's file name, or the empty string if it has none. */
  function DetectedName(archiveFile: Path): string {
    match FileName(archiveFile)
    case Some(name) => name
    case None => ""
  }

  /** Pair `i` of `table` is the first whose extension `fileName` ends with. */
  predicate MatchesFirstAt(fileName: string, table: seq<(string, ArchiveFormat)>, i: int) {
    && 0 <= i < |table|
    && EndsWith(fileName, table[i].0)
    && forall j :: 0 <= j < i ==> !EndsWith(fileName, table[j].0)
  }

  /**
   * First-match search of `table`: the index of the first pair whose extension
   * `fileName` ends with, or `|table|` when there is none.
   */
  function FirstMatch(fileName: string, table: seq<(string, ArchiveFormat)>): (i: nat)
    ensures i <= |table|
    ensures i < |table| ==> MatchesFirstAt(fileName, table, i)
    ensures forall j :: 0 <= j < i ==> !EndsWith(fileName, table[j].0)
  {
    if table == [] then 0
    else if EndsWith(fileName, table[0].0) then 0
    else 1 + FirstMatch(fileName, table[1..])
  }

  /**
   * `ArchiveFormat::autodetect`: the format of the first table entry whose
   * extension the file name ends with (no earlier entry matches); otherwise
   * an error naming the file.
   */
  function Autodetect(archiveFile: Path): (r: Result<ArchiveFormat, UnknownArchiveFormat>)
    ensures r.Ok? <==> exists i :: 0 <= i < |SupportedFormats| && EndsWith(DetectedName(archiveFile), SupportedFormats[i].0)
    ensures r.Ok? ==> exists i :: MatchesFirstAt(DetectedName(archiveFile), SupportedFormats, i)
                                  && r.value == SupportedFormats[i].1
    ensures r.Err? ==> r.error == UnknownArchiveFormat(DetectedName(archiveFile))
  {
    var fileName := DetectedName(archiveFile);
    var i := FirstMatch(fileName, SupportedFormats);
    if i < |SupportedFormats| then Ok(SupportedFormats[i].1)
    else Err(UnknownArchiveFormat(fileName))
  }

  /** Only the last component decides: any directory prefix leaves the result unchanged. */
  lemma AutodetectIgnoresDirectories(dir: Path, name: string)
    ensures Autodetect(dir + [Normal(name)]) == Autodetect([Normal(name)])
  {
  }

  /** The cases exercised by the source's unit test. */
  lemma AutodetectExamples()
    ensures Autodetect([Normal("foo.tar.zst")]) == Ok(TarZst)
    ensures Autodetect([Normal("foo"), Normal("bar.tar.zst")]) == Ok(TarZst)
    ensures Autodetect([Normal("foo")]) == Err(UnknownArchiveFormat("foo"))
    ensures Autodetect([RootDir]) == Err(UnknownArchiveFormat(""))
  {
    assert !EndsWith("foo", ".tar.zst");
    assert EndsWith("foo.tar.zst", ".tar.zst");
    assert EndsWith("bar.tar.zst", ".tar.zst");
  }
}
