/**
 * The archiver as the source writes it: an `Archiver` object whose methods
 * append entries to the tar builder and bump `file_count` in place, and
 * `archive_to_file`, which drives it inside an atomic output file and
 * reports progress. Every method is proved to follow the step functions of
 * ArchiveSpec.
 */
module Archiving {
  import opened Results
  import opened Paths
  import opened Inputs
  import opened ArchiveFormats
  import opened ArchiveSpec
  import opened StepLemmas

  class Archiver {
    const binaryList: BinaryList
    const cargoMetadata: Text
    /** The path mapper, the filesystem and the output stream the archiver works with. */
    const env: Environment
    /** Captured once when the archiver is built; the mtime of every in-memory entry. */
    const unixTimestamp: nat
    /** The entries handed to the tar builder, in order. */
    var entries: seq<Entry>
    var fileCount: nat

    function State(): Snapshot
      reads this
    {
      Snapshot(entries, fileCount)
    }

    constructor (binaryList: BinaryList, cargoMetadata: Text, env: Environment, unixTimestamp: nat)
      ensures this.binaryList == binaryList && this.cargoMetadata == cargoMetadata
      ensures this.env == env && this.unixTimestamp == unixTimestamp
      ensures State() == Fresh
    {
      this.binaryList := binaryList;
      this.cargoMetadata := cargoMetadata;
      this.env := env;
      this.unixTimestamp := unixTimestamp;
      entries := [];
      fileCount := 0;
    }

    /**
     * `Archiver::new`: sets up the compressed stream for `format` (which may
     * fail with an output error) and records `now`, the current Unix time in
     * seconds, as the archive's timestamp.
     */
    static method New(binaryList: BinaryList, cargoMetadata: Text, env: Environment, format: ArchiveFormat, now: nat)
      returns (r: Result<Archiver, ArchiveCreateError>)
      ensures r.Ok? <==> env.sink.encoderOk
      ensures r.Err? ==> r.error == OutputArchiveIo
      ensures r.Ok? ==> fresh(r.value) && r.value.State() == Fresh
      ensures r.Ok? ==> r.value.binaryList == binaryList && r.value.cargoMetadata == cargoMetadata
      ensures r.Ok? ==> r.value.env == env && r.value.unixTimestamp == now
    {
      match format
      case TarZst =>
        if !env.sink.encoderOk {
          return Err(OutputArchiveIo);
        }
      var archiver := new Archiver(binaryList, cargoMetadata, env, now);
      return Ok(archiver);
    }

    /** `append_from_memory`: one entry with a fresh header, counted once. */
    method AppendFromMemory(name: Path, contents: Text) returns (r: Outcome<ArchiveCreateError>)
      modifies this
      ensures Run(State(), r) == AppendMemory(env, unixTimestamp, old(State()), name, contents)
    {
      if !HasRoom(env.sink, |entries|) {
        return Fail(OutputArchiveIo);
      }
      entries := entries + [MemoryEntry(name, contents, unixTimestamp)];
      fileCount := fileCount + 1;
      return Pass;
    }

    /** `append_path`: the file `src` (which holds `found`) stored as `dest`, counted once. */
    method AppendPath(src: Path, dest: Path, found: Node) returns (r: Outcome<ArchiveCreateError>)
      modifies this
      ensures Run(State(), r) == ArchiveSpec.AppendPath(env, old(State()), src, dest, found)
    {
      if !Appendable(found) || !HasRoom(env.sink, |entries|) {
        return Fail(InputFileRead(src, Some(false)));
      }
      entries := entries + [Entry(dest, Disk(src, DataOf(found)))];
      fileCount := fileCount + 1;
      return Pass;
    }

    /**
     * The listing loop of `append_dir_all`: pushes one element per entry of
     * directory `dir` onto `stack`, stopping at the first entry that fails.
     */
    static method PushEntries(stack: seq<Pending>, dir: Path, es: seq<DirEntry>)
      returns (r: Result<seq<Pending>, ArchiveCreateError>)
      ensures r.Ok? <==> forall k :: 0 <= k < |es| ==> es[k].ok && es[k].typeKnown
      ensures r.Ok? ==> r.value == stack + Children(dir, es)
      ensures r.Err? ==> ListChildren(dir, es) == Err(r.error)
    {
      var pushed := stack;
      var i := 0;
      while i < |es|
        invariant 0 <= i <= |es|
        invariant forall k :: 0 <= k < i ==> es[k].ok && es[k].typeKnown
        invariant pushed == stack + Children(dir, es[..i])
      {
        var entry := es[i];
        if !entry.ok {
          ListChildrenFailsAt(dir, es, i);
          ListChildrenStops(dir, es, i + 1);
          return Err(DirEntryRead(dir));
        }
        var fileName := dir + [Normal(entry.name)];
        if !entry.typeKnown {
          ListChildrenFailsAt(dir, es, i);
          ListChildrenStops(dir, es, i + 1);
          return Err(InputFileRead(fileName, None));
        }
        ChildrenPush(dir, es, i);
        pushed := pushed + [Pending(fileName, entry.node, entry.node.Dir?, entry.node.Symlink?)];
        i := i + 1;
      }
      assert es[..i] == es;
      return Ok(pushed);
    }

    /**
     * `append_dir_all`: depth-first walk of the tree at `srcPath` with an
     * explicit stack, appending every element that is not listed.
     */
    method AppendDirAll(rel: Path, srcPath: Path, follow: bool) returns (r: Outcome<ArchiveCreateError>)
      modifies this
      ensures Run(State(), r) == ArchiveSpec.AppendDirAll(env, old(State()), rel, srcPath, follow)
    {
      var stack := [Pending(srcPath, env.fs(srcPath), true, false)];
      ghost var goal := ArchiveSpec.AppendDirAll(env, State(), rel, srcPath, follow);
      assert WalkStack(env, State(), rel, srcPath, follow, stack) == goal by {
        assert stack[..0] == [];
        assert stack[0] == RootPending(env, srcPath);
      }
      while stack != []
        invariant AllBelow(srcPath, stack)
        invariant WalkStack(env, State(), rel, srcPath, follow, stack) == goal
        decreases StackSize(stack)
      {
        ghost var full := stack;
        var top := stack[|stack| - 1];
        stack := stack[..|stack| - 1];
        ghost var below, s := stack, State();
        assert full == below + [top];
        var dest := LeafDest(rel, srcPath, top.path);
        if top.isDir || (top.isSymlink && follow && IsDir(top.node)) {
          var listing := ReadDir(top.node);
          if listing.None? {
            WalkPopFails(env, s, rel, srcPath, follow, below, top, [], 0, InputFileRead(top.path, Some(true)));
            return Fail(InputFileRead(top.path, Some(true)));
          }
          var es := listing.value;
          var pushed := PushEntries(stack, top.path, es);
          if pushed.Err? {
            assert es[..|es|] == es;
            WalkPopFails(env, s, rel, srcPath, follow, below, top, es, |es|, pushed.error);
            return Fail(pushed.error);
          }
          stack := pushed.value;
          WalkPopDir(env, s, rel, srcPath, follow, below, top, es);
        } else {
          WalkPopLeaf(env, s, rel, srcPath, follow, below, top);
          r := AppendPath(top.path, dest, top.node);
          if r.Fail? {
            return;
          }
        }
      }
      return Pass;
    }

    /**
     * `Archiver::archive` on a freshly built archiver: the two metadata
     * entries, the test binaries, the non-test binaries and the linked
     * paths, then the stream is finished. Returns `file_count`.
     */
    method Archive() returns (r: Result<nat, ArchiveCreateError>)
      requires State() == Fresh
      requires ArchivePre(binaryList)
      modifies this
      ensures (State(), r) == ArchiveRun(env, binaryList, cargoMetadata, unixTimestamp)
    {
      var serialized := env.serialize(binaryList);
      if serialized.Err? {
        return Err(CreateBinaryList(serialized.error));
      }
      var a := AppendFromMemory(BinariesMetadataFileName, serialized.value);
      if a.Fail? {
        return Err(a.error);
      }
      a := AppendFromMemory(CargoMetadataFileName, cargoMetadata);
      if a.Fail? {
        return Err(a.error);
      }

      ghost var s2 := State();
      var meta := binaryList.rustBuildMeta;
      var targetDir := meta.targetDirectory;
      var base := Parent(targetDir).value;
      var bins := binaryList.rustBinaries;
      var i := 0;
      assert bins[..0] == [];
      while i < |bins|
        invariant 0 <= i <= |bins|
        invariant PrimaryRun(env, s2, base, bins[..i]) == Done(State())
      {
        var binary := bins[i];
        PrimaryRunStep(env, s2, base, bins, i, State());
        var relPath := StripPrefix(binary.path, base).value;
        relPath := env.toForwardSlash(relPath);
        a := AppendPath(binary.path, relPath, env.fs(binary.path));
        if a.Fail? {
          PrimaryRunStops(env, s2, base, bins, i + 1);
          return Err(a.error);
        }
        fileCount := fileCount + 1;
        i := i + 1;
      }
      assert bins[..i] == bins;

      ghost var s3 := State();
      var nonTest := Flatten(meta.nonTestBinaries);
      i := 0;
      assert nonTest[..0] == [];
      while i < |nonTest|
        invariant 0 <= i <= |nonTest|
        invariant NonTestRun(env, s3, targetDir, nonTest[..i]) == Done(State())
      {
        var nonTestBinary := nonTest[i];
        NonTestRunStep(env, s3, targetDir, nonTest, i, State());
        var srcPath := Join(targetDir, nonTestBinary.path);
        srcPath := env.mapBinary(srcPath);
        var relPath := Join([Normal("target")], nonTestBinary.path);
        relPath := env.toForwardSlash(relPath);
        a := AppendPath(srcPath, relPath, env.fs(srcPath));
        if a.Fail? {
          NonTestRunStops(env, s3, targetDir, nonTest, i + 1);
          return Err(a.error);
        }
        fileCount := fileCount + 1;
        i := i + 1;
      }
      assert nonTest[..i] == nonTest;

      ghost var s4 := State();
      var links := meta.linkedPaths;
      i := 0;
      assert links[..0] == [];
      while i < |links|
        invariant 0 <= i <= |links|
        invariant LinkedRun(env, s4, targetDir, links[..i]) == Done(State())
      {
        var linkedPath := links[i];
        LinkedRunStep(env, s4, targetDir, links, i, State());
        var srcPath := Join(targetDir, linkedPath);
        srcPath := env.mapBinary(srcPath);
        var relPath := Join([Normal("target")], linkedPath);
        relPath := env.toForwardSlash(relPath);
        a := AppendDirAll(relPath, srcPath, true);
        if a.Fail? {
          LinkedRunStops(env, s4, targetDir, links, i + 1);
          return Err(a.error);
        }
        i := i + 1;
      }
      assert links[..i] == links;

      if !env.sink.finishOk {
        return Err(OutputArchiveIo);
      }
      return Ok(fileCount);
    }
  }

  /** The progress events `archive_to_file` reports. */
  datatype ArchiveEvent =
    | ArchiveStarted(testBinaryCount: nat, nonTestBinaryCount: nat, linkedPathCount: nat, outputFile: Path)
    | Archived(fileCount: nat, outputFile: Path, elapsed: nat)

  /** How the atomic file reports a failed write: its own failure, or the write closure's error. */
  datatype AtomicWriteError = Internal | User(error: ArchiveCreateError)

  /**
   * The start event: the number of test binaries, of non-test binary groups
   * (the length of the map, not of its flattening) and of linked paths.
   */
  function StartedEvent(bl: BinaryList, outputFile: Path): ArchiveEvent {
    ArchiveStarted(|bl.rustBinaries|, |bl.rustBuildMeta.nonTestBinaries|, |bl.rustBuildMeta.linkedPaths|, outputFile)
  }

  /** Whether the atomic write completes: staging, the start report, the archiver and the publish all succeed. */
  predicate WriteCommits(env: Environment, bl: BinaryList, cargoMetadata: Text, now: nat, outputFile: Path,
                         callback: ArchiveEvent -> bool)
    requires ArchivePre(bl)
  {
    && env.sink.stagingOk
    && callback(StartedEvent(bl, outputFile))
    && env.sink.encoderOk
    && ArchiveRun(env, bl, cargoMetadata, now).1.Ok?
    && env.sink.commitOk
  }

  /**
   * `archive_to_file`: runs the archiver inside an atomic output file.
   * `callback` says whether reporting an event succeeds; `now` is the Unix
   * time the archiver reads and `elapsed` the measured duration; `existing`
   * is what the output path holds before the call, and `published` what it
   * holds afterwards.
   */
  method ArchiveToFile(binaryList: BinaryList, cargoMetadata: Text, env: Environment, format: ArchiveFormat,
                       outputFile: Path, callback: ArchiveEvent -> bool, now: nat, elapsed: nat,
                       existing: Option<seq<Entry>>)
    returns (r: Outcome<ArchiveCreateError>, events: seq<ArchiveEvent>, published: Option<seq<Entry>>)
    requires ArchivePre(binaryList)
    ensures var run := ArchiveRun(env, binaryList, cargoMetadata, now);
      && (events == [] <==> !env.sink.stagingOk)
      && (env.sink.stagingOk ==> events[0] == StartedEvent(binaryList, outputFile))
      && (if WriteCommits(env, binaryList, cargoMetadata, now, outputFile, callback) then
            && published == Some(run.0.entries)
            && events == [StartedEvent(binaryList, outputFile), Archived(run.1.value, outputFile, elapsed)]
            && r == (if callback(events[1]) then Pass else Fail(ReporterIo))
          else
            && published == existing
            && |events| <= 1
            && r.Fail?)
    ensures !env.sink.stagingOk ==> r == Fail(OutputArchiveIo)
    ensures env.sink.stagingOk && !callback(StartedEvent(binaryList, outputFile)) ==> r == Fail(ReporterIo)
    ensures env.sink.stagingOk && callback(StartedEvent(binaryList, outputFile)) ==>
      var run := ArchiveRun(env, binaryList, cargoMetadata, now);
      && (!env.sink.encoderOk ==> r == Fail(OutputArchiveIo))
      && (env.sink.encoderOk && run.1.Err? ==> r == Fail(run.1.error))
      && (env.sink.encoderOk && run.1.Ok? && !env.sink.commitOk ==> r == Fail(OutputArchiveIo))
  {
    events := [];
    var staged: seq<Entry> := [];
    var written: Result<nat, AtomicWriteError>;
    if !env.sink.stagingOk {
      written := Err(Internal);
    } else {
      // The write closure.
      var started := ArchiveStarted(|binaryList.rustBinaries|, |binaryList.rustBuildMeta.nonTestBinaries|,
                                    |binaryList.rustBuildMeta.linkedPaths|, outputFile);
      events := [started];
      if !callback(started) {
        written := Err(User(ReporterIo));
      } else {
        var created := Archiver.New(binaryList, cargoMetadata, env, format, now);
        if created.Err? {
          written := Err(User(created.error));
        } else {
          var archiver := created.value;
          var fileCount := archiver.Archive();
          staged := archiver.entries;
          if fileCount.Err? {
            written := Err(User(fileCount.error));
          } else if !env.sink.commitOk {
            written := Err(Internal);
          } else {
            written := Ok(fileCount.value);
          }
        }
      }
    }
    if written.Err? {
      var error := match written.error
        case Internal => OutputArchiveIo
        case User(e) => e;
      return Fail(error), events, existing;
    }
    published := Some(staged);
    var archived := Archived(written.value, outputFile, elapsed);
    events := events + [archived];
    if !callback(archived) {
      return Fail(ReporterIo), events, published;
    }
    return Pass, events, published;
  }
}
