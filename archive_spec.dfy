/**
 * The archiver as functions on a snapshot of its state: the entries handed
 * to the tar builder so far and the `file_count` counter. Each function
 * describes one step of `Archiver` (an append, one of the loops of
 * `archive`, the directory walk) and returns the new snapshot together with
 * the step's outcome; the imperative `Archiver` class is proved to follow
 * them.
 */
module ArchiveSpec {
  import opened Results
  import opened Paths
  import opened Inputs

  /** `ArchiveCreateError`, with the underlying I/O causes left out. */
  datatype ArchiveCreateError =
    | CreateBinaryList(cause: WriteTestListError)
    | OutputArchiveIo
    | InputFileRead(path: Path, isDir: Option<bool>)
    | DirEntryRead(path: Path)
    | ReporterIo

  /**
   * Well-known entry names. Their values come from reuse_build/mod.rs, which
   * is not part of this model; no proof depends on them beyond their being
   * different.
   */
  const BinariesMetadataFileName: Path := [Normal("target"), Normal("nextest"), Normal("binaries-metadata.json")]
  const CargoMetadataFileName: Path := [Normal("target"), Normal("nextest"), Normal("cargo-metadata.json")]

  /** Permission bits of every in-memory entry: 0o664. */
  const InMemoryMode: nat := 0x1B4

  /** The tar header fields the archiver sets on an in-memory entry. */
  datatype Header = Header(size: nat, mtime: nat, mode: nat)

  /** Where an entry's bytes come from: a string in memory, or a file read from disk. */
  datatype Source =
    | Memory(header: Header, contents: Text)
    | Disk(path: Path, data: seq<byte>)

  /** One entry handed to the tar builder, under its destination name. */
  datatype Entry = Entry(name: Path, source: Source)

  /** The archiver's mutable state: what the builder holds and `file_count`. */
  datatype Snapshot = Snapshot(entries: seq<Entry>, count: nat)

  /** The state after a step, and whether the step succeeded. */
  datatype Run = Run(snap: Snapshot, outcome: Outcome<ArchiveCreateError>)

  const Fresh: Snapshot := Snapshot([], 0)

  function Done(s: Snapshot): Run {
    Run(s, Pass)
  }

  /** The extra `file_count += 1` of the binary loops, applied only after a successful append. */
  function Bump(r: Run): Run {
    if r.outcome.Pass? then Run(Snapshot(r.snap.entries, r.snap.count + 1), r.outcome) else r
  }

  // ---------------------------------------------------------------------------
  // Appending one entry
  // ---------------------------------------------------------------------------

  function MemoryEntry(name: Path, contents: Text, timestamp: nat): Entry {
    Entry(name, Memory(Header(|contents|, timestamp, InMemoryMode), contents))
  }

  /** `append_from_memory`: a failed write is an output error. */
  function AppendMemory(env: Environment, timestamp: nat, s: Snapshot, name: Path, contents: Text): Run {
    if HasRoom(env.sink, |s.entries|) then
      Done(Snapshot(s.entries + [MemoryEntry(name, contents, timestamp)], s.count + 1))
    else
      Run(s, Fail(OutputArchiveIo))
  }

  /**
   * `append_path`: any failure of the builder, whether reading `src` or
   * writing the stream, is reported as a failure to read the file `src`.
   */
  function AppendPath(env: Environment, s: Snapshot, src: Path, dest: Path, node: Node): Run {
    if Appendable(node) && HasRoom(env.sink, |s.entries|) then
      Done(Snapshot(s.entries + [Entry(dest, Disk(src, DataOf(node)))], s.count + 1))
    else
      Run(s, Fail(InputFileRead(src, Some(false))))
  }

  // ---------------------------------------------------------------------------
  // The binary loops of `archive`
  // ---------------------------------------------------------------------------

  /** Destination of a test binary: its path relative to the target directory's parent. */
  function PrimaryDest(env: Environment, base: Path, bin: RustTestBinary): Path
    requires base <= bin.path
  {
    env.toForwardSlash(StripPrefix(bin.path, base).value)
  }

  predicate AllWithin(base: Path, bins: seq<RustTestBinary>) {
    forall k :: 0 <= k < |bins| ==> base <= bins[k].path
  }

  /** The test-binary loop over `bins`, starting from `s`. */
  function PrimaryRun(env: Environment, s: Snapshot, base: Path, bins: seq<RustTestBinary>): Run
    requires AllWithin(base, bins)
  {
    if bins == [] then Done(s)
    else
      var r := PrimaryRun(env, s, base, bins[..|bins| - 1]);
      if r.outcome.Fail? then r
      else
        var bin := bins[|bins| - 1];
        Bump(AppendPath(env, r.snap, bin.path, PrimaryDest(env, base, bin), env.fs(bin.path)))
  }

  /** The non-test binaries of all groups, one group after another. */
  function Flatten(groups: seq<(string, seq<RustNonTestBinary>)>): seq<RustNonTestBinary> {
    if groups == [] then [] else groups[0].1 + Flatten(groups[1..])
  }

  /** Where a non-test binary is read from: the mapped `target_dir/<path>`. */
  function NonTestSource(env: Environment, target: Path, bin: RustNonTestBinary): Path {
    env.mapBinary(Join(target, bin.path))
  }

  /** Where a non-test binary is stored: `target/<path>`. */
  function NonTestDest(env: Environment, bin: RustNonTestBinary): Path {
    env.toForwardSlash(Join([Normal("target")], bin.path))
  }

  /** The non-test-binary loop over the flattened `bins`, starting from `s`. */
  function NonTestRun(env: Environment, s: Snapshot, target: Path, bins: seq<RustNonTestBinary>): Run {
    if bins == [] then Done(s)
    else
      var r := NonTestRun(env, s, target, bins[..|bins| - 1]);
      if r.outcome.Fail? then r
      else
        var bin := bins[|bins| - 1];
        var src := NonTestSource(env, target, bin);
        Bump(AppendPath(env, r.snap, src, NonTestDest(env, bin), env.fs(src)))
  }

  // ---------------------------------------------------------------------------
  // The directory walk (`append_dir_all`)
  // ---------------------------------------------------------------------------

  /**
   * An element of the walk's stack: a path, the node found there, and the
   * two type flags recorded when it was pushed.
   */
  datatype Pending = Pending(path: Path, node: Node, isDir: bool, isSymlink: bool)

  /** A popped element is listed, not appended, when it is a directory or a followed link to one. */
  predicate Descends(follow: bool, p: Pending) {
    p.isDir || (p.isSymlink && follow && IsDir(p.node))
  }

  /** The stack element pushed for one directory entry. */
  function ChildPending(dir: Path, e: DirEntry): Pending {
    Pending(dir + [Normal(e.name)], e.node, e.node.Dir?, e.node.Symlink?)
  }

  function StackSize(stack: seq<Pending>): nat {
    if stack == [] then 0 else StackSize(stack[..|stack| - 1]) + Size(stack[|stack| - 1].node)
  }

  /** The elements pushed for the entries `es` of directory `dir`, in enumeration order. */
  function Children(dir: Path, es: seq<DirEntry>): (r: seq<Pending>)
    ensures |r| == |es|
    ensures forall k :: 0 <= k < |es| ==> r[k] == ChildPending(dir, es[k])
  {
    if es == [] then []
    else
      var r := Children(dir, es[..|es| - 1]) + [ChildPending(dir, es[|es| - 1])];
      assert r[..|r| - 1] == Children(dir, es[..|es| - 1]);
      r
  }

  lemma {:induction false} ChildrenSize(dir: Path, es: seq<DirEntry>)
    ensures StackSize(Children(dir, es)) == EntriesSize(es)
  {
    if es != [] {
      var r := Children(dir, es);
      assert r[..|r| - 1] == Children(dir, es[..|es| - 1]);
      ChildrenSize(dir, es[..|es| - 1]);
    }
  }

  /**
   * Iterating a listing: stops at the first entry the iterator fails on or
   * whose type cannot be read; otherwise every entry's stack element.
   */
  function ListChildren(dir: Path, es: seq<DirEntry>): (r: Result<seq<Pending>, ArchiveCreateError>)
    ensures r.Ok? <==> forall k :: 0 <= k < |es| ==> es[k].ok && es[k].typeKnown
    ensures r.Ok? ==> r.value == Children(dir, es)
  {
    if es == [] then Ok([])
    else
      match ListChildren(dir, es[..|es| - 1])
      case Err(e) => Err(e)
      case Ok(items) =>
        var e := es[|es| - 1];
        if !e.ok then Err(DirEntryRead(dir))
        else if !e.typeKnown then Err(InputFileRead(dir + [Normal(e.name)], None))
        else Ok(items + [ChildPending(dir, e)])
  }

  predicate AllBelow(root: Path, stack: seq<Pending>) {
    forall k :: 0 <= k < |stack| ==> root <= stack[k].path
  }

  /** Destination of a leaf: `rel` joined with the leaf's path relative to the walk's root. */
  function LeafDest(rel: Path, root: Path, src: Path): Path
    requires root <= src
  {
    Join(rel, StripPrefix(src, root).value)
  }

  /** Processing one popped element and, for a directory, everything pushed for it. */
  function WalkItem(env: Environment, s: Snapshot, rel: Path, root: Path, follow: bool, p: Pending): Run
    requires root <= p.path
    decreases Size(p.node), 0
  {
    if Descends(follow, p) then
      match ReadDir(p.node)
      case None => Run(s, Fail(InputFileRead(p.path, Some(true))))
      case Some(es) =>
        match ListChildren(p.path, es)
        case Err(e) => Run(s, Fail(e))
        case Ok(items) =>
          ChildrenSize(p.path, es);
          WalkStack(env, s, rel, root, follow, items)
    else
      AppendPath(env, s, p.path, LeafDest(rel, root, p.path), p.node)
  }

  /** Running the walk's loop on `stack` (top at the end) until it is empty or a step fails. */
  function WalkStack(env: Environment, s: Snapshot, rel: Path, root: Path, follow: bool, stack: seq<Pending>): Run
    requires AllBelow(root, stack)
    decreases StackSize(stack), 1
  {
    if stack == [] then Done(s)
    else
      var r := WalkItem(env, s, rel, root, follow, stack[|stack| - 1]);
      if r.outcome.Fail? then r else WalkStack(env, r.snap, rel, root, follow, stack[..|stack| - 1])
  }

  /** The first element of a walk: the root, marked as a directory and not a link. */
  function RootPending(env: Environment, src: Path): Pending {
    Pending(src, env.fs(src), true, false)
  }

  /** `append_dir_all(rel, src, follow)` from snapshot `s`. */
  function AppendDirAll(env: Environment, s: Snapshot, rel: Path, src: Path, follow: bool): Run {
    WalkItem(env, s, rel, src, follow, RootPending(env, src))
  }

  // ---------------------------------------------------------------------------
  // Linked paths and the whole of `archive`
  // ---------------------------------------------------------------------------

  /** Where a linked path is read from: the mapped `target_dir/<linked>`. */
  function LinkedSource(env: Environment, target: Path, linked: Path): Path {
    env.mapBinary(Join(target, linked))
  }

  /** The prefix under which a linked path's files are stored: `target/<linked>`. */
  function LinkedDest(env: Environment, linked: Path): Path {
    env.toForwardSlash(Join([Normal("target")], linked))
  }

  /** The linked-path loop over `links`, starting from `s`. */
  function LinkedRun(env: Environment, s: Snapshot, target: Path, links: seq<Path>): Run {
    if links == [] then Done(s)
    else
      var r := LinkedRun(env, s, target, links[..|links| - 1]);
      if r.outcome.Fail? then r
      else
        var linked := links[|links| - 1];
        AppendDirAll(env, r.snap, LinkedDest(env, linked), LinkedSource(env, target, linked), true)
  }

  /**
   * What `archive` demands of its input and otherwise panics on: the target
   * directory has a parent, and every test binary lies below that parent.
   */
  predicate ArchivePre(bl: BinaryList) {
    var target := bl.rustBuildMeta.targetDirectory;
    Parent(target).Some? && AllWithin(Parent(target).value, bl.rustBinaries)
  }

  /** The test-binary, non-test-binary and linked-path loops, from snapshot `s`. */
  function BodyRun(env: Environment, s: Snapshot, bl: BinaryList): Run
    requires ArchivePre(bl)
  {
    var meta := bl.rustBuildMeta;
    var r1 := PrimaryRun(env, s, Parent(meta.targetDirectory).value, bl.rustBinaries);
    if r1.outcome.Fail? then r1
    else
      var r2 := NonTestRun(env, r1.snap, meta.targetDirectory, Flatten(meta.nonTestBinaries));
      if r2.outcome.Fail? then r2
      else LinkedRun(env, r2.snap, meta.targetDirectory, meta.linkedPaths)
  }

  /** `Archiver::archive` on a freshly built archiver: the final state and the count or error. */
  function ArchiveRun(env: Environment, bl: BinaryList, cargoMetadata: Text, timestamp: nat): (r: (Snapshot, Result<nat, ArchiveCreateError>))
    requires ArchivePre(bl)
  {
    match env.serialize(bl)
    case Err(cause) => (Fresh, Err(CreateBinaryList(cause)))
    case Ok(json) =>
      var r1 := AppendMemory(env, timestamp, Fresh, BinariesMetadataFileName, json);
      if r1.outcome.Fail? then (r1.snap, Err(r1.outcome.error))
      else
        var r2 := AppendMemory(env, timestamp, r1.snap, CargoMetadataFileName, cargoMetadata);
        if r2.outcome.Fail? then (r2.snap, Err(r2.outcome.error))
        else
          var r3 := BodyRun(env, r2.snap, bl);
          if r3.outcome.Fail? then (r3.snap, Err(r3.outcome.error))
          else if !env.sink.finishOk then (r3.snap, Err(OutputArchiveIo))
          else (r3.snap, Ok(r3.snap.count))
  }
}
