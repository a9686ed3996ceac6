/**
 * What the archiver reads: the binary list it is asked to archive, the
 * filesystem the files come from, and the collaborators whose code lies
 * outside the archiver (path mapping, forward-slash conversion, JSON
 * serialisation, the compressed output stream and the atomic output file).
 */
module Inputs {
  import opened Results
  import opened Paths

  newtype byte = x: int | 0 <= x < 256

  /** Text as its UTF-8 bytes, so that a length is a byte count as in Rust's `str::len`. */
  type Text = seq<byte>

  // ---------------------------------------------------------------------------
  // Filesystem
  // ---------------------------------------------------------------------------

  /**
   * A finite, acyclic filesystem tree. A symbolic link holds the node it
   * resolves to (Missing when it dangles). `readable` says whether the file's
   * bytes can be read; `listable` whether the directory can be opened for
   * listing.
   */
  datatype Node =
    | File(contents: seq<byte>, readable: bool)
    | Dir(entries: seq<DirEntry>, listable: bool)
    | Symlink(target: Node)
    | Missing

  /**
   * One result of iterating a directory listing: `ok` is false when the
   * iterator itself yields an error at this point, `typeKnown` is false when
   * the entry's file type cannot be determined.
   */
  datatype DirEntry = DirEntry(name: string, node: Node, ok: bool, typeKnown: bool)

  /** A size measure for termination: every node counts at least one. */
  function Size(n: Node): (r: nat)
    ensures r >= 1
  {
    match n
    case File(_, _) => 1
    case Missing => 1
    case Symlink(t) => 1 + Size(t)
    case Dir(es, _) => 1 + EntriesSize(es)
  }

  function EntriesSize(es: seq<DirEntry>): nat
  {
    if es == [] then 0
    else EntriesSize(es[..|es| - 1]) + Size(es[|es| - 1].node)
  }

  /** The node a path finally denotes once every symbolic link is followed. */
  function Resolve(n: Node): (r: Node)
    ensures !r.Symlink?
    ensures Size(r) <= Size(n)
    ensures n.Dir? || n.File? || n.Missing? ==> r == n
  {
    if n.Symlink? then Resolve(n.target) else n
  }

  /** `Path::is_dir`: true when the path, following links, is a directory (false on any error). */
  predicate IsDir(n: Node) {
    Resolve(n).Dir?
  }

  /** `read_dir`: following links, the entries of a directory that can be opened. */
  function ReadDir(n: Node): (r: Option<seq<DirEntry>>)
    ensures r.Some? ==> Resolve(n) == Dir(r.value, true)
    ensures r.Some? ==> EntriesSize(r.value) < Size(n)
  {
    match Resolve(n)
    case Dir(es, listable) => if listable then Some(es) else None
    case _ => None
  }

  /**
   * Whether the tar builder can read what a path denotes when appending it:
   * links are followed, a file must be readable, a directory yields a header
   * only, a missing target fails.
   */
  predicate Appendable(n: Node) {
    match Resolve(n)
    case File(_, readable) => readable
    case Dir(_, _) => true
    case _ => false
  }

  /** The bytes appended for a path: the contents of the file it resolves to. */
  function DataOf(n: Node): seq<byte> {
    if Resolve(n).File? then Resolve(n).contents else []
  }

  // ---------------------------------------------------------------------------
  // The binary list
  // ---------------------------------------------------------------------------

  /** A test binary; its path is absolute and lies inside the target directory. */
  datatype RustTestBinary = RustTestBinary(path: Path)

  /** A non-test build output; its path is relative to the target directory. */
  datatype RustNonTestBinary = RustNonTestBinary(path: Path)

  /**
   * Build metadata. `nonTestBinaries` is a map from an arbitrary key to a set
   * of binaries and `linkedPaths` a set of paths relative to the target
   * directory; both are given in their iteration order.
   */
  datatype RustBuildMeta = RustBuildMeta(
    targetDirectory: Path,
    nonTestBinaries: seq<(string, seq<RustNonTestBinary>)>,
    linkedPaths: seq<Path>)

  datatype BinaryList = BinaryList(rustBinaries: seq<RustTestBinary>, rustBuildMeta: RustBuildMeta)

  /** Why the binary list could not be turned into JSON. */
  datatype WriteTestListError = WriteTestListError(message: string)

  // ---------------------------------------------------------------------------
  // The environment
  // ---------------------------------------------------------------------------

  /**
   * How the output side behaves: whether the atomic file's staging file can
   * be created, whether the Zstandard encoder can be set up, how many entries
   * the stream accepts before a write fails (None: no limit), whether
   * finishing the stream succeeds and whether the staged file can be
   * published.
   */
  datatype OutputSink = OutputSink(
    stagingOk: bool,
    encoderOk: bool,
    capacity: Option<nat>,
    finishOk: bool,
    commitOk: bool)

  /** The stream accepts one more entry after `written` have been written. */
  predicate HasRoom(sink: OutputSink, written: nat) {
    sink.capacity.None? || written < sink.capacity.value
  }

  /** The stream accepts `written` entries in all. */
  predicate Fits(sink: OutputSink, written: nat) {
    sink.capacity.None? || written <= sink.capacity.value
  }

  /**
   * The archiver's collaborators: what lies at each path, `PathMapper::map_binary`,
   * `convert_rel_path_to_forward_slash`, pretty JSON serialisation of the
   * binary list, and the output stream.
   */
  datatype Environment = Environment(
    fs: Path -> Node,
    mapBinary: Path -> Path,
    toForwardSlash: Path -> Path,
    serialize: BinaryList -> Result<Text, WriteTestListError>,
    sink: OutputSink)
}
