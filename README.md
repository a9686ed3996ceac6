# nextest test-archive creation, modelled in Dafny

This project models how cargo-nextest builds a reusable test archive. The
source is `nextest-runner/src/reuse_build/archiver.rs`. The model covers:

- **Format detection.** `ArchiveFormat::autodetect` does a first-match
  suffix search of the output file's name over the `SUPPORTED_FORMATS` table.
- **The `Archiver` object.** It holds a tar builder and a `file_count`
  counter, and its methods update both in place:
  - `new` sets up the output stream and captures one timestamp.
  - `append_from_memory` appends an in-memory entry.
  - `append_path` appends a file read from disk.
  - `append_dir_all` is a depth-first walk of a directory with an explicit stack.
  - `archive` writes, in order:
    - the binaries metadata;
    - the cargo metadata;
    - the test binaries;
    - the non-test binaries, flattened over their groups;
    - every file below each linked path.

    It then finishes the stream and returns the counter.
- **`archive_to_file`.** It runs the archiver inside an atomic output file and
  reports an `ArchiveStarted` event and an `Archived` event to a callback.

Modules:

- `Paths` (paths.dfy) models paths as the component sequences
  `Path::components` yields. `file_name`, `parent`, `join` and
  `strip_prefix` are defined on components.
- `Inputs` (inputs.dfy) holds what the archiver reads:
  - The binary list.
  - The filesystem, as a finite acyclic tree of files, directories and
    symbolic links. Each directory entry carries flags saying whether
    iterating to it and reading its type succeed.
  - The collaborators whose code lies outside the archiver, as function
    fields of an `Environment`: the path lookup, `PathMapper::map_binary`,
    forward-slash conversion and JSON serialisation of the binary list.
  - An `OutputSink` record saying which output operations fail:
    - creating the atomic file's staging file;
    - setting up the encoder;
    - the k-th write to the stream;
    - finishing the stream;
    - publishing the file.
- `ArchiveFormats` (formats.dfy) holds the format table and detection.
- `ArchiveSpec` (archive_spec.dfy) describes every step of the archiver as a
  function on a `Snapshot`. A snapshot is the sequence of entries handed to the
  tar builder plus the counter. Each step function returns the new snapshot and
  the step's outcome. The directory walk is the mutual recursion
  `WalkItem`/`WalkStack` over the walk's stack.
- `Archiving` (archiver.dfy) is the imperative model:
  - the class `Archiver`, with fields `entries` and `fileCount` that its
    methods update;
  - `ArchiveToFile`.

  Every method is proved to end in the state the corresponding `ArchiveSpec`
  function computes. The loops of `Archive` and `AppendDirAll` carry
  invariants tying the state so far to those functions.
- `StepLemmas` (step_lemmas.dfy) holds the one-step facts those loop proofs
  use. Example: popping the stack, or stopping at an error.
- `StepEffects`, `WalkProofs` and `ArchiveProofs` state what the steps
  produce, against independent reference definitions:
  - `StepEffects` has the generic "append a planned sequence, stop at the
    first failure" shape and how such steps compose.
  - `WalkProofs` has recursive enumerations of a directory tree's leaves.
  - `ArchiveProofs` has the list of planned entries computed directly from
    the binary list.

**What `file_count` counts.** The count is reported to the caller as the
number of files archived (`ArchiveEvent::Archived { file_count }`, lines
96-100). So one would expect it to equal the number of entries written:
2 + P + S + F, where

- 2 is the metadata entries;
- P is the test binaries;
- S is the non-test binaries;
- F is the files below linked paths.

In the code, `append_path` increments `file_count` (line 308). The
test-binary and non-test-binary loops each increment it again after calling
`append_path` (lines 176 and 196). So a successful `archive` returns
2 + 2P + 2S + F while it appends 2 + P + S + F entries. The model follows the
code. `ArchiveProofs.ArchiveEntryCount` and `ArchiveProofs.ArchiveFileCount`
state the two quantities separately. `ArchiveProofs.OneBinaryCountsTwice`
shows the smallest case.

**Group count.** `ArchiveStarted.non_test_binary_count` is the length of the
`non_test_binaries` map, i.e. the number of groups, not the number of
non-test binaries (line 64). `Archiving.StartedEvent` uses the group count.

## Model

| member | source | states |
|---|---|---|
| ArchiveFormats.FirstMatch | nextest-runner/src/reuse_build/archiver.rs:35-39 | the index found is the first table pair whose extension the name ends with: that pair matches and no earlier one does; the table length when none matches |
| ArchiveFormats.Autodetect | nextest-runner/src/reuse_build/archiver.rs:29-44 | succeeds iff the path's file name (or "" when it has none) ends with some supported extension, and then returns the format of the first pair that matches (no earlier pair matches); otherwise the error carries the file name only |
| ArchiveFormats.AutodetectIgnoresDirectories | nextest-runner/src/reuse_build/archiver.rs:34 | only the last component decides: any directory prefix leaves the result unchanged |
| ArchiveFormats.AutodetectExamples | nextest-runner/src/reuse_build/archiver.rs:317-329 | `foo.tar.zst` and `foo/bar.tar.zst` detect as TarZst; `foo` fails naming "foo"; `/` fails naming "" |
| Archiving.Archiver.New | nextest-runner/src/reuse_build/archiver.rs:116-152 | succeeds iff the encoder can be set up, else OutputArchiveIo; a new archiver holds no entries, a zero counter and the timestamp `now` |
| Archiving.Archiver.AppendFromMemory | nextest-runner/src/reuse_build/archiver.rs:236-248 | new state is `AppendMemory` of the old: one entry with size = contents length, mtime = the archiver's timestamp, mode 0o664, counter +1; a failed write is OutputArchiveIo and changes nothing |
| Archiving.Archiver.AppendPath | nextest-runner/src/reuse_build/archiver.rs:300-310 | new state is `AppendPath` of the old: the file's data stored under `dest`, counter +1; any failure is InputFileRead(src, Some(false)) and changes nothing |
| Archiving.Archiver.PushEntries | nextest-runner/src/reuse_build/archiver.rs:263-289 | succeeds iff every listed entry can be iterated and typed, and then pushes one element per entry in listing order; otherwise returns the error of the first failing entry (DirEntryRead(dir) or InputFileRead(child, None)) |
| Archiving.Archiver.AppendDirAll | nextest-runner/src/reuse_build/archiver.rs:251-298 | the stack loop ends in exactly the state and outcome of the recursive walk `AppendDirAll` from the old state |
| Archiving.Archiver.Archive | nextest-runner/src/reuse_build/archiver.rs:154-230 | final state and result are exactly `ArchiveRun` of the binary list: metadata, then the three loops, then finishing the stream |
| Archiving.ArchiveToFile | nextest-runner/src/reuse_build/archiver.rs:50-104 | ArchiveStarted with the three list lengths is reported first whenever staging succeeds; the file is published with the archiver's entries, and Archived with the returned count is reported, exactly when staging, the start report, the archiver and the publish all succeed; otherwise the old file stays and the error is classified (staging/publish: OutputArchiveIo, callback: ReporterIo, archiver errors passed through) |
| ArchiveSpec.Children | nextest-runner/src/reuse_build/archiver.rs:284-288 | one stack element per directory entry, in listing order, with the entry's path and type flags |
| ArchiveSpec.ListChildren | nextest-runner/src/reuse_build/archiver.rs:263-289 | the listing succeeds iff every entry can be iterated and typed, and then yields exactly `Children` |
| StepLemmas.WalkStackConcat | nextest-runner/src/reuse_build/archiver.rs:257-259 | the stack is last-in first-out: elements pushed on top are all processed before the ones below resume |
| StepLemmas.ListChildrenStops | nextest-runner/src/reuse_build/archiver.rs:268-283 | the listing reports its first failing entry; later entries do not change the error |
| StepLemmas.WalkPopFails | nextest-runner/src/reuse_build/archiver.rs:263-283 | a directory that cannot be opened, or whose listing fails, ends the walk with that error and nothing more appended |
| StepLemmas.WalkPopDir | nextest-runner/src/reuse_build/archiver.rs:262-290 | a listed directory is replaced on the stack by its children: no entry for the directory, the walk's measure decreases |
| StepEffects.AppendPathEffect | nextest-runner/src/reuse_build/archiver.rs:300-310 | one append succeeds iff the file can be read and the stream has room, then adds exactly its entry; the loops' extra bump makes it count twice; a failure reports the file's path |
| WalkProofs.DirFiles | nextest-runner/src/reuse_build/archiver.rs:260 | every path the walk reaches lies below the root, so stripping the root's prefix never fails |
| WalkProofs.VisitReversesLeaves | nextest-runner/src/reuse_build/archiver.rs:257-295 | the walk appends the tree's leaves in exactly the reverse of their recursive enumeration order |
| WalkProofs.VisitPermutesLeaves | nextest-runner/src/reuse_build/archiver.rs:257-295 | every leaf (file, link to a file, or unfollowed link to a directory) is appended exactly once, and no directory is (multiset equality with the enumeration) |
| WalkProofs.WalkItemEffect | nextest-runner/src/reuse_build/archiver.rs:259-295 | processing one element succeeds iff every directory below can be listed, every leaf read and the stream takes them all; it then appends each leaf at `rel` + its path below the root, counting each once; on failure only a prefix of those |
| WalkProofs.AppendDirAllEffect | nextest-runner/src/reuse_build/archiver.rs:251-298 | `append_dir_all` as a whole: the root is treated as a directory; the same iff, entries and counting as for one element |
| WalkProofs.AppendDirAllNeedsDirectory | nextest-runner/src/reuse_build/archiver.rs:257-269 | a root that is not a directory fails with InputFileRead(root, Some(true)) and appends nothing |
| ArchiveProofs.PrimaryRunEffect | nextest-runner/src/reuse_build/archiver.rs:167-177 | the test-binary loop succeeds iff every binary can be read and the stream takes them all, appends them in list order under their path relative to the target directory's parent, adds 2 per binary, and on failure stops at the binary it could not read, reporting its path |
| ArchiveProofs.NonTestRunEffect | nextest-runner/src/reuse_build/archiver.rs:178-197 | the same for non-test binaries, read from the mapped `target_dir/<path>` and stored at `target/<path>` |
| ArchiveProofs.FlattenKeepsGroups | nextest-runner/src/reuse_build/archiver.rs:178-184 | flattening keeps every group's binaries in group order: its length is the sum of the group sizes, group g comes right after the flattening of the groups before it, and every binary of every group occurs in it |
| ArchiveProofs.LinkedRunEffect | nextest-runner/src/reuse_build/archiver.rs:199-212 | the linked-path loop walks each mapped `target_dir/<linked>` with links followed, one after another, storing leaves under `target/<linked>`; succeeds iff every walk is clean and the stream takes all leaves; F entries in all |
| ArchiveProofs.BodyRunEffect | nextest-runner/src/reuse_build/archiver.rs:164-212 | the three loops in sequence: test binaries, then flattened non-test binaries, then linked paths; on success the counter rose by 2P + 2S + F |
| ArchiveProofs.ArchiveEffect | nextest-runner/src/reuse_build/archiver.rs:154-229 | a serialisation failure is CreateBinaryList with nothing appended; otherwise success iff every input is readable, the stream takes every entry and finishes, and then exactly the planned entries are appended in order and the counter is returned; a failure leaves a prefix |
| ArchiveProofs.ArchiveEntryCount | nextest-runner/src/reuse_build/archiver.rs:154-212 | a successful archive holds 2 + P + S + F entries |
| ArchiveProofs.ArchiveFileCount | nextest-runner/src/reuse_build/archiver.rs:154-229 | a successful archive returns 2 + 2P + 2S + F, i.e. the number of entries plus P + S |
| ArchiveProofs.OneBinaryCountsTwice | nextest-runner/src/reuse_build/archiver.rs:167-177 | one readable test binary and nothing else: three entries appended, count 4 returned |
| ArchiveProofs.ArchiveLayout | nextest-runner/src/reuse_build/archiver.rs:155-162 | the binaries metadata leads and the cargo metadata follows, each with size = its length, the one timestamp and mode 0o664; every later entry is read from disk |

## Left out

- Compression: the Zstandard encoder (level, checksum frames, thread count),
  the `BufWriter` and the three finishing calls are not modelled. Only their
  failures are, as `OutputArchiveIo`, through the sink's `encoderOk` and
  `finishOk` flags and the per-write capacity.
- `zstd_level` is accepted by the real `archive_to_file` but does not appear
  in the model, since only the encoder uses it.
- The tar header byte layout and checksum, and how `append_data` and
  `append_path_with_name` encode an entry. An entry is an abstract record
  (name, and either header fields and contents, or source path and bytes).
- The atomic file's temporary-file and rename mechanics. They are modelled
  only as "the staged entries are published on success; otherwise the output
  path keeps what it held".
- Clocks: `SystemTime::now` and `Instant::now` become the parameters `now`
  and `elapsed`.
- JSON serialisation of the binary list, `PathMapper::map_binary`,
  `convert_rel_path_to_forward_slash` and the filesystem lookup are opaque
  functions of the `Environment`. The entry-name constants come from
  reuse_build/mod.rs, which is not part of this model. The model gives them
  distinct placeholder values.
- Parsing path strings into components, and UTF-8 validity of directory
  entry names. Those are standard-library behaviour.
- Symbolic-link cycles and a filesystem that changes during the walk. The
  filesystem is a finite acyclic tree, so the walk terminates by a size
  measure. Each stack element carries the node found at its path.
- I/O error payloads (`io::Error`) are dropped from the error variants; the
  variant and its path are kept.
- The `expect` calls in `archive` are panics, not errors. They become the
  precondition `ArchivePre`: the target directory has a parent, and every
  test binary lies below it. This is slightly stronger than what makes the
  source panic. The checks run only inside the test-binary loop, so with no
  test binaries a root target directory does not panic. A binary outside the
  parent is never reached if an earlier binary fails to append.
- Archiving.Archiver.Archive: `file_count` is a `usize`. The model uses
  unbounded naturals and does not model overflow, which would need more
  than 2^64 appends.
- Archiving.Archiver.Archive: modelled only on a freshly built archiver (the
  source consumes the archiver, so it is never called twice).
