/**
 * What `Archiver::archive` produces, stated against the binary list: the
 * entries it appends, in order, and the count it returns. The two metadata
 * files come first, then the test binaries, then the flattened non-test
 * binaries, then every leaf below each linked path. The returned count is
 * 2 + 2P + 2S + F while only 2 + P + S + F entries are appended (P test
 * binaries, S non-test binaries, F leaves below linked paths), because both
 * `append_path` and the two binary loops bump the counter.
 */
module ArchiveProofs {
  import opened Results
  import opened Paths
  import opened Inputs
  import opened ArchiveSpec
  import opened StepEffects
  import opened WalkProofs

  // ---------------------------------------------------------------------------
  // The test-binary loop
  // ---------------------------------------------------------------------------

  /** The entry for a test binary: read from its own path, stored below the target directory's parent. */
  function PrimaryEntry(env: Environment, base: Path, bin: RustTestBinary): Entry
    requires base <= bin.path
  {
    Entry(PrimaryDest(env, base, bin), Disk(bin.path, DataOf(env.fs(bin.path))))
  }

  function PrimaryEntries(env: Environment, base: Path, bins: seq<RustTestBinary>): (r: seq<Entry>)
    requires AllWithin(base, bins)
    ensures |r| == |bins|
    ensures forall k :: 0 <= k < |bins| ==> r[k] == PrimaryEntry(env, base, bins[k])
  {
    if bins == [] then [] else PrimaryEntries(env, base, bins[..|bins| - 1]) + [PrimaryEntry(env, base, bins[|bins| - 1])]
  }

  predicate PrimaryReadable(env: Environment, bins: seq<RustTestBinary>) {
    forall k :: 0 <= k < |bins| ==> Appendable(env.fs(bins[k].path))
  }

  /**
   * The test-binary loop succeeds exactly when every binary can be read and
   * the output takes them all; it appends them in list order, adds two to
   * the counter for each, and on failure stops at the first binary it could
   * not append, reporting that binary's path.
   */
  lemma {:induction false} PrimaryRunEffect(env: Environment, s: Snapshot, base: Path, bins: seq<RustTestBinary>)
    requires AllWithin(base, bins) && Fits(env.sink, |s.entries|)
    ensures Effect(env, s, PrimaryRun(env, s, base, bins), PrimaryReadable(env, bins), PrimaryEntries(env, base, bins), 2)
    ensures StopsAtSource(s, PrimaryRun(env, s, base, bins), PrimaryEntries(env, base, bins))
  {
    if bins == [] {
      assert s.entries + [] == s.entries;
    } else {
      var front := bins[..|bins| - 1];
      var bin := bins[|bins| - 1];
      var e := [PrimaryEntry(env, base, bin)];
      PrimaryRunEffect(env, s, base, front);
      var r0 := PrimaryRun(env, s, base, front);
      var r1 := ArchiveSpec.AppendPath(env, r0.snap, bin.path, PrimaryDest(env, base, bin), env.fs(bin.path));
      AppendPathEffect(env, r0.snap, bin.path, PrimaryDest(env, base, bin), env.fs(bin.path));
      EffectThen(env, s, r0, PrimaryReadable(env, front), PrimaryEntries(env, base, front),
                 Bump(r1), Appendable(env.fs(bin.path)), e, 2);
      StopsThen(env, s, r0, PrimaryReadable(env, front), PrimaryEntries(env, base, front), Bump(r1), e);
      assert PrimaryReadable(env, bins) == (PrimaryReadable(env, front) && Appendable(env.fs(bin.path)));
    }
  }

  // ---------------------------------------------------------------------------
  // The non-test-binary loop
  // ---------------------------------------------------------------------------

  /** The entry for a non-test binary: read from the mapped `target_dir/<path>`, stored at `target/<path>`. */
  function NonTestEntry(env: Environment, target: Path, bin: RustNonTestBinary): Entry {
    var src := NonTestSource(env, target, bin);
    Entry(NonTestDest(env, bin), Disk(src, DataOf(env.fs(src))))
  }

  function NonTestEntries(env: Environment, target: Path, bins: seq<RustNonTestBinary>): (r: seq<Entry>)
    ensures |r| == |bins|
    ensures forall k :: 0 <= k < |bins| ==> r[k] == NonTestEntry(env, target, bins[k])
  {
    if bins == [] then [] else NonTestEntries(env, target, bins[..|bins| - 1]) + [NonTestEntry(env, target, bins[|bins| - 1])]
  }

  predicate NonTestReadable(env: Environment, target: Path, bins: seq<RustNonTestBinary>) {
    forall k :: 0 <= k < |bins| ==> Appendable(env.fs(NonTestSource(env, target, bins[k])))
  }

  /** The non-test-binary loop, like the test-binary loop: in order, counted twice, stopping at the first failure. */
  lemma {:induction false} NonTestRunEffect(env: Environment, s: Snapshot, target: Path, bins: seq<RustNonTestBinary>)
    requires Fits(env.sink, |s.entries|)
    ensures Effect(env, s, NonTestRun(env, s, target, bins), NonTestReadable(env, target, bins),
                   NonTestEntries(env, target, bins), 2)
    ensures StopsAtSource(s, NonTestRun(env, s, target, bins), NonTestEntries(env, target, bins))
  {
    if bins == [] {
      assert s.entries + [] == s.entries;
    } else {
      var front := bins[..|bins| - 1];
      var bin := bins[|bins| - 1];
      var src := NonTestSource(env, target, bin);
      var e := [NonTestEntry(env, target, bin)];
      NonTestRunEffect(env, s, target, front);
      var r0 := NonTestRun(env, s, target, front);
      var r1 := ArchiveSpec.AppendPath(env, r0.snap, src, NonTestDest(env, bin), env.fs(src));
      AppendPathEffect(env, r0.snap, src, NonTestDest(env, bin), env.fs(src));
      EffectThen(env, s, r0, NonTestReadable(env, target, front), NonTestEntries(env, target, front),
                 Bump(r1), Appendable(env.fs(src)), e, 2);
      StopsThen(env, s, r0, NonTestReadable(env, target, front), NonTestEntries(env, target, front), Bump(r1), e);
      assert NonTestReadable(env, target, bins) == (NonTestReadable(env, target, front) && Appendable(env.fs(src)));
    }
  }

  /** The number of binaries over all groups. */
  function GroupSizes(groups: seq<(string, seq<RustNonTestBinary>)>): nat {
    if groups == [] then 0 else |groups[0].1| + GroupSizes(groups[1..])
  }

  /**
   * Flattening keeps every group's binaries, in group order: its length is
   * the sum of the group sizes, and group `g` follows exactly the flattening
   * of the groups before it.
   */
  lemma {:induction false} FlattenKeepsGroups(groups: seq<(string, seq<RustNonTestBinary>)>)
    ensures |Flatten(groups)| == GroupSizes(groups)
    ensures forall g :: 0 <= g < |groups| ==> Flatten(groups[..g]) + groups[g].1 <= Flatten(groups)
    ensures forall g, k :: 0 <= g < |groups| && 0 <= k < |groups[g].1| ==> groups[g].1[k] in Flatten(groups)
  {
    if groups != [] {
      var rest := groups[1..];
      FlattenKeepsGroups(rest);
      forall g | 0 <= g < |groups|
        ensures Flatten(groups[..g]) + groups[g].1 <= Flatten(groups)
      {
        if g == 0 {
          assert groups[..g] == [];
        } else {
          assert groups[g] == rest[g - 1];
          assert groups[..g][1..] == rest[..g - 1];
          assert Flatten(groups[..g]) == groups[0].1 + Flatten(rest[..g - 1]);
          assert Flatten(rest[..g - 1]) + rest[g - 1].1 <= Flatten(rest);
          assert groups[0].1 + (Flatten(rest[..g - 1]) + rest[g - 1].1) <= groups[0].1 + Flatten(rest);
        }
      }
      forall g, k | 0 <= g < |groups| && 0 <= k < |groups[g].1|
        ensures groups[g].1[k] in Flatten(groups)
      {
        var before := Flatten(groups[..g]);
        assert (before + groups[g].1)[|before| + k] == groups[g].1[k];
      }
    }
  }

  // ---------------------------------------------------------------------------
  // The linked-path loop
  // ---------------------------------------------------------------------------

  /** Where the walk for a linked path starts. */
  function LinkedRoot(env: Environment, target: Path, linked: Path): Pending {
    RootPending(env, LinkedSource(env, target, linked))
  }

  /** The leaves below every linked path, each walk's leaves in walk order, one linked path after another. */
  function LinkedEntries(env: Environment, target: Path, links: seq<Path>): seq<Entry> {
    if links == [] then []
    else
      var linked := links[|links| - 1];
      var src := LinkedSource(env, target, linked);
      LinkedEntries(env, target, links[..|links| - 1]) + LeafEntries(LinkedDest(env, linked), src, DirFiles(env, src, true))
  }

  /** F: the number of leaves below the linked paths. */
  function LinkedFileCount(env: Environment, target: Path, links: seq<Path>): nat {
    if links == [] then 0
    else LinkedFileCount(env, target, links[..|links| - 1])
         + |DirFiles(env, LinkedSource(env, target, links[|links| - 1]), true)|
  }

  predicate LinkedClean(env: Environment, target: Path, links: seq<Path>) {
    forall k :: 0 <= k < |links| ==> CleanItem(true, LinkedRoot(env, target, links[k]))
  }

  /**
   * The linked-path loop: each linked path is walked with links followed,
   * one after another; it succeeds exactly when every walk is clean and the
   * output takes all leaves, and it always leaves a prefix of them behind.
   */
  lemma {:induction false} LinkedRunEffect(env: Environment, s: Snapshot, target: Path, links: seq<Path>)
    requires Fits(env.sink, |s.entries|)
    ensures |LinkedEntries(env, target, links)| == LinkedFileCount(env, target, links)
    ensures Effect(env, s, LinkedRun(env, s, target, links), LinkedClean(env, target, links),
                   LinkedEntries(env, target, links), 1)
  {
    if links == [] {
      assert s.entries + [] == s.entries;
    } else {
      var front := links[..|links| - 1];
      var linked := links[|links| - 1];
      var src := LinkedSource(env, target, linked);
      var dest := LinkedDest(env, linked);
      LinkedRunEffect(env, s, target, front);
      var r0 := LinkedRun(env, s, target, front);
      var walk := ArchiveSpec.AppendDirAll(env, r0.snap, dest, src, true);
      if r0.outcome.Pass? {
        AppendDirAllEffect(env, r0.snap, dest, src, true);
      }
      LinkedStep(env, s, target, links);
      EffectThen(env, s, r0, LinkedClean(env, target, front), LinkedEntries(env, target, front),
                 walk, CleanItem(true, LinkedRoot(env, target, linked)),
                 LeafEntries(dest, src, DirFiles(env, src, true)), 1);
    }
  }

  /** One more linked path: its walk runs after the others, and its leaves follow theirs. */
  lemma LinkedStep(env: Environment, s: Snapshot, target: Path, links: seq<Path>)
    requires links != []
    ensures var front := links[..|links| - 1];
      var linked := links[|links| - 1];
      var src := LinkedSource(env, target, linked);
      var r0 := LinkedRun(env, s, target, front);
      && LinkedRun(env, s, target, links)
         == (if r0.outcome.Fail? then r0 else ArchiveSpec.AppendDirAll(env, r0.snap, LinkedDest(env, linked), src, true))
      && LinkedEntries(env, target, links)
         == LinkedEntries(env, target, front) + LeafEntries(LinkedDest(env, linked), src, DirFiles(env, src, true))
      && LinkedFileCount(env, target, links) == LinkedFileCount(env, target, front) + |DirFiles(env, src, true)|
      && LinkedClean(env, target, links) == (LinkedClean(env, target, front) && CleanItem(true, LinkedRoot(env, target, linked)))
  {
    LinkedCleanStep(env, target, links);
  }

  lemma LinkedCleanStep(env: Environment, target: Path, links: seq<Path>)
    requires links != []
    ensures LinkedClean(env, target, links)
         == (LinkedClean(env, target, links[..|links| - 1]) && CleanItem(true, LinkedRoot(env, target, links[|links| - 1])))
  {
    var front := links[..|links| - 1];
    assert forall k :: 0 <= k < |front| ==> front[k] == links[k];
  }

  // ---------------------------------------------------------------------------
  // The whole of `archive`
  // ---------------------------------------------------------------------------

  /** The entries of a complete archive, in order, given the serialised binary list `json`. */
  function ArchiveEntries(env: Environment, bl: BinaryList, json: Text, cargoMetadata: Text, timestamp: nat): seq<Entry>
    requires ArchivePre(bl)
  {
    [MemoryEntry(BinariesMetadataFileName, json, timestamp), MemoryEntry(CargoMetadataFileName, cargoMetadata, timestamp)]
    + BodyEntries(env, bl)
  }

  /** After the metadata: the test binaries, the flattened non-test binaries, the leaves below the linked paths. */
  function BodyEntries(env: Environment, bl: BinaryList): seq<Entry>
    requires ArchivePre(bl)
  {
    var meta := bl.rustBuildMeta;
    PrimaryEntries(env, Parent(meta.targetDirectory).value, bl.rustBinaries)
    + NonTestEntries(env, meta.targetDirectory, Flatten(meta.nonTestBinaries))
    + LinkedEntries(env, meta.targetDirectory, meta.linkedPaths)
  }

  /** Every input of the archive can be read. */
  predicate ArchiveReadable(env: Environment, bl: BinaryList) {
    var meta := bl.rustBuildMeta;
    && PrimaryReadable(env, bl.rustBinaries)
    && NonTestReadable(env, meta.targetDirectory, Flatten(meta.nonTestBinaries))
    && LinkedClean(env, meta.targetDirectory, meta.linkedPaths)
  }

  /** P, S and F of a binary list. */
  function TestBinaryCount(bl: BinaryList): nat {
    |bl.rustBinaries|
  }

  function NonTestBinaryCount(bl: BinaryList): nat {
    |Flatten(bl.rustBuildMeta.nonTestBinaries)|
  }

  function LinkedFiles(env: Environment, bl: BinaryList): nat {
    LinkedFileCount(env, bl.rustBuildMeta.targetDirectory, bl.rustBuildMeta.linkedPaths)
  }

  /** The three loops of `archive` after the metadata entries. */
  lemma BodyRunEffect(env: Environment, s: Snapshot, bl: BinaryList)
    requires ArchivePre(bl) && Fits(env.sink, |s.entries|)
    ensures Reaches(env, s, BodyRun(env, s, bl), ArchiveReadable(env, bl), BodyEntries(env, bl))
    ensures BodyRun(env, s, bl).outcome.Pass? ==>
      BodyRun(env, s, bl).snap.count
      == s.count + 2 * TestBinaryCount(bl) + 2 * NonTestBinaryCount(bl) + LinkedFiles(env, bl)
  {
    var meta := bl.rustBuildMeta;
    var target := meta.targetDirectory;
    var flat := Flatten(meta.nonTestBinaries);
    var r1 := PrimaryRun(env, s, Parent(target).value, bl.rustBinaries);
    var r2 := NonTestRun(env, r1.snap, target, flat);
    var r3 := LinkedRun(env, r2.snap, target, meta.linkedPaths);
    PrimaryRunEffect(env, s, Parent(target).value, bl.rustBinaries);
    if r1.outcome.Pass? {
      NonTestRunEffect(env, r1.snap, target, flat);
      if r2.outcome.Pass? {
        LinkedRunEffect(env, r2.snap, target, meta.linkedPaths);
      }
    }
    ReachesThen3(env, s, r1, PrimaryReadable(env, bl.rustBinaries), PrimaryEntries(env, Parent(target).value, bl.rustBinaries),
                 r2, NonTestReadable(env, target, flat), NonTestEntries(env, target, flat),
                 r3, LinkedClean(env, target, meta.linkedPaths), LinkedEntries(env, target, meta.linkedPaths));
  }

  /**
   * `archive` as a whole. A serialisation failure returns `CreateBinaryList`
   * before anything is appended. Otherwise the run succeeds exactly when
   * every input can be read, the output takes every entry and the stream
   * can be finished; it then has appended exactly the planned entries, in
   * order, and returns its counter. A failed run has appended a prefix of
   * the planned entries and nothing after its error.
   */
  lemma ArchiveEffect(env: Environment, bl: BinaryList, cargoMetadata: Text, timestamp: nat)
    requires ArchivePre(bl)
    ensures var (snap, result) := ArchiveRun(env, bl, cargoMetadata, timestamp);
      match env.serialize(bl)
      case Err(cause) => snap.entries == [] && result == Err(CreateBinaryList(cause))
      case Ok(json) =>
        var planned := ArchiveEntries(env, bl, json, cargoMetadata, timestamp);
        && (result.Ok? <==> ArchiveReadable(env, bl) && Fits(env.sink, |planned|) && env.sink.finishOk)
        && (result.Ok? ==> snap.entries == planned
                           && result.value == snap.count
                                           == 2 + 2 * TestBinaryCount(bl) + 2 * NonTestBinaryCount(bl) + LinkedFiles(env, bl))
        && snap.entries <= planned
  {
    if env.serialize(bl).Ok? {
      var json := env.serialize(bl).value;
      var m1 := MemoryEntry(BinariesMetadataFileName, json, timestamp);
      var m2 := MemoryEntry(CargoMetadataFileName, cargoMetadata, timestamp);
      if HasRoom(env.sink, 0) && HasRoom(env.sink, 1) {
        var s2 := Snapshot([m1, m2], 2);
        ArchiveRunUnfold(env, bl, cargoMetadata, timestamp);
        BodyRunEffect(env, s2, bl);
        FinishEffect(env, s2, BodyRun(env, s2, bl), ArchiveReadable(env, bl), BodyEntries(env, bl),
                     2 * TestBinaryCount(bl) + 2 * NonTestBinaryCount(bl) + LinkedFiles(env, bl));
      }
    }
  }

  /** What `archive` does once both metadata entries are in: the three loops, then finishing the stream. */
  function Finish(env: Environment, r: Run): (Snapshot, Result<nat, ArchiveCreateError>) {
    if r.outcome.Fail? then (r.snap, Err(r.outcome.error))
    else if !env.sink.finishOk then (r.snap, Err(OutputArchiveIo))
    else (r.snap, Ok(r.snap.count))
  }

  lemma ArchiveRunUnfold(env: Environment, bl: BinaryList, cargoMetadata: Text, timestamp: nat)
    requires ArchivePre(bl) && env.serialize(bl).Ok? && HasRoom(env.sink, 0) && HasRoom(env.sink, 1)
    ensures var json := env.serialize(bl).value;
      var s2 := Snapshot([MemoryEntry(BinariesMetadataFileName, json, timestamp),
                          MemoryEntry(CargoMetadataFileName, cargoMetadata, timestamp)], 2);
      ArchiveRun(env, bl, cargoMetadata, timestamp) == Finish(env, BodyRun(env, s2, bl))
  {
    var json := env.serialize(bl).value;
    var m1 := MemoryEntry(BinariesMetadataFileName, json, timestamp);
    var m2 := MemoryEntry(CargoMetadataFileName, cargoMetadata, timestamp);
    var r1 := AppendMemory(env, timestamp, Fresh, BinariesMetadataFileName, json);
    assert r1 == Done(Snapshot([m1], 1));
    assert [m1] + [m2] == [m1, m2];
    assert AppendMemory(env, timestamp, r1.snap, CargoMetadataFileName, cargoMetadata) == Done(Snapshot([m1, m2], 2));
  }

  lemma FinishEffect(env: Environment, s: Snapshot, r: Run, clean: bool, planned: seq<Entry>, extra: nat)
    requires Reaches(env, s, r, clean, planned)
    requires r.outcome.Pass? ==> r.snap.count == s.count + extra
    ensures var (snap, result) := Finish(env, r);
      && (result.Ok? <==> clean && Fits(env.sink, |s.entries + planned|) && env.sink.finishOk)
      && (result.Ok? ==> snap.entries == s.entries + planned && result.value == snap.count == s.count + extra)
      && snap.entries <= s.entries + planned
  {
  }

  /** On success, 2 + P + S + F entries are appended. */
  lemma ArchiveEntryCount(env: Environment, bl: BinaryList, cargoMetadata: Text, timestamp: nat)
    requires ArchivePre(bl)
    requires ArchiveRun(env, bl, cargoMetadata, timestamp).1.Ok?
    ensures |ArchiveRun(env, bl, cargoMetadata, timestamp).0.entries|
         == 2 + TestBinaryCount(bl) + NonTestBinaryCount(bl) + LinkedFiles(env, bl)
  {
    ArchiveEffect(env, bl, cargoMetadata, timestamp);
    var meta := bl.rustBuildMeta;
    LinkedRunEffect(env, Fresh, meta.targetDirectory, meta.linkedPaths);
  }

  /** On success, the returned count is 2 + 2P + 2S + F: each binary is counted twice. */
  lemma ArchiveFileCount(env: Environment, bl: BinaryList, cargoMetadata: Text, timestamp: nat)
    requires ArchivePre(bl)
    requires ArchiveRun(env, bl, cargoMetadata, timestamp).1.Ok?
    ensures ArchiveRun(env, bl, cargoMetadata, timestamp).1.value
         == 2 + 2 * TestBinaryCount(bl) + 2 * NonTestBinaryCount(bl) + LinkedFiles(env, bl)
    ensures ArchiveRun(env, bl, cargoMetadata, timestamp).1.value
         == |ArchiveRun(env, bl, cargoMetadata, timestamp).0.entries| + TestBinaryCount(bl) + NonTestBinaryCount(bl)
  {
    ArchiveEffect(env, bl, cargoMetadata, timestamp);
    ArchiveEntryCount(env, bl, cargoMetadata, timestamp);
  }

  /** Every entry of `es` is read from disk. */
  predicate FromDisk(es: seq<Entry>) {
    forall k :: 0 <= k < |es| ==> es[k].source.Disk?
  }

  lemma {:induction false} LinkedFromDisk(env: Environment, target: Path, links: seq<Path>)
    ensures FromDisk(LinkedEntries(env, target, links))
  {
    if links != [] {
      LinkedFromDisk(env, target, links[..|links| - 1]);
      var l := LinkedEntries(env, target, links);
      var a := LinkedEntries(env, target, links[..|links| - 1]);
      var src := LinkedSource(env, target, links[|links| - 1]);
      var b := LeafEntries(LinkedDest(env, links[|links| - 1]), src, DirFiles(env, src, true));
      assert l == a + b;
      forall k | 0 <= k < |l|
        ensures l[k].source.Disk?
      {
        if k >= |a| {
          assert l[k] == b[k - |a|];
        }
      }
    }
  }

  lemma BodyFromDisk(env: Environment, bl: BinaryList)
    requires ArchivePre(bl)
    ensures FromDisk(BodyEntries(env, bl))
  {
    var meta := bl.rustBuildMeta;
    var target := meta.targetDirectory;
    var e1 := PrimaryEntries(env, Parent(target).value, bl.rustBinaries);
    var e2 := NonTestEntries(env, target, Flatten(meta.nonTestBinaries));
    var e3 := LinkedEntries(env, target, meta.linkedPaths);
    LinkedFromDisk(env, target, meta.linkedPaths);
    var body := e1 + e2 + e3;
    forall k | 0 <= k < |body|
      ensures body[k].source.Disk?
    {
      if k < |e1| {
        assert body[k] == e1[k];
      } else if k < |e1| + |e2| {
        assert body[k] == e2[k - |e1|];
      } else {
        assert body[k] == e3[k - |e1| - |e2|];
      }
    }
  }

  /**
   * The layout of a complete archive: the two metadata entries lead, in this
   * order, both stamped with the one timestamp, mode 0o664 and their exact
   * contents; every later entry is read from disk.
   */
  lemma ArchiveLayout(env: Environment, bl: BinaryList, json: Text, cargoMetadata: Text, timestamp: nat)
    requires ArchivePre(bl)
    ensures var entries := ArchiveEntries(env, bl, json, cargoMetadata, timestamp);
      && |entries| >= 2
      && entries[0] == Entry(BinariesMetadataFileName, Memory(Header(|json|, timestamp, InMemoryMode), json))
      && entries[1] == Entry(CargoMetadataFileName, Memory(Header(|cargoMetadata|, timestamp, InMemoryMode), cargoMetadata))
      && FromDisk(entries[2..])
  {
    var lead := [MemoryEntry(BinariesMetadataFileName, json, timestamp), MemoryEntry(CargoMetadataFileName, cargoMetadata, timestamp)];
    BodyFromDisk(env, bl);
    FromDiskAfter(lead, BodyEntries(env, bl));
  }

  lemma FromDiskAfter(lead: seq<Entry>, rest: seq<Entry>)
    requires FromDisk(rest)
    ensures (lead + rest)[|lead|..] == rest
    ensures FromDisk((lead + rest)[|lead|..])
  {
    assert (lead + rest)[|lead|..] == rest;
  }

  /**
   * One readable test binary and nothing else, with room for everything:
   * three entries are appended but the count returned is four.
   */
  lemma OneBinaryCountsTwice(env: Environment, bin: RustTestBinary, target: Path, cargoMetadata: Text, timestamp: nat)
    requires Parent(target).Some? && Parent(target).value <= bin.path
    requires env.serialize(BinaryList([bin], RustBuildMeta(target, [], []))).Ok?
    requires Appendable(env.fs(bin.path))
    requires env.sink.capacity.None? && env.sink.finishOk
    ensures var bl := BinaryList([bin], RustBuildMeta(target, [], []));
      ArchivePre(bl)
      && |ArchiveRun(env, bl, cargoMetadata, timestamp).0.entries| == 3
      && ArchiveRun(env, bl, cargoMetadata, timestamp).1 == Ok(4)
  {
    var bl := BinaryList([bin], RustBuildMeta(target, [], []));
    ArchiveEffect(env, bl, cargoMetadata, timestamp);
    ArchiveEntryCount(env, bl, cargoMetadata, timestamp);
    ArchiveFileCount(env, bl, cargoMetadata, timestamp);
  }
}
