/**
 * What `append_dir_all` appends, stated against plain recursive traversals
 * of the filesystem tree: the nodes it appends are exactly the tree's
 * leaves, each once, in reverse enumeration order, under the destination
 * `rel/<path relative to src>`; it succeeds exactly when every reached
 * directory can be listed, every reached leaf can be read and the output
 * accepts them all; and a failure leaves a prefix of those entries behind.
 */
module WalkProofs {
  import opened Results
  import opened Paths
  import opened Inputs
  import opened ArchiveSpec
  import opened StepEffects

  // ---------------------------------------------------------------------------
  // Reversal
  // ---------------------------------------------------------------------------

  function Reverse<T>(s: seq<T>): (r: seq<T>)
    ensures |r| == |s|
    ensures forall k :: 0 <= k < |s| ==> r[k] == s[|s| - 1 - k]
  {
    if s == [] then [] else [s[|s| - 1]] + Reverse(s[..|s| - 1])
  }

  lemma ReverseConcat<T>(a: seq<T>, b: seq<T>)
    ensures Reverse(a + b) == Reverse(b) + Reverse(a)
  {
    assert forall k :: 0 <= k < |a + b| ==> Reverse(a + b)[k] == (Reverse(b) + Reverse(a))[k];
  }

  lemma {:induction false} ReversePermutes<T>(s: seq<T>)
    ensures multiset(Reverse(s)) == multiset(s)
  {
    if s != [] {
      ReversePermutes(s[..|s| - 1]);
      assert s == s[..|s| - 1] + [s[|s| - 1]];
    }
  }

  // ---------------------------------------------------------------------------
  // Reference traversals
  // ---------------------------------------------------------------------------

  /**
   * The elements the walk appends for `p`, in the order it appends them: a
   * directory (or a followed link to one) contributes what its entries
   * contribute, last entry first; anything else contributes itself. No
   * directory is ever among them.
   */
  function VisitItem(follow: bool, p: Pending): (r: seq<Pending>)
    ensures forall k :: 0 <= k < |r| ==> p.path <= r[k].path && !Descends(follow, r[k])
    decreases Size(p.node), 0
  {
    if Descends(follow, p) then
      match ReadDir(p.node)
      case None => []
      case Some(es) => VisitEntries(follow, p.path, es)
    else [p]
  }

  function VisitEntries(follow: bool, dir: Path, es: seq<DirEntry>): (r: seq<Pending>)
    ensures forall k :: 0 <= k < |r| ==> dir <= r[k].path && !Descends(follow, r[k])
    decreases EntriesSize(es), 1
  {
    if es == [] then []
    else VisitItem(follow, ChildPending(dir, es[|es| - 1])) + VisitEntries(follow, dir, es[..|es| - 1])
  }

  /** The leaves below `p` in enumeration order, as a recursive listing yields them. */
  function Leaves(follow: bool, p: Pending): seq<Pending>
    decreases Size(p.node), 0
  {
    if Descends(follow, p) then
      match ReadDir(p.node)
      case None => []
      case Some(es) => LeavesOfEntries(follow, p.path, es)
    else [p]
  }

  function LeavesOfEntries(follow: bool, dir: Path, es: seq<DirEntry>): seq<Pending>
    decreases EntriesSize(es), 1
  {
    if es == [] then []
    else LeavesOfEntries(follow, dir, es[..|es| - 1]) + Leaves(follow, ChildPending(dir, es[|es| - 1]))
  }

  /**
   * Whether the walk from `p` can succeed: every directory reached can be
   * opened and its listing yields every entry with its type, and every
   * other node reached can be read.
   */
  predicate CleanItem(follow: bool, p: Pending)
    decreases Size(p.node), 0
  {
    if Descends(follow, p) then
      match ReadDir(p.node)
      case None => false
      case Some(es) =>
        (forall k :: 0 <= k < |es| ==> es[k].ok && es[k].typeKnown) && CleanEntries(follow, p.path, es)
    else Appendable(p.node)
  }

  predicate CleanEntries(follow: bool, dir: Path, es: seq<DirEntry>)
    decreases EntriesSize(es), 1
  {
    es == [] || (CleanItem(follow, ChildPending(dir, es[|es| - 1])) && CleanEntries(follow, dir, es[..|es| - 1]))
  }

  /** The entry appended for a leaf `q` of the walk from `root`. */
  function LeafEntry(rel: Path, root: Path, q: Pending): Entry
    requires root <= q.path
  {
    Entry(LeafDest(rel, root, q.path), Disk(q.path, DataOf(q.node)))
  }

  function LeafEntries(rel: Path, root: Path, qs: seq<Pending>): (r: seq<Entry>)
    requires AllBelow(root, qs)
    ensures |r| == |qs|
    ensures forall k :: 0 <= k < |qs| ==> r[k] == LeafEntry(rel, root, qs[k])
  {
    if qs == [] then [] else LeafEntries(rel, root, qs[..|qs| - 1]) + [LeafEntry(rel, root, qs[|qs| - 1])]
  }

  // ---------------------------------------------------------------------------
  // Order
  // ---------------------------------------------------------------------------

  /** The walk appends the leaves in exactly the reverse of enumeration order. */
  lemma {:induction false} VisitReversesLeaves(follow: bool, p: Pending)
    ensures VisitItem(follow, p) == Reverse(Leaves(follow, p))
    decreases Size(p.node), 0
  {
    if Descends(follow, p) && ReadDir(p.node).Some? {
      VisitEntriesReversesLeaves(follow, p.path, ReadDir(p.node).value);
    }
  }

  lemma {:induction false} VisitEntriesReversesLeaves(follow: bool, dir: Path, es: seq<DirEntry>)
    ensures VisitEntries(follow, dir, es) == Reverse(LeavesOfEntries(follow, dir, es))
    decreases EntriesSize(es), 1
  {
    if es != [] {
      var child := ChildPending(dir, es[|es| - 1]);
      VisitReversesLeaves(follow, child);
      VisitEntriesReversesLeaves(follow, dir, es[..|es| - 1]);
      ReverseConcat(LeavesOfEntries(follow, dir, es[..|es| - 1]), Leaves(follow, child));
    }
  }

  /** Every leaf is appended, and appended exactly once. */
  lemma VisitPermutesLeaves(follow: bool, p: Pending)
    ensures multiset(VisitItem(follow, p)) == multiset(Leaves(follow, p))
  {
    VisitReversesLeaves(follow, p);
    ReversePermutes(Leaves(follow, p));
  }

  // ---------------------------------------------------------------------------
  // The walk against the traversal
  // ---------------------------------------------------------------------------

  lemma LeafEntriesConcat(rel: Path, root: Path, a: seq<Pending>, b: seq<Pending>)
    requires AllBelow(root, a) && AllBelow(root, b)
    ensures AllBelow(root, a + b)
    ensures LeafEntries(rel, root, a + b) == LeafEntries(rel, root, a) + LeafEntries(rel, root, b)
  {
    var l := LeafEntries(rel, root, a + b);
    assert forall k :: 0 <= k < |l| ==> l[k] == (LeafEntries(rel, root, a) + LeafEntries(rel, root, b))[k];
  }

  lemma BelowTransitive(root: Path, dir: Path, qs: seq<Pending>)
    requires root <= dir
    requires forall k :: 0 <= k < |qs| ==> dir <= qs[k].path
    ensures AllBelow(root, qs)
  {
    forall k | 0 <= k < |qs|
      ensures root <= qs[k].path
    {
      assert qs[k].path[..|root|] == qs[k].path[..|dir|][..|root|];
    }
  }

  lemma WalkLeafEffect(env: Environment, s: Snapshot, rel: Path, root: Path, follow: bool, p: Pending)
    requires root <= p.path && !Descends(follow, p)
    ensures AllBelow(root, VisitItem(follow, p))
    ensures Effect(env, s, WalkItem(env, s, rel, root, follow, p), CleanItem(follow, p),
                   LeafEntries(rel, root, VisitItem(follow, p)), 1)
  {
    assert VisitItem(follow, p) == [p];
    LeafEntriesSingle(rel, root, p);
    AppendPathEffect(env, s, p.path, LeafDest(rel, root, p.path), p.node);
  }

  lemma LeafEntriesSingle(rel: Path, root: Path, q: Pending)
    requires root <= q.path
    ensures LeafEntries(rel, root, [q]) == [LeafEntry(rel, root, q)]
  {
  }

  /** A directory that cannot be opened, or whose listing fails, stops the walk with nothing appended. */
  lemma WalkDirFails(env: Environment, s: Snapshot, rel: Path, root: Path, follow: bool, p: Pending)
    requires root <= p.path && Descends(follow, p)
    requires ReadDir(p.node).Some? ==> ListChildren(p.path, ReadDir(p.node).value).Err?
    ensures AllBelow(root, VisitItem(follow, p))
    ensures Effect(env, s, WalkItem(env, s, rel, root, follow, p), CleanItem(follow, p),
                   LeafEntries(rel, root, VisitItem(follow, p)), 1)
  {
    BelowTransitive(root, p.path, VisitItem(follow, p));
  }

  /** A directory whose listing succeeds: what its children's walk does. */
  lemma WalkDirEffect(env: Environment, s: Snapshot, rel: Path, root: Path, follow: bool, p: Pending)
    requires root <= p.path && Descends(follow, p)
    requires ReadDir(p.node).Some? && ListChildren(p.path, ReadDir(p.node).value).Ok?
    requires var es := ReadDir(p.node).value;
      && AllBelow(root, Children(p.path, es))
      && AllBelow(root, VisitEntries(follow, p.path, es))
      && Effect(env, s, WalkStack(env, s, rel, root, follow, Children(p.path, es)), CleanEntries(follow, p.path, es),
                LeafEntries(rel, root, VisitEntries(follow, p.path, es)), 1)
    ensures AllBelow(root, VisitItem(follow, p))
    ensures Effect(env, s, WalkItem(env, s, rel, root, follow, p), CleanItem(follow, p),
                   LeafEntries(rel, root, VisitItem(follow, p)), 1)
  {
  }

  /**
   * Processing `p`: it succeeds exactly when the walk from `p` is clean and
   * the output takes all its leaves; then the leaves' entries are appended
   * in visiting order and counted once each. Whatever happens, the entries
   * appended are a prefix of those, and the counter grows with them.
   */
  lemma {:induction false} WalkItemEffect(env: Environment, s: Snapshot, rel: Path, root: Path, follow: bool, p: Pending)
    requires root <= p.path && Fits(env.sink, |s.entries|)
    ensures AllBelow(root, VisitItem(follow, p))
    ensures Effect(env, s, WalkItem(env, s, rel, root, follow, p), CleanItem(follow, p),
                   LeafEntries(rel, root, VisitItem(follow, p)), 1)
    decreases Size(p.node), 0
  {
    if !Descends(follow, p) {
      WalkLeafEffect(env, s, rel, root, follow, p);
    } else if ReadDir(p.node).Some? && ListChildren(p.path, ReadDir(p.node).value).Ok? {
      WalkEntriesEffect(env, s, rel, root, follow, p.path, ReadDir(p.node).value);
      WalkDirEffect(env, s, rel, root, follow, p);
    } else {
      WalkDirFails(env, s, rel, root, follow, p);
    }
  }

  lemma WalkEntriesUnfold(env: Environment, s: Snapshot, rel: Path, root: Path, follow: bool,
                          dir: Path, es: seq<DirEntry>)
    requires root <= dir
    ensures AllBelow(root, Children(dir, es))
    ensures es == [] ==> WalkStack(env, s, rel, root, follow, Children(dir, es)) == Done(s)
    ensures es != [] ==>
      var child := ChildPending(dir, es[|es| - 1]);
      var rest := es[..|es| - 1];
      var r1 := WalkItem(env, s, rel, root, follow, child);
      && root <= child.path
      && AllBelow(root, Children(dir, rest))
      && WalkStack(env, s, rel, root, follow, Children(dir, es))
         == if r1.outcome.Fail? then r1 else WalkStack(env, r1.snap, rel, root, follow, Children(dir, rest))
  {
    var c := Children(dir, es);
    assert AllBelow(root, c) by {
      forall k | 0 <= k < |c|
        ensures root <= c[k].path
      {
        assert c[k].path[..|dir|] == dir;
      }
    }
    if es != [] {
      assert c[..|c| - 1] == Children(dir, es[..|es| - 1]);
    }
  }

  lemma {:induction false} WalkEntriesEffect(env: Environment, s: Snapshot, rel: Path, root: Path, follow: bool,
                                             dir: Path, es: seq<DirEntry>)
    requires root <= dir && Fits(env.sink, |s.entries|)
    ensures AllBelow(root, Children(dir, es))
    ensures AllBelow(root, VisitEntries(follow, dir, es))
    ensures Effect(env, s, WalkStack(env, s, rel, root, follow, Children(dir, es)), CleanEntries(follow, dir, es),
                   LeafEntries(rel, root, VisitEntries(follow, dir, es)), 1)
    decreases EntriesSize(es), 1
  {
    WalkEntriesUnfold(env, s, rel, root, follow, dir, es);
    BelowTransitive(root, dir, VisitEntries(follow, dir, es));
    if es != [] {
      var rest := es[..|es| - 1];
      var child := ChildPending(dir, es[|es| - 1]);
      WalkItemEffect(env, s, rel, root, follow, child);
      var v1 := VisitItem(follow, child);
      var v2 := VisitEntries(follow, dir, rest);
      BelowTransitive(root, dir, v2);
      LeafEntriesConcat(rel, root, v1, v2);
      var r1 := WalkItem(env, s, rel, root, follow, child);
      if r1.outcome.Pass? {
        WalkEntriesEffect(env, r1.snap, rel, root, follow, dir, rest);
      }
      EffectThen(env, s, r1, CleanItem(follow, child), LeafEntries(rel, root, v1),
                 WalkStack(env, r1.snap, rel, root, follow, Children(dir, rest)), CleanEntries(follow, dir, rest),
                 LeafEntries(rel, root, v2), 1);
    }
  }

  /** The leaves `append_dir_all(rel, src, follow)` appends, in order. */
  function DirFiles(env: Environment, src: Path, follow: bool): (r: seq<Pending>)
    ensures AllBelow(src, r)
  {
    VisitItem(follow, RootPending(env, src))
  }

  /**
   * `append_dir_all` as a whole: the root is treated as a directory; the
   * walk succeeds exactly when it is clean and the output takes every leaf,
   * and then appends each leaf at `rel` joined with its path below `src`.
   */
  lemma AppendDirAllEffect(env: Environment, s: Snapshot, rel: Path, src: Path, follow: bool)
    requires Fits(env.sink, |s.entries|)
    ensures Effect(env, s, ArchiveSpec.AppendDirAll(env, s, rel, src, follow), CleanItem(follow, RootPending(env, src)),
                   LeafEntries(rel, src, DirFiles(env, src, follow)), 1)
  {
    WalkItemEffect(env, s, rel, src, follow, RootPending(env, src));
  }

  /** A root that is not a directory at all fails at once, with nothing appended. */
  lemma AppendDirAllNeedsDirectory(env: Environment, s: Snapshot, rel: Path, src: Path, follow: bool)
    requires !IsDir(env.fs(src))
    ensures ArchiveSpec.AppendDirAll(env, s, rel, src, follow) == Run(s, Fail(InputFileRead(src, Some(true))))
  {
  }
}
