/**
 * How the step functions of ArchiveSpec compose: running a stack that was
 * extended by a push, and the fact that a loop stopped by an error ends with
 * that error whatever elements remain.
 */
module StepLemmas {
  import opened Results
  import opened Paths
  import opened Inputs
  import opened ArchiveSpec

  lemma {:induction false} StackSizeConcat(a: seq<Pending>, b: seq<Pending>)
    ensures StackSize(a + b) == StackSize(a) + StackSize(b)
    decreases |b|
  {
    if b == [] {
      assert a + b == a;
    } else {
      assert (a + b)[..|a + b| - 1] == a + b[..|b| - 1];
      StackSizeConcat(a, b[..|b| - 1]);
    }
  }

  /**
   * The stack is last-in first-out: with `b` pushed on top of `a`, the loop
   * first finishes everything in `b` and only then resumes `a`.
   */
  lemma {:induction false} WalkStackConcat(env: Environment, s: Snapshot, rel: Path, root: Path, follow: bool,
                                           a: seq<Pending>, b: seq<Pending>)
    requires AllBelow(root, a) && AllBelow(root, b)
    ensures AllBelow(root, a + b)
    ensures WalkStack(env, s, rel, root, follow, a + b)
         == (var r := WalkStack(env, s, rel, root, follow, b);
             if r.outcome.Fail? then r else WalkStack(env, r.snap, rel, root, follow, a))
    decreases |b|
  {
    if b == [] {
      assert a + b == a;
    } else {
      var ab := a + b;
      assert ab[|ab| - 1] == b[|b| - 1];
      assert ab[..|ab| - 1] == a + b[..|b| - 1];
      var r := WalkItem(env, s, rel, root, follow, b[|b| - 1]);
      if r.outcome.Pass? {
        WalkStackConcat(env, r.snap, rel, root, follow, a, b[..|b| - 1]);
      }
    }
  }

  /** The listing scan reports the first failing entry: later entries do not matter. */
  lemma {:induction false} ListChildrenStops(dir: Path, es: seq<DirEntry>, j: nat)
    requires j <= |es|
    requires ListChildren(dir, es[..j]).Err?
    ensures ListChildren(dir, es) == ListChildren(dir, es[..j])
    decreases |es| - j
  {
    if j < |es| {
      assert es[..j + 1][..j] == es[..j];
      ListChildrenStops(dir, es, j + 1);
    } else {
      assert es[..j] == es;
    }
  }

  lemma {:induction false} PrimaryRunStops(env: Environment, s: Snapshot, base: Path, bins: seq<RustTestBinary>, j: nat)
    requires j <= |bins| && AllWithin(base, bins)
    requires PrimaryRun(env, s, base, bins[..j]).outcome.Fail?
    ensures PrimaryRun(env, s, base, bins) == PrimaryRun(env, s, base, bins[..j])
    decreases |bins| - j
  {
    if j < |bins| {
      assert bins[..j + 1][..j] == bins[..j];
      PrimaryRunStops(env, s, base, bins, j + 1);
    } else {
      assert bins[..j] == bins;
    }
  }

  lemma {:induction false} NonTestRunStops(env: Environment, s: Snapshot, target: Path, bins: seq<RustNonTestBinary>, j: nat)
    requires j <= |bins|
    requires NonTestRun(env, s, target, bins[..j]).outcome.Fail?
    ensures NonTestRun(env, s, target, bins) == NonTestRun(env, s, target, bins[..j])
    decreases |bins| - j
  {
    if j < |bins| {
      assert bins[..j + 1][..j] == bins[..j];
      NonTestRunStops(env, s, target, bins, j + 1);
    } else {
      assert bins[..j] == bins;
    }
  }

  lemma {:induction false} LinkedRunStops(env: Environment, s: Snapshot, target: Path, links: seq<Path>, j: nat)
    requires j <= |links|
    requires LinkedRun(env, s, target, links[..j]).outcome.Fail?
    ensures LinkedRun(env, s, target, links) == LinkedRun(env, s, target, links[..j])
    decreases |links| - j
  {
    if j < |links| {
      assert links[..j + 1][..j] == links[..j];
      LinkedRunStops(env, s, target, links, j + 1);
    } else {
      assert links[..j] == links;
    }
  }

  /** Popping an element that is appended: the append, then the rest of the stack. */
  lemma WalkPopLeaf(env: Environment, s: Snapshot, rel: Path, root: Path, follow: bool, below: seq<Pending>, top: Pending)
    requires AllBelow(root, below) && root <= top.path
    requires !Descends(follow, top)
    ensures AllBelow(root, below + [top])
    ensures StackSize(below) < StackSize(below + [top])
    ensures WalkStack(env, s, rel, root, follow, below + [top])
         == (var r := ArchiveSpec.AppendPath(env, s, top.path, LeafDest(rel, root, top.path), top.node);
             if r.outcome.Fail? then r else WalkStack(env, r.snap, rel, root, follow, below))
  {
    assert (below + [top])[..|below|] == below;
  }

  /** Popping a directory that cannot be opened, or whose listing fails at entry `j - 1`. */
  lemma WalkPopFails(env: Environment, s: Snapshot, rel: Path, root: Path, follow: bool, below: seq<Pending>, top: Pending,
                     es: seq<DirEntry>, j: nat, e: ArchiveCreateError)
    requires AllBelow(root, below) && root <= top.path
    requires Descends(follow, top)
    requires ReadDir(top.node).None? ==> e == InputFileRead(top.path, Some(true))
    requires ReadDir(top.node).Some? ==> ReadDir(top.node).value == es && j <= |es|
                                         && ListChildren(top.path, es[..j]) == Err(e)
    ensures AllBelow(root, below + [top])
    ensures WalkStack(env, s, rel, root, follow, below + [top]) == Run(s, Fail(e))
  {
    assert (below + [top])[..|below|] == below;
    if ReadDir(top.node).Some? {
      ListChildrenStops(top.path, es, j);
    }
  }

  /** Popping a directory whose listing succeeds: its children take its place on the stack. */
  lemma WalkPopDir(env: Environment, s: Snapshot, rel: Path, root: Path, follow: bool, below: seq<Pending>, top: Pending,
                   es: seq<DirEntry>)
    requires AllBelow(root, below) && root <= top.path
    requires Descends(follow, top)
    requires ReadDir(top.node) == Some(es)
    requires ListChildren(top.path, es).Ok?
    ensures AllBelow(root, below + [top])
    ensures AllBelow(root, below + Children(top.path, es))
    ensures StackSize(below + Children(top.path, es)) < StackSize(below + [top])
    ensures WalkStack(env, s, rel, root, follow, below + Children(top.path, es))
         == WalkStack(env, s, rel, root, follow, below + [top])
  {
    assert (below + [top])[..|below|] == below;
    WalkStackConcat(env, s, rel, root, follow, below, Children(top.path, es));
    StackSizeConcat(below, Children(top.path, es));
    StackSizeConcat(below, [top]);
    ChildrenSize(top.path, es);
  }

  /** The scan's error at the first failing entry `i`. */
  lemma ListChildrenFailsAt(dir: Path, es: seq<DirEntry>, i: nat)
    requires i < |es|
    requires forall k :: 0 <= k < i ==> es[k].ok && es[k].typeKnown
    requires !(es[i].ok && es[i].typeKnown)
    ensures ListChildren(dir, es[..i + 1])
         == Err(if !es[i].ok then DirEntryRead(dir) else InputFileRead(dir + [Normal(es[i].name)], None))
  {
    assert es[..i + 1][..i] == es[..i];
  }

  /** Pushing the element for entry `i` extends the pushed prefix by one. */
  lemma ChildrenPush(dir: Path, es: seq<DirEntry>, i: nat)
    requires i < |es|
    ensures Children(dir, es[..i + 1]) == Children(dir, es[..i]) + [ChildPending(dir, es[i])]
  {
    assert es[..i + 1][..i] == es[..i];
  }

  lemma PrimaryRunStep(env: Environment, s: Snapshot, base: Path, bins: seq<RustTestBinary>, i: nat, t: Snapshot)
    requires i < |bins| && AllWithin(base, bins)
    requires PrimaryRun(env, s, base, bins[..i]) == Done(t)
    ensures PrimaryRun(env, s, base, bins[..i + 1])
         == Bump(ArchiveSpec.AppendPath(env, t, bins[i].path, PrimaryDest(env, base, bins[i]), env.fs(bins[i].path)))
  {
    assert bins[..i + 1][..i] == bins[..i];
  }

  lemma NonTestRunStep(env: Environment, s: Snapshot, target: Path, bins: seq<RustNonTestBinary>, i: nat, t: Snapshot)
    requires i < |bins|
    requires NonTestRun(env, s, target, bins[..i]) == Done(t)
    ensures NonTestRun(env, s, target, bins[..i + 1])
         == Bump(ArchiveSpec.AppendPath(env, t, NonTestSource(env, target, bins[i]), NonTestDest(env, bins[i]),
                                        env.fs(NonTestSource(env, target, bins[i]))))
  {
    assert bins[..i + 1][..i] == bins[..i];
  }

  lemma LinkedRunStep(env: Environment, s: Snapshot, target: Path, links: seq<Path>, i: nat, t: Snapshot)
    requires i < |links|
    requires LinkedRun(env, s, target, links[..i]) == Done(t)
    ensures LinkedRun(env, s, target, links[..i + 1])
         == ArchiveSpec.AppendDirAll(env, t, LinkedDest(env, links[i]), LinkedSource(env, target, links[i]), true)
  {
    assert links[..i + 1][..i] == links[..i];
  }
}
