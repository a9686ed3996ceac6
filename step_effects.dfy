/**
 * The shape shared by every step of the archiver that appends a planned
 * sequence of entries and stops at its first failure: what it appends,
 * when it succeeds, how it counts, and where it stops. Steps that run one
 * after another, the second only when the first succeeds, compose.
 */
module StepEffects {
  import opened Results
  import opened Paths
  import opened Inputs
  import opened ArchiveSpec

  /**
   * A step `r` from `s` that plans to append `planned` succeeds exactly when
   * `clean` holds and the output takes every planned entry, and then it has
   * appended them all; in any case it has appended a prefix of them and
   * nothing else.
   */
  predicate Reaches(env: Environment, s: Snapshot, r: Run, clean: bool, planned: seq<Entry>) {
    && (r.outcome.Pass? <==> clean && Fits(env.sink, |s.entries| + |planned|))
    && (r.outcome.Pass? ==> r.snap.entries == s.entries + planned)
    && s.entries <= r.snap.entries <= s.entries + planned
  }

  /** `Reaches`, with the counter raised by `weight` for every entry appended. */
  predicate Effect(env: Environment, s: Snapshot, r: Run, clean: bool, planned: seq<Entry>, weight: nat) {
    && Reaches(env, s, r, clean, planned)
    && r.snap.count == s.count + weight * (|r.snap.entries| - |s.entries|)
  }

  /** A failed step stopped at a planned entry read from disk and reports that file as unreadable. */
  predicate StopsAtSource(s: Snapshot, r: Run, planned: seq<Entry>) {
    r.outcome.Fail? ==>
      var i := |r.snap.entries| - |s.entries|;
      && 0 <= i < |planned|
      && planned[i].source.Disk?
      && r.outcome.error == InputFileRead(planned[i].source.path, Some(false))
  }

  lemma ReachesThen(env: Environment, s: Snapshot, r1: Run, c1: bool, p1: seq<Entry>, r2: Run, c2: bool, p2: seq<Entry>)
    requires Reaches(env, s, r1, c1, p1)
    requires r1.outcome.Pass? ==> Reaches(env, r1.snap, r2, c2, p2)
    ensures Reaches(env, s, if r1.outcome.Fail? then r1 else r2, c1 && c2, p1 + p2)
  {
    assert s.entries + p1 + p2 == s.entries + (p1 + p2);
    if r1.outcome.Pass? {
      assert (s.entries + p1)[..|s.entries|] == s.entries;
      assert Fits(env.sink, |s.entries| + |p1 + p2|) ==> Fits(env.sink, |s.entries| + |p1|);
    } else {
      assert (s.entries + p1 + p2)[..|s.entries + p1|] == s.entries + p1;
      assert !Fits(env.sink, |s.entries| + |p1|) ==> !Fits(env.sink, |s.entries| + |p1 + p2|);
    }
  }

  /** Three steps in a row, each taken only when the one before succeeded. */
  lemma ReachesThen3(env: Environment, s: Snapshot, r1: Run, c1: bool, p1: seq<Entry>, r2: Run, c2: bool, p2: seq<Entry>,
                     r3: Run, c3: bool, p3: seq<Entry>)
    requires Reaches(env, s, r1, c1, p1)
    requires r1.outcome.Pass? ==> Reaches(env, r1.snap, r2, c2, p2)
    requires r1.outcome.Pass? && r2.outcome.Pass? ==> Reaches(env, r2.snap, r3, c3, p3)
    ensures Reaches(env, s, if r1.outcome.Fail? then r1 else if r2.outcome.Fail? then r2 else r3,
                    c1 && c2 && c3, p1 + p2 + p3)
  {
    if r1.outcome.Pass? {
      ReachesThen(env, r1.snap, r2, c2, p2, r3, c3, p3);
    }
    ReachesThen(env, s, r1, c1, p1, if r2.outcome.Fail? then r2 else r3, c2 && c3, p2 + p3);
    assert p1 + (p2 + p3) == p1 + p2 + p3;
  }

  lemma EffectThen(env: Environment, s: Snapshot, r1: Run, c1: bool, p1: seq<Entry>, r2: Run, c2: bool, p2: seq<Entry>,
                   weight: nat)
    requires Effect(env, s, r1, c1, p1, weight)
    requires r1.outcome.Pass? ==> Effect(env, r1.snap, r2, c2, p2, weight)
    ensures Effect(env, s, if r1.outcome.Fail? then r1 else r2, c1 && c2, p1 + p2, weight)
  {
    ReachesThen(env, s, r1, c1, p1, r2, c2, p2);
    if r1.outcome.Pass? {
      var a := |r1.snap.entries| - |s.entries|;
      var b := |r2.snap.entries| - |r1.snap.entries|;
      assert weight * (a + b) == weight * a + weight * b;
    }
  }

  lemma StopsThen(env: Environment, s: Snapshot, r1: Run, c1: bool, p1: seq<Entry>, r2: Run, p2: seq<Entry>)
    requires Reaches(env, s, r1, c1, p1) && StopsAtSource(s, r1, p1)
    requires r1.outcome.Pass? ==> StopsAtSource(r1.snap, r2, p2)
    ensures StopsAtSource(s, if r1.outcome.Fail? then r1 else r2, p1 + p2)
  {
  }

  /** One `append_path`: a single planned entry read from `src`, counted once, or twice with the loops' extra bump. */
  lemma AppendPathEffect(env: Environment, s: Snapshot, src: Path, dest: Path, node: Node)
    ensures var e := [Entry(dest, Disk(src, DataOf(node)))];
      && Effect(env, s, ArchiveSpec.AppendPath(env, s, src, dest, node), Appendable(node), e, 1)
      && Effect(env, s, Bump(ArchiveSpec.AppendPath(env, s, src, dest, node)), Appendable(node), e, 2)
      && StopsAtSource(s, Bump(ArchiveSpec.AppendPath(env, s, src, dest, node)), e)
  {
    var e := [Entry(dest, Disk(src, DataOf(node)))];
    assert (s.entries + e)[..|s.entries|] == s.entries;
  }
}
