/** The difference of two sessions: the lines only the first covers, the
    lines both cover, and the lines only the second covers, each as a session
    of its own. */
module Diff {
  import opened Util
  import opened Coverage
  import opened Session
  import opened Report

  /** The three parts of a difference; the parts are fixed at construction. */
  class JacocoSessionDiff {
    const onlyA: JacocoSession
    const common: JacocoSession
    const onlyB: JacocoSession

    constructor(onlyA: JacocoSession, common: JacocoSession, onlyB: JacocoSession)
      ensures this.onlyA == onlyA && this.common == common && this.onlyB == onlyB
    {
      this.onlyA := onlyA;
      this.common := common;
      this.onlyB := onlyB;
    }

    /** Either side covers a method the other does not fully match. */
    predicate ContainsDifference()
      reads onlyA, onlyB
    {
      onlyA.NumberOfCoveredMethods() > 0 || onlyB.NumberOfCoveredMethods() > 0
    }
  }

  /** computeDiff: builds each part from a fresh session, adding one side and
      then removing or retaining the other. The three clock readings are the
      parameters `t1`, `t2` and `t3`. */
  method ComputeDiff(a: JacocoSession, b: JacocoSession, t1: int, t2: int, t3: int) returns (d: JacocoSessionDiff)
    ensures fresh(d) && fresh(d.onlyA) && fresh(d.common) && fresh(d.onlyB)
    ensures d.onlyA.id == StampedId("onlyA", t1) && d.common.id == StampedId("common", t2) && d.onlyB.id == StampedId("onlyB", t3)
    ensures d.onlyA.coverage == SessionSubtract(a.coverage, b.coverage)
    ensures d.common.coverage == SessionRetain(a.coverage, b.coverage)
    ensures d.onlyB.coverage == SessionSubtract(b.coverage, a.coverage)
  {
    var onlyA := new JacocoSession(StampedId("onlyA", t1));
    var common := new JacocoSession(StampedId("common", t2));
    var onlyB := new JacocoSession(StampedId("onlyB", t3));
    SessionUnionEmpty(a.coverage);
    SessionUnionEmpty(b.coverage);

    onlyA.Add(a);
    onlyA.Remove(b);

    common.Add(a);
    common.Retain(b);

    onlyB.Add(b);
    onlyB.Remove(a);

    d := new JacocoSessionDiff(onlyA, common, onlyB);
  }

  /** In a report of exactly two sessions, the unique contribution of one
      of them is the `onlyA` part of their difference, whichever order the
      two were added in. */
  lemma UniqueOfPairIsOnlyA(r: JacocoCoverageReport, a: JacocoSession, b: JacocoSession)
    requires r.Valid() && a != b
    requires r.Sessions() == [a, b] || r.Sessions() == [b, a]
    ensures UniqueOf(a.coverage, r.Sessions(), {a}) == SessionSubtract(a.coverage, b.coverage)
  {
    var ss := r.Sessions();
    var cs, skipped := Snapshot(ss), Skipped(ss, {a});
    assert cs[..1] == [cs[0]] && skipped[..1] == [skipped[0]];
    assert SubtractEach(a.coverage, cs[..1][..0], skipped[..1][..0]) == a.coverage;
    if ss == [a, b] {
      assert SubtractEach(a.coverage, cs[..1], skipped[..1]) == a.coverage;
    } else {
      assert SubtractEach(a.coverage, cs[..1], skipped[..1]) == SessionSubtract(a.coverage, b.coverage);
    }
  }

  /** Both sessions cover exactly the same lines. */
  ghost predicate SameCoveredLines(a: Coverages, b: Coverages) {
    forall f, n :: Covers(a, f, n) <==> Covers(b, f, n)
  }

  /** The parts split the lines: a line of the first session is in exactly
      one of `onlyA` and `common`, a line of the second in exactly one of
      `onlyB` and `common`, and nothing else is in any part. */
  lemma DiffPartitionsLines(a: Coverages, b: Coverages)
    ensures forall f, n :: Covers(a, f, n) <==> Covers(SessionSubtract(a, b), f, n) || Covers(SessionRetain(a, b), f, n)
    ensures forall f, n :: Covers(b, f, n) <==> Covers(SessionSubtract(b, a), f, n) || Covers(SessionRetain(a, b), f, n)
    ensures forall f, n :: !(Covers(SessionSubtract(a, b), f, n) && Covers(SessionRetain(a, b), f, n))
    ensures forall f, n :: !(Covers(SessionSubtract(b, a), f, n) && Covers(SessionRetain(a, b), f, n))
    ensures forall f, n :: !(Covers(SessionSubtract(a, b), f, n) && Covers(SessionSubtract(b, a), f, n))
  {
    CoversSubtract(a, b);
    CoversSubtract(b, a);
    CoversRetain(a, b);
  }

  /** A line in `onlyA` keeps the first session's record, and a line in
      `common` the smaller covered-instruction count of the two. */
  lemma DiffCounts(a: Coverages, b: Coverages)
    ensures forall f, n | Covers(SessionSubtract(a, b), f, n) ::
              SessionSubtract(a, b)[f].linesCovered[n] == a[f].linesCovered[n]
    ensures forall f, n | Covers(SessionRetain(a, b), f, n) ::
              CountAt(SessionRetain(a, b), f, n) == Min(CountAt(a, f, n), CountAt(b, f, n))
  {
    forall f, n | Covers(SessionRetain(a, b), f, n)
      ensures CountAt(SessionRetain(a, b), f, n) == Min(CountAt(a, f, n), CountAt(b, f, n))
    {
      RetainLinesEntries(a[f].linesCovered, b[f].linesCovered);
    }
  }

  /** A method entry of the first session that is not in the difference
      exposes a line the second session lacks. */
  lemma SubtractWitness(a: Coverages, b: Coverages, f: string)
    requires NoEmptyEntries(a) && f in SessionSubtract(a, b)
    ensures exists n :: Covers(a, f, n) && !Covers(b, f, n)
  {
    var rest := SubtractLines(a[f].linesCovered, LinesOf(b, f));
    assert |rest| != 0;
    var n := Pick(rest);
    assert Covers(a, f, n) && !Covers(b, f, n);
  }

  /** A line the first session covers and the second does not keeps its
      method in the difference. */
  lemma UncoveredLineStaysInDifference(a: Coverages, b: Coverages, f: string, n: int)
    requires Covers(a, f, n) && !Covers(b, f, n)
    ensures f in SessionSubtract(a, b)
  {
    assert n in SubtractLines(a[f].linesCovered, LinesOf(b, f));
  }

  /** For sessions without empty method entries, the difference is non-empty
      exactly when some line is covered by one session and not the other. */
  lemma {:induction false} DifferenceMeansLinesDiffer(a: Coverages, b: Coverages)
    requires NoEmptyEntries(a) && NoEmptyEntries(b)
    ensures (|SessionSubtract(a, b)| > 0 || |SessionSubtract(b, a)| > 0) <==> !SameCoveredLines(a, b)
  {
    if |SessionSubtract(a, b)| > 0 {
      SubtractWitness(a, b, Pick(SessionSubtract(a, b)));
    } else if |SessionSubtract(b, a)| > 0 {
      SubtractWitness(b, a, Pick(SessionSubtract(b, a)));
    }
    if !SameCoveredLines(a, b) {
      var f, n :| Covers(a, f, n) != Covers(b, f, n);
      if Covers(a, f, n) {
        UncoveredLineStaysInDifference(a, b, f, n);
      } else {
        UncoveredLineStaysInDifference(b, a, f, n);
      }
    }
  }

  /** containsDifference of a computed difference: for sessions without
      empty method entries, true exactly when the sessions' covered lines
      differ. */
  lemma ContainsDifferenceMeaning(d: JacocoSessionDiff, a: Coverages, b: Coverages)
    requires d.onlyA.coverage == SessionSubtract(a, b) && d.onlyB.coverage == SessionSubtract(b, a)
    requires NoEmptyEntries(a) && NoEmptyEntries(b)
    ensures d.ContainsDifference() <==> !SameCoveredLines(a, b)
  {
    DifferenceMeansLinesDiffer(a, b);
  }

  /** A session compared with itself shows no difference, and the common
      part is the session itself. */
  lemma DiffWithItself(a: Coverages)
    requires NoEmptyEntries(a)
    ensures SessionSubtract(a, a) == map[]
    ensures SessionRetain(a, a) == a
  {
    SessionRetainIdempotent(a);
  }

  /** An empty method entry counts as a difference although no line differs:
      containsDifference needs sessions without empty entries to mean a
      difference in covered lines. */
  lemma EmptyEntryCountsAsDifference()
    ensures exists a: Coverages, b: Coverages ::
              SameCoveredLines(a, b) && |SessionSubtract(a, b)| > 0
  {
    var m := Structure.Method("p.C", "m()", 1, map[]);
    var a: Coverages := map["p.C.m()" := MethodCoverage(m, map[])];
    var b: Coverages := map[];
    assert "p.C.m()" in SessionSubtract(a, b);
    assert SameCoveredLines(a, b);
  }
}
