/** The coverage report: the program structure, the sessions by id in the
    order they were first added, and the computations across sessions
    (union, intersection, unique contribution). */
module Report {
  import opened Util
  import opened Structure
  import opened Coverage
  import opened Session

  /** The coverage of each session, in order. */
  function Snapshot(ss: seq<JacocoSession>): (r: seq<Coverages>)
    reads ss
    ensures |r| == |ss|
    ensures forall i | 0 <= i < |ss| :: r[i] == ss[i].coverage
  {
    if ss == [] then [] else Snapshot(ss[..|ss| - 1]) + [ss[|ss| - 1].coverage]
  }

  /** The coverage the sessions have together: each added in turn to an
      empty session. */
  function UnionAll(cs: seq<Coverages>): Coverages {
    if cs == [] then map[] else SessionUnion(UnionAll(cs[..|cs| - 1]), cs[|cs| - 1])
  }

  /** The coverage the sessions have in common: the first session, retained
      against each later one in turn; nothing for no sessions. */
  function IntersectAll(cs: seq<Coverages>): Coverages {
    if cs == [] then map[]
    else if |cs| == 1 then cs[0]
    else SessionRetain(IntersectAll(cs[..|cs| - 1]), cs[|cs| - 1])
  }

  /** Sessions that were not touched still have the coverage they had. */
  twostate lemma SnapshotUnchanged(ss: seq<JacocoSession>)
    requires forall i | 0 <= i < |ss| :: unchanged(ss[i])
    ensures Snapshot(ss) == old(Snapshot(ss))
  {
    assert forall i | 0 <= i < |ss| :: Snapshot(ss)[i] == old(Snapshot(ss))[i];
  }

  /** Which sessions of `ss` are in `skip`. */
  function Skipped(ss: seq<JacocoSession>, skip: set<JacocoSession>): (r: seq<bool>)
    ensures |r| == |ss|
    ensures forall i | 0 <= i < |ss| :: r[i] == (ss[i] in skip)
  {
    seq(|ss|, i requires 0 <= i < |ss| => ss[i] in skip)
  }

  /** `c` with each session of `cs` that is not flagged in `skipped` removed
      in turn. */
  function SubtractEach(c: Coverages, cs: seq<Coverages>, skipped: seq<bool>): Coverages
    requires |skipped| == |cs|
  {
    if cs == [] then c
    else
      var rest := SubtractEach(c, cs[..|cs| - 1], skipped[..|cs| - 1]);
      if skipped[|cs| - 1] then rest else SessionSubtract(rest, cs[|cs| - 1])
  }

  /** `c` with the coverage of every session of `ss` outside `skip` removed
      in turn. */
  function UniqueOf(c: Coverages, ss: seq<JacocoSession>, skip: set<JacocoSession>): Coverages
    reads ss
  {
    SubtractEach(c, Snapshot(ss), Skipped(ss, skip))
  }

  /** The sessions filed under `order`, in that order. */
  function InOrder(order: seq<string>, sessions: map<string, JacocoSession>): (r: seq<JacocoSession>)
    requires forall id | id in order :: id in sessions
    ensures |r| == |order|
    ensures forall i | 0 <= i < |order| :: r[i] == sessions[order[i]]
  {
    if order == [] then [] else [sessions[order[0]]] + InOrder(order[1..], sessions)
  }

  class JacocoCoverageReport {
    const packages: seq<Package>
    /** The ids in the order they were first added: the iteration order of
        the linked hash map that holds the sessions. */
    var order: seq<string>
    var sessions: map<string, JacocoSession>

    ghost predicate Valid()
      reads this
    {
      && Distinct(order)
      && (forall id :: id in order <==> id in sessions)
      && (forall id | id in sessions :: sessions[id].id == id)
    }

    constructor(packages: seq<Package>)
      ensures Valid()
      ensures this.packages == packages && order == [] && sessions == map[]
    {
      this.packages := packages;
      order := [];
      sessions := map[];
    }

    /** Files a session under its id; a session with an id already present
        replaces the earlier one and keeps its place in the order. */
    method AddSession(s: JacocoSession)
      requires Valid()
      modifies this
      ensures Valid()
      ensures sessions == old(sessions)[s.id := s]
      ensures order == if s.id in old(sessions) then old(order) else old(order) + [s.id]
      ensures GetSession(s.id) == Some(s)
    {
      if s.id !in sessions {
        order := order + [s.id];
      }
      sessions := sessions[s.id := s];
    }

    function GetSession(id: string): Option<JacocoSession>
      reads this
    {
      if id in sessions then Some(sessions[id]) else None
    }

    /** The sessions in the order their ids were first added. */
    function Sessions(): seq<JacocoSession>
      reads this
      requires Valid()
    {
      InOrder(order, sessions)
    }

    function NumberOfSessions(): nat
      reads this
    {
      |sessions|
    }

    /** The sessions whose ids are listed; unknown ids are skipped and a
        missing list gives no sessions. */
    method GetSessionsByIds(ids: Option<seq<string>>) returns (r: set<JacocoSession>)
      ensures ids.None? ==> r == {}
      ensures ids.Some? ==> forall s :: s in r <==> exists id | id in ids.value && id in sessions :: sessions[id] == s
    {
      r := {};
      if ids.Some? {
        var list := ids.value;
        for i := 0 to |list|
          invariant forall s :: s in r <==> exists id | id in list[..i] && id in sessions :: sessions[id] == s
        {
          assert list[..i + 1] == list[..i] + [list[i]];
          if list[i] in sessions {
            r := r + {sessions[list[i]]};
          }
        }
        assert list[..|list|] == list;
      }
    }

    /** union(): the union of all sessions of the report. */
    method ReportUnion(millis: int) returns (u: JacocoSession)
      requires Valid()
      ensures fresh(u) && u.id == StampedId("union", millis)
      ensures u.coverage == UnionAll(old(Snapshot(Sessions())))
    {
      u := Union(Sessions(), millis);
    }

    /** intersection(): the intersection of all sessions of the report. */
    method ReportIntersection(millis: int) returns (u: JacocoSession)
      requires Valid()
      ensures fresh(u) && u.id == StampedId("intersection", millis)
      ensures u.coverage == IntersectAll(old(Snapshot(Sessions())))
    {
      u := Intersection(Sessions(), millis);
    }

    /** Adds the sessions one by one to a fresh session. */
    static method Union(ss: seq<JacocoSession>, millis: int) returns (u: JacocoSession)
      ensures fresh(u) && u.id == StampedId("union", millis)
      ensures u.coverage == UnionAll(old(Snapshot(ss)))
    {
      ghost var snap := Snapshot(ss);
      u := new JacocoSession(StampedId("union", millis));
      for i := 0 to |ss|
        invariant u.coverage == UnionAll(snap[..i])
      {
        assert snap[..i + 1][..i] == snap[..i];
        u.Add(ss[i]);
      }
      assert snap[..|ss|] == snap;
    }

    /** Adds the first session to a fresh one and retains each later one,
        stopping as soon as no method is left. */
    static method Intersection(ss: seq<JacocoSession>, millis: int) returns (u: JacocoSession)
      ensures fresh(u) && u.id == StampedId("intersection", millis)
      ensures u.coverage == IntersectAll(old(Snapshot(ss)))
    {
      ghost var snap := Snapshot(ss);
      u := new JacocoSession(StampedId("intersection", millis));
      var first := true;
      var i := 0;
      while i < |ss|
        invariant 0 <= i <= |ss|
        invariant first <==> i == 0
        invariant u.coverage == IntersectAll(snap[..i])
      {
        ghost var prev := u.coverage;
        if first {
          u.Add(ss[i]);
          IntersectStep(snap, i, prev, u.coverage);
        } else {
          u.Retain(ss[i]);
          IntersectStep(snap, i, prev, u.coverage);
          if u.NumberOfCoveredMethods() == 0 {
            IntersectEmptyPrefix(snap, i + 1);
            return;
          }
        }
        first := false;
        i := i + 1;
      }
      assert snap[..|ss|] == snap;
    }

    /** The coverage only `s` has: `s` added to a fresh session, then every
        other session of the report removed in turn, stopping as soon as no
        method is left. */
    method UniqueContribution(s: JacocoSession) returns (u: JacocoSession)
      requires Valid()
      ensures fresh(u) && u.id == "unique " + s.id
      ensures u.coverage == old(UniqueOf(s.coverage, Sessions(), {s}))
    {
      u := new JacocoSession("unique " + s.id);
      SessionUnionEmpty(s.coverage);
      u.Add(s);
      var all := Sessions();
      SnapshotUnchanged(all);
      RemoveOthers(u, s.coverage, all, {s});
    }

    /** The coverage only the sessions of `group` have together: their union,
        with every report session outside the group removed in turn,
        stopping as soon as no method is left. */
    method UniqueContributionOfGroup(group: seq<JacocoSession>, millis: int) returns (u: JacocoSession)
      requires Valid()
      ensures fresh(u) && u.id == StampedId("union", millis)
      ensures u.coverage == old(UniqueOf(UnionAll(Snapshot(group)), Sessions(), (set g | g in group)))
    {
      u := Union(group, millis);
      var all := Sessions();
      SnapshotUnchanged(all);
      RemoveOthers(u, u.coverage, all, (set g | g in group));
    }
  }

  /** Removes from `u` every session of `all` outside `skip` in turn,
      stopping as soon as no method is left. */
  method RemoveOthers(u: JacocoSession, ghost c: Coverages, all: seq<JacocoSession>, skip: set<JacocoSession>)
    requires u.coverage == c && u !in all
    modifies u
    ensures u.coverage == old(UniqueOf(c, all, skip))
  {
    ghost var snap, flags := Snapshot(all), Skipped(all, skip);
    for i := 0 to |all|
      invariant u.coverage == SubtractEach(c, snap[..i], flags[..i])
      invariant forall k | 0 <= k < |all| :: all[k].coverage == snap[k]
    {
      SubtractEachStep(c, snap, flags, i);
      if all[i] !in skip {
        assert !flags[i] && all[i].coverage == snap[i];
        u.Remove(all[i]);
        if u.NumberOfCoveredMethods() == 0 {
          SubtractEachEmptyPrefix(c, snap, flags, i + 1);
          return;
        }
      }
    }
    assert snap[..|all|] == snap && flags[..|all|] == flags;
  }

  // ---------------------------------------------------------------------
  // What the folds mean, line by line

  /** The union covers a line iff some session covers it. */
  lemma {:induction false} CoversUnionAll(cs: seq<Coverages>, f: string, n: int)
    ensures Covers(UnionAll(cs), f, n) <==> exists i | 0 <= i < |cs| :: Covers(cs[i], f, n)
    decreases |cs|
  {
    if cs != [] {
      var init, last := cs[..|cs| - 1], cs[|cs| - 1];
      CoversUnionAll(init, f, n);
      CoversUnion(UnionAll(init), last);
      assert forall i | 0 <= i < |init| :: init[i] == cs[i];
      if Covers(UnionAll(cs), f, n) && !Covers(last, f, n) {
        var i :| 0 <= i < |init| && Covers(init[i], f, n);
        assert Covers(cs[i], f, n);
      }
    }
  }

  /** The union keeps, on every line, the largest covered-instruction count
      of the sessions that cover it. */
  lemma {:induction false} UnionAllCountIsMax(cs: seq<Coverages>, f: string, n: int)
    ensures forall i | 0 <= i < |cs| && Covers(cs[i], f, n) ::
              Covers(UnionAll(cs), f, n) && CountAt(cs[i], f, n) <= CountAt(UnionAll(cs), f, n)
    ensures Covers(UnionAll(cs), f, n) ==>
              exists i | 0 <= i < |cs| && Covers(cs[i], f, n) :: CountAt(cs[i], f, n) == CountAt(UnionAll(cs), f, n)
    decreases |cs|
  {
    if cs != [] {
      var init, last := cs[..|cs| - 1], cs[|cs| - 1];
      UnionAllCountIsMax(init, f, n);
      LinesOfUnion(UnionAll(init), last, f);
      assert forall i | 0 <= i < |init| :: init[i] == cs[i];
      if Covers(UnionAll(cs), f, n) {
        if Covers(UnionAll(init), f, n) && (!Covers(last, f, n) || CountAt(last, f, n) <= CountAt(UnionAll(init), f, n)) {
          var i :| 0 <= i < |init| && Covers(init[i], f, n) && CountAt(init[i], f, n) == CountAt(UnionAll(init), f, n);
          assert Covers(cs[i], f, n) && CountAt(cs[i], f, n) == CountAt(UnionAll(cs), f, n);
        } else {
          assert Covers(cs[|cs| - 1], f, n) && CountAt(cs[|cs| - 1], f, n) == CountAt(UnionAll(cs), f, n);
        }
      }
    }
  }

  /** Every session of `cs` covers the line. */
  predicate AllCover(cs: seq<Coverages>, f: string, n: int) {
    forall i | 0 <= i < |cs| :: Covers(cs[i], f, n)
  }

  /** `c` covers the line, with at most the count of every session of `cs`. */
  predicate CountBelowAll(c: Coverages, cs: seq<Coverages>, f: string, n: int) {
    Covers(c, f, n) && forall i | 0 <= i < |cs| :: Covers(cs[i], f, n) && CountAt(c, f, n) <= CountAt(cs[i], f, n)
  }

  lemma AllCoverSnoc(init: seq<Coverages>, last: Coverages, f: string, n: int)
    ensures AllCover(init + [last], f, n) <==> AllCover(init, f, n) && Covers(last, f, n)
  {
    var cs := init + [last];
    assert cs[|init|] == last;
    assert forall i | 0 <= i < |init| :: init[i] == cs[i];
  }

  lemma IntersectAllSnoc(init: seq<Coverages>, last: Coverages)
    ensures IntersectAll(init + [last]) == if init == [] then last else SessionRetain(IntersectAll(init), last)
  {
    assert (init + [last])[..|init|] == init;
  }

  /** The intersection covers a line iff there is a session and every
      session covers it. */
  lemma {:induction false} CoversIntersectAll(cs: seq<Coverages>, f: string, n: int)
    ensures Covers(IntersectAll(cs), f, n) <==> cs != [] && AllCover(cs, f, n)
    decreases |cs|
  {
    if |cs| > 1 {
      var init, last := cs[..|cs| - 1], cs[|cs| - 1];
      CoversIntersectAll(init, f, n);
      assert cs == init + [last];
      IntersectAllSnoc(init, last);
      CoversRetain(IntersectAll(init), last);
      AllCoverSnoc(init, last, f, n);
    }
  }

  lemma CountBelowAllSnoc(init: seq<Coverages>, last: Coverages, f: string, n: int)
    requires init != [] && Covers(SessionRetain(IntersectAll(init), last), f, n)
    requires CountBelowAll(IntersectAll(init), init, f, n)
    ensures CountBelowAll(SessionRetain(IntersectAll(init), last), init + [last], f, n)
  {
    var c, cs := SessionRetain(IntersectAll(init), last), init + [last];
    assert c[f].linesCovered == RetainLines(IntersectAll(init)[f].linesCovered, last[f].linesCovered);
    assert cs[|init|] == last;
    assert forall i | 0 <= i < |init| :: init[i] == cs[i];
  }

  /** The intersection keeps, on every line, the smallest covered-instruction
      count of the sessions: no larger than any session's, and equal to one. */
  lemma {:induction false} IntersectAllCountIsMin(cs: seq<Coverages>, f: string, n: int)
    requires Covers(IntersectAll(cs), f, n)
    ensures CountBelowAll(IntersectAll(cs), cs, f, n)
    ensures exists i | 0 <= i < |cs| && Covers(cs[i], f, n) :: CountAt(cs[i], f, n) == CountAt(IntersectAll(cs), f, n)
    decreases |cs|
  {
    if |cs| == 1 {
      assert Covers(cs[0], f, n) && CountAt(cs[0], f, n) == CountAt(IntersectAll(cs), f, n);
    } else if |cs| > 1 {
      var init, last := cs[..|cs| - 1], cs[|cs| - 1];
      assert cs == init + [last];
      IntersectAllSnoc(init, last);
      CoversRetain(IntersectAll(init), last);
      IntersectAllCountIsMin(init, f, n);
      CountBelowAllSnoc(init, last, f, n);
      var prev := IntersectAll(init);
      RetainLinesEntries(prev[f].linesCovered, last[f].linesCovered);
      assert IntersectAll(cs)[f].linesCovered == RetainLines(prev[f].linesCovered, last[f].linesCovered);
      if CountAt(last, f, n) < CountAt(prev, f, n) {
        assert Covers(cs[|cs| - 1], f, n) && CountAt(cs[|cs| - 1], f, n) == CountAt(IntersectAll(cs), f, n);
      } else {
        var i :| 0 <= i < |init| && Covers(init[i], f, n) && CountAt(init[i], f, n) == CountAt(prev, f, n);
        assert Covers(cs[i], f, n) && CountAt(cs[i], f, n) == CountAt(IntersectAll(cs), f, n);
      }
    }
  }

  /** No session of `cs` that is not flagged covers the line. */
  predicate NoneCovers(cs: seq<Coverages>, skipped: seq<bool>, f: string, n: int)
    requires |skipped| == |cs|
  {
    forall i | 0 <= i < |cs| && !skipped[i] :: !Covers(cs[i], f, n)
  }

  lemma SubtractEachSnoc(c: Coverages, cs: seq<Coverages>, skipped: seq<bool>, x: Coverages, b: bool)
    requires |skipped| == |cs|
    ensures SubtractEach(c, cs + [x], skipped + [b]) ==
            if b then SubtractEach(c, cs, skipped) else SessionSubtract(SubtractEach(c, cs, skipped), x)
  {
    assert (cs + [x])[..|cs|] == cs;
    assert (skipped + [b])[..|cs|] == skipped;
  }

  /** One more step of the fold over a prefix. */
  lemma SubtractEachStep(c: Coverages, cs: seq<Coverages>, skipped: seq<bool>, i: nat)
    requires |skipped| == |cs| && i < |cs|
    ensures SubtractEach(c, cs[..i + 1], skipped[..i + 1]) ==
            if skipped[i] then SubtractEach(c, cs[..i], skipped[..i])
            else SessionSubtract(SubtractEach(c, cs[..i], skipped[..i]), cs[i])
  {
    assert cs[..i + 1] == cs[..i] + [cs[i]] && skipped[..i + 1] == skipped[..i] + [skipped[i]];
    SubtractEachSnoc(c, cs[..i], skipped[..i], cs[i], skipped[i]);
  }

  lemma NoneCoversSnoc(cs: seq<Coverages>, skipped: seq<bool>, x: Coverages, b: bool, f: string, n: int)
    requires |skipped| == |cs|
    ensures NoneCovers(cs + [x], skipped + [b], f, n) <==> NoneCovers(cs, skipped, f, n) && (b || !Covers(x, f, n))
  {
    var cs', skipped' := cs + [x], skipped + [b];
    assert cs'[|cs|] == x && skipped'[|cs|] == b;
    assert forall i | 0 <= i < |cs| :: cs'[i] == cs[i] && skipped'[i] == skipped[i];
  }

  /** The result of the removals covers a line iff `c` covers it and no
      session that was removed covers it. */
  lemma {:induction false} CoversSubtractEach(c: Coverages, cs: seq<Coverages>, skipped: seq<bool>, f: string, n: int)
    requires |skipped| == |cs|
    ensures Covers(SubtractEach(c, cs, skipped), f, n) <==> Covers(c, f, n) && NoneCovers(cs, skipped, f, n)
    decreases |cs|
  {
    if cs != [] {
      var k := |cs| - 1;
      assert cs == cs[..k] + [cs[k]] && skipped == skipped[..k] + [skipped[k]];
      CoversSubtractEach(c, cs[..k], skipped[..k], f, n);
      SubtractEachSnoc(c, cs[..k], skipped[..k], cs[k], skipped[k]);
      CoversSubtract(SubtractEach(c, cs[..k], skipped[..k]), cs[k]);
      NoneCoversSnoc(cs[..k], skipped[..k], cs[k], skipped[k], f, n);
    }
  }

  /** Once nothing is left, later removals cannot bring anything back:
      stopping early gives the full result. */
  lemma {:induction false} SubtractEachEmptyPrefix(c: Coverages, cs: seq<Coverages>, skipped: seq<bool>, j: nat)
    requires |skipped| == |cs| && j <= |cs| && SubtractEach(c, cs[..j], skipped[..j]) == map[]
    ensures SubtractEach(c, cs, skipped) == map[]
    decreases |cs|
  {
    if j == |cs| {
      assert cs[..j] == cs && skipped[..j] == skipped;
    } else {
      var k := |cs| - 1;
      assert cs[..k][..j] == cs[..j] && skipped[..k][..j] == skipped[..j];
      SubtractEachEmptyPrefix(c, cs[..k], skipped[..k], j);
      EmptyStaysEmpty(cs[k]);
    }
  }

  /** What is unique to `c` is what `c` covers and no session of `ss`
      outside `skip` covers. */
  lemma CoversUniqueOf(c: Coverages, ss: seq<JacocoSession>, skip: set<JacocoSession>, f: string, n: int)
    ensures Covers(UniqueOf(c, ss, skip), f, n) <==>
            Covers(c, f, n) && forall i | 0 <= i < |ss| && ss[i] !in skip :: !Covers(ss[i].coverage, f, n)
  {
    CoversSubtractEach(c, Snapshot(ss), Skipped(ss, skip), f, n);
  }

  /** Once the intersection of a prefix is empty, later sessions cannot
      bring anything back: stopping early gives the full intersection. */
  lemma {:induction false} IntersectEmptyPrefix(cs: seq<Coverages>, j: nat)
    requires 1 <= j <= |cs| && |IntersectAll(cs[..j])| == 0
    ensures IntersectAll(cs) == IntersectAll(cs[..j])
    decreases |cs|
  {
    if j == |cs| {
      assert cs[..j] == cs;
    } else {
      var init := cs[..|cs| - 1];
      assert init[..j] == cs[..j];
      IntersectEmptyPrefix(init, j);
      EmptyStaysEmpty(cs[|cs| - 1]);
    }
  }

  /** One step of the intersection loop: the first session is added to the
      empty session, each later one retained. */
  lemma IntersectStep(cs: seq<Coverages>, i: nat, prev: Coverages, next: Coverages)
    requires i < |cs| && prev == IntersectAll(cs[..i])
    requires next == if i == 0 then SessionUnion(prev, cs[i]) else SessionRetain(prev, cs[i])
    ensures next == IntersectAll(cs[..i + 1])
  {
    assert cs[..i + 1] == cs[..i] + [cs[i]];
    IntersectAllSnoc(cs[..i], cs[i]);
    if i == 0 {
      SessionUnionEmpty(cs[i]);
    }
  }

  /** The report hands out each of its sessions exactly once. */
  lemma SessionsAreTheValues(r: JacocoCoverageReport)
    requires r.Valid()
    ensures |r.Sessions()| == |r.sessions|
    ensures forall t :: t in r.Sessions() <==> t in r.sessions.Values
  {
    var all := r.Sessions();
    forall t | t in r.sessions.Values ensures t in all {
      var id :| id in r.sessions && r.sessions[id] == t;
      var i :| 0 <= i < |r.order| && r.order[i] == id;
      assert all[i] == t;
    }
    DistinctCard(r.order, r.sessions.Keys);
  }

  /** Filing a session (what `AddSession` does to the session map) grows the
      number of sessions by one exactly when its id is new; a replacement
      keeps the number. */
  lemma FilingCount(sessions: map<string, JacocoSession>, s: JacocoSession)
    ensures |sessions[s.id := s]| == |sessions| + if s.id in sessions then 0 else 1
  {
    if s.id in sessions {
      assert sessions[s.id := s].Keys == sessions.Keys;
    } else {
      assert sessions[s.id := s].Keys == sessions.Keys + {s.id};
    }
    assert |sessions[s.id := s]| == |sessions[s.id := s].Keys| && |sessions| == |sessions.Keys|;
  }

  /** Within a report, what is unique to `c` is what `c` covers and no
      session of the report outside `skip` covers. */
  lemma UniqueInReport(r: JacocoCoverageReport, c: Coverages, skip: set<JacocoSession>, f: string, n: int)
    requires r.Valid()
    ensures Covers(UniqueOf(c, r.Sessions(), skip), f, n) <==>
            Covers(c, f, n) && forall t | t in r.sessions.Values && t !in skip :: !Covers(t.coverage, f, n)
  {
    SessionsAreTheValues(r);
    var all := r.Sessions();
    CoversUniqueOf(c, all, skip, f, n);
    if Covers(c, f, n) && forall i | 0 <= i < |all| && all[i] !in skip :: !Covers(all[i].coverage, f, n) {
      forall t | t in r.sessions.Values && t !in skip ensures !Covers(t.coverage, f, n) {
        var i :| 0 <= i < |all| && all[i] == t;
      }
    }
  }

  /** Within a report, the unique contribution of a session covers a line
      iff the session covers it and no other session of the report does. */
  lemma UniqueContributionMeaning(r: JacocoCoverageReport, s: JacocoSession, f: string, n: int)
    requires r.Valid()
    ensures Covers(UniqueOf(s.coverage, r.Sessions(), {s}), f, n) <==>
            Covers(s.coverage, f, n) && forall t | t in r.sessions.Values && t != s :: !Covers(t.coverage, f, n)
  {
    UniqueInReport(r, s.coverage, {s}, f, n);
  }

  /** Within a report, the unique contribution of a group covers a line iff
      some session of the group covers it and no session of the report
      outside the group does. */
  lemma GroupContributionMeaning(r: JacocoCoverageReport, group: seq<JacocoSession>, f: string, n: int)
    requires r.Valid()
    ensures Covers(UniqueOf(UnionAll(Snapshot(group)), r.Sessions(), (set g | g in group)), f, n) <==>
            (exists i | 0 <= i < |group| :: Covers(group[i].coverage, f, n)) &&
            forall t | t in r.sessions.Values && t !in group :: !Covers(t.coverage, f, n)
  {
    UniqueInReport(r, UnionAll(Snapshot(group)), (set g | g in group), f, n);
    CoversUnionAll(Snapshot(group), f, n);
  }
}
