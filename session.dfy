/** A session: coverage records keyed by the full name of their method, with
    the union (`add`), subtraction (`remove`) and intersection (`retain`)
    operations that every cross-session computation is built from. */
module Session {
  import opened Util
  import opened Structure
  import opened Coverage

  /** Method coverage records by method full name. */
  type Coverages = map<string, MethodCoverage>

  /** Line `lineNumber` of the method named `fullName` is covered. */
  predicate Covers(c: Coverages, fullName: string, lineNumber: int) {
    fullName in c && lineNumber in c[fullName].linesCovered
  }

  /** Covered instructions recorded for a covered line. */
  function CountAt(c: Coverages, fullName: string, lineNumber: int): int
    requires Covers(c, fullName, lineNumber)
  {
    c[fullName].linesCovered[lineNumber].instructionsCovered
  }

  /** The covered lines of one method, none when the method has no entry. */
  function LinesOf(c: Coverages, fullName: string): Lines {
    if fullName in c then c[fullName].linesCovered else map[]
  }

  /** No method entry without covered lines. */
  ghost predicate NoEmptyEntries(c: Coverages) {
    forall k | k in c :: c[k].linesCovered != map[]
  }

  /** Every record is filed under its own method's full name. */
  ghost predicate KeyedByFullName(c: Coverages) {
    forall k | k in c :: c[k].target.FullName() == k
  }

  /** Session union: every method of either side, each with the union of its
      lines; a method new to the receiver gets a fresh record with the
      operand's method. */
  function SessionUnion(a: Coverages, b: Coverages): (r: Coverages)
    ensures r.Keys == a.Keys + b.Keys
  {
    map k | k in a.Keys + b.Keys ::
      MethodCoverage(if k in a then a[k].target else b[k].target, UnionLines(LinesOf(a, k), LinesOf(b, k)))
  }

  /** Session subtraction: only methods the operand covers lose lines, and
      such a method whose lines are all gone loses its entry. */
  function SessionSubtract(a: Coverages, b: Coverages): (r: Coverages)
    ensures r.Keys <= a.Keys
  {
    map k | k in a && (k !in b || SubtractLines(a[k].linesCovered, b[k].linesCovered) != map[]) ::
      MethodCoverage(a[k].target, SubtractLines(a[k].linesCovered, LinesOf(b, k)))
  }

  /** Session intersection: the methods both cover whose line intersection is
      not empty, each with the retained lines. */
  function SessionRetain(a: Coverages, b: Coverages): (r: Coverages)
    ensures r.Keys <= a.Keys * b.Keys
  {
    map k | k in a && k in b && RetainLines(a[k].linesCovered, b[k].linesCovered) != map[] ::
      MethodCoverage(a[k].target, RetainLines(a[k].linesCovered, b[k].linesCovered))
  }

  /** A line is covered after a union iff either side covers it. */
  lemma CoversUnion(a: Coverages, b: Coverages)
    ensures forall f, n :: Covers(SessionUnion(a, b), f, n) <==> Covers(a, f, n) || Covers(b, f, n)
  {
  }

  /** A line is covered after a subtraction iff the receiver covers it and
      the operand does not. */
  lemma CoversSubtract(a: Coverages, b: Coverages)
    ensures forall f, n :: Covers(SessionSubtract(a, b), f, n) <==> Covers(a, f, n) && !Covers(b, f, n)
  {
  }

  /** A line is covered after a retention iff both sides cover it. */
  lemma CoversRetain(a: Coverages, b: Coverages)
    ensures forall f, n :: Covers(SessionRetain(a, b), f, n) <==> Covers(a, f, n) && Covers(b, f, n)
  {
  }

  /** The three operations never leave a method entry without lines behind,
      and keep every record under its method's full name. */
  lemma OperationsKeepInvariants(a: Coverages, b: Coverages)
    ensures NoEmptyEntries(a) && NoEmptyEntries(b) ==> NoEmptyEntries(SessionUnion(a, b))
    ensures NoEmptyEntries(a) ==> NoEmptyEntries(SessionSubtract(a, b))
    ensures NoEmptyEntries(SessionRetain(a, b))
    ensures KeyedByFullName(a) && KeyedByFullName(b) ==> KeyedByFullName(SessionUnion(a, b))
    ensures KeyedByFullName(a) ==> KeyedByFullName(SessionSubtract(a, b))
    ensures KeyedByFullName(a) ==> KeyedByFullName(SessionRetain(a, b))
  {
  }

  /** Union with nothing leaves a session as it is. */
  lemma SessionUnionWithNothing(a: Coverages)
    ensures SessionUnion(a, map[]) == a
  {
    forall k | k in a ensures SessionUnion(a, map[])[k] == a[k] {
      UnionWithEmpty(a[k].linesCovered);
    }
  }

  /** The record union gives a method when the operand has lines for it. */
  function UnionEntry(a: Coverages, k: string, v: MethodCoverage): MethodCoverage {
    MethodCoverage(if k in a then a[k].target else v.target, UnionLines(LinesOf(a, k), v.linesCovered))
  }

  /** One more operand entry changes the union at that key only. */
  lemma SessionUnionStep(a: Coverages, d: Coverages, k: string, v: MethodCoverage)
    requires k !in d
    ensures SessionUnion(a, d[k := v]) == SessionUnion(a, d)[k := UnionEntry(a, k, v)]
  {
    var l, r := SessionUnion(a, d[k := v]), SessionUnion(a, d)[k := UnionEntry(a, k, v)];
    assert l.Keys == r.Keys;
    forall j | j in l ensures l[j] == r[j] {
      SessionUnionStepAt(a, d, k, v, j);
    }
  }

  lemma SessionUnionStepAt(a: Coverages, d: Coverages, k: string, v: MethodCoverage, j: string)
    requires k !in d && j in SessionUnion(a, d[k := v])
    ensures SessionUnion(a, d[k := v])[j] == SessionUnion(a, d)[k := UnionEntry(a, k, v)][j]
  {
    if j != k {
      assert LinesOf(d[k := v], j) == LinesOf(d, j);
    } else {
      assert LinesOf(d[k := v], j) == v.linesCovered;
    }
  }

  /** A key the operand has not reached yet holds the receiver's record. */
  lemma SessionUnionUntouched(a: Coverages, d: Coverages, k: string)
    requires k !in d
    ensures k in SessionUnion(a, d) <==> k in a
    ensures k in a ==> SessionUnion(a, d)[k] == a[k]
  {
    if k in a {
      UnionWithEmpty(a[k].linesCovered);
    }
  }

  /** One more operand entry leaves the subtraction as it is away from its key. */
  lemma SessionSubtractAgreesOff(a: Coverages, d: Coverages, k: string, v: MethodCoverage)
    requires k !in d
    ensures forall j | j != k :: j in SessionSubtract(a, d[k := v]) <==> j in SessionSubtract(a, d)
    ensures forall j | j != k && j in SessionSubtract(a, d) ::
              SessionSubtract(a, d[k := v])[j] == SessionSubtract(a, d)[j]
  {
    forall j | j != k
      ensures j in SessionSubtract(a, d[k := v]) <==> j in SessionSubtract(a, d)
      ensures j in SessionSubtract(a, d) ==> SessionSubtract(a, d[k := v])[j] == SessionSubtract(a, d)[j]
    {
      assert LinesOf(d[k := v], j) == LinesOf(d, j);
    }
  }

  /** An operand entry for a method the receiver lacks changes nothing. */
  lemma SessionSubtractStepAbsent(a: Coverages, d: Coverages, k: string, v: MethodCoverage)
    requires k !in d && k !in a
    ensures SessionSubtract(a, d[k := v]) == SessionSubtract(a, d)
  {
    SessionSubtractAgreesOff(a, d, k, v);
  }

  /** An operand entry that takes all of a method's lines drops the method. */
  lemma SessionSubtractStepEmptied(a: Coverages, d: Coverages, k: string, v: MethodCoverage)
    requires k !in d && k in a && SubtractLines(a[k].linesCovered, v.linesCovered) == map[]
    ensures SessionSubtract(a, d[k := v]) == SessionSubtract(a, d) - {k}
  {
    SessionSubtractAgreesOff(a, d, k, v);
    assert SessionSubtract(a, d[k := v]).Keys == (SessionSubtract(a, d) - {k}).Keys;
  }

  /** Any other operand entry replaces the method's lines by what remains. */
  lemma SessionSubtractStepReduced(a: Coverages, d: Coverages, k: string, v: MethodCoverage)
    requires k !in d && k in a && SubtractLines(a[k].linesCovered, v.linesCovered) != map[]
    ensures SessionSubtract(a, d[k := v]) ==
            SessionSubtract(a, d)[k := MethodCoverage(a[k].target, SubtractLines(a[k].linesCovered, v.linesCovered))]
  {
    var l := SessionSubtract(a, d[k := v]);
    var r := SessionSubtract(a, d)[k := MethodCoverage(a[k].target, SubtractLines(a[k].linesCovered, v.linesCovered))];
    SessionSubtractAgreesOff(a, d, k, v);
    assert LinesOf(d[k := v], k) == v.linesCovered;
    assert k in l && l[k] == r[k];
    assert l.Keys == r.Keys;
    assert forall j | j in l :: l[j] == r[j];
  }

  /** Subtracting nothing leaves a session as it is. */
  lemma SessionSubtractNothing(a: Coverages)
    ensures SessionSubtract(a, map[]) == a
  {
    forall k | k in a ensures SessionSubtract(a, map[])[k] == a[k] {
      assert SubtractLines(a[k].linesCovered, map[]) == a[k].linesCovered;
    }
  }

  /** One step of `add`: merges the operand's record for `k` into the
      receiver's, or files a fresh record when the receiver has none. */
  method MergeEntry(acc: Coverages, ghost a: Coverages, ghost done: Coverages, k: string, v: MethodCoverage)
    returns (r: Coverages)
    requires k !in done && acc == SessionUnion(a, done)
    ensures r == SessionUnion(a, done[k := v])
  {
    SessionUnionStep(a, done, k, v);
    SessionUnionUntouched(a, done, k);
    if k !in acc {
      var created := AddLinesCovered(MethodCoverage(v.target, map[]), v);
      assert LinesOf(a, k) == map[];
      r := acc[k := created];
    } else {
      var merged := AddLinesCovered(acc[k], v);
      assert LinesOf(a, k) == acc[k].linesCovered;
      r := acc[k := merged];
    }
  }

  /** `retain` marks the receiver's entry `k` for removal. */
  predicate Doomed(a: Coverages, b: Coverages, k: string)
    requires k in a
  {
    k !in b || RetainLines(a[k].linesCovered, b[k].linesCovered) == map[]
  }

  /** The receiver's entries once `retain`'s first pass has visited `visited`. */
  function RetainPass(a: Coverages, b: Coverages, visited: set<string>): (r: Coverages)
    ensures r.Keys == a.Keys
  {
    map k | k in a ::
      if k in visited && k in b then MethodCoverage(a[k].target, RetainLines(a[k].linesCovered, b[k].linesCovered))
      else a[k]
  }

  /** The entries `retain`'s first pass has marked once it has visited `visited`. */
  function Marked(a: Coverages, b: Coverages, visited: set<string>): set<string> {
    set k | k in visited && k in a && Doomed(a, b, k)
  }

  lemma RetainPassStep(a: Coverages, b: Coverages, visited: set<string>, k: string)
    requires k in a && k !in visited
    ensures RetainPass(a, b, visited + {k}) ==
            RetainPass(a, b, visited)[k := if k in b then MethodCoverage(a[k].target, RetainLines(a[k].linesCovered, b[k].linesCovered)) else a[k]]
    ensures Marked(a, b, visited + {k}) == Marked(a, b, visited) + (if Doomed(a, b, k) then {k} else {})
  {
  }

  /** After the first pass has visited every entry, dropping the marked ones
      leaves exactly the session intersection. */
  lemma RetainPassComplete(a: Coverages, b: Coverages)
    ensures RetainPass(a, b, a.Keys) - Marked(a, b, a.Keys) == SessionRetain(a, b)
  {
    var l, r := RetainPass(a, b, a.Keys) - Marked(a, b, a.Keys), SessionRetain(a, b);
    assert l.Keys == r.Keys;
  }

  /** `retain`'s first pass: intersects each of the receiver's entries with
      the operand's entry for the same method, and marks the entries the
      operand lacks or that end up without lines. */
  method RetainFirstPass(a: Coverages, src: Coverages) returns (acc: Coverages, toRemove: set<string>)
    ensures acc == RetainPass(a, src, a.Keys)
    ensures toRemove == Marked(a, src, a.Keys)
  {
    acc, toRemove := a, {};
    var keys := a.Keys;
    while keys != {}
      invariant keys <= a.Keys
      invariant acc == RetainPass(a, src, a.Keys - keys)
      invariant toRemove == Marked(a, src, a.Keys - keys)
      decreases keys
    {
      var k := Choose(keys);
      VisitElement(a.Keys, keys, k);
      RetainPassStep(a, src, a.Keys - keys, k);
      if k in src {
        var retained := RetainLinesCovered(acc[k], src[k]);
        acc := acc[k := retained];
        if retained.NumberOfLinesCovered() == 0 {
          toRemove := toRemove + {k};
        }
      } else {
        toRemove := toRemove + {k};
      }
      keys := keys - {k};
    }
  }

  /** The per-method term of the covered-line sum. */
  function LinesCount(mc: MethodCoverage): int { mc.NumberOfLinesCovered() }

  class JacocoSession {
    const id: string
    var coverage: Coverages

    constructor(id: string)
      ensures this.id == id && coverage == map[]
    {
      this.id := id;
      coverage := map[];
    }

    /** Files a record under its method's full name, replacing any earlier one. */
    method AddCoverage(mc: MethodCoverage)
      modifies this
      ensures coverage == old(coverage)[mc.target.FullName() := mc]
    {
      coverage := coverage[mc.target.FullName() := mc];
    }

    function GetCoverage(fullName: string): Option<MethodCoverage>
      reads this
    {
      if fullName in coverage then Some(coverage[fullName]) else None
    }

    /** The line's method has an entry and that entry covers the line's number. */
    predicate CoversLine(l: Line)
      reads this
    {
      match GetCoverage(l.owner)
      case None => false
      case Some(mc) => mc.IsLineCovered(l.lineNumber)
    }

    function NumberOfCoveredMethods(): nat
      reads this
    {
      |coverage|
    }

    /** The number of covered lines: the sum of the per-method line counts. */
    method NumberOfLinesCovered() returns (n: int)
      ensures n == Sum(coverage, LinesCount)
    {
      n := SumValues(coverage, LinesCount);
    }

    /** add: unions the operand's coverage into this session, method by method. */
    method Add(other: JacocoSession)
      modifies this
      ensures coverage == SessionUnion(old(coverage), old(other.coverage))
    {
      var a, src := coverage, other.coverage;
      var acc := a;
      var keys := src.Keys;
      SessionUnionWithNothing(a);
      assert src - keys == map[];
      while keys != {}
        invariant keys <= src.Keys
        invariant acc == SessionUnion(a, src - keys)
        decreases keys
      {
        var k := Choose(keys);
        VisitKey(src, keys, k);
        acc := MergeEntry(acc, a, src - keys, k, src[k]);
        keys := keys - {k};
      }
      assert src - keys == src;
      coverage := acc;
    }

    /** remove: subtracts the operand's lines from the methods the operand
        covers, dropping a method entry whose lines are all gone. */
    method Remove(other: JacocoSession)
      requires other != this
      modifies this
      ensures coverage == SessionSubtract(old(coverage), other.coverage)
    {
      var a, src := coverage, other.coverage;
      var keys := src.Keys;
      SessionSubtractNothing(a);
      assert src - keys == map[];
      while keys != {}
        invariant keys <= src.Keys
        invariant coverage == SessionSubtract(a, src - keys)
        decreases keys
      {
        var k := Choose(keys);
        VisitKey(src, keys, k);
        ghost var done := src - keys;
        if k in coverage {
          assert coverage[k].linesCovered == a[k].linesCovered;
          var reduced := RemoveLinesCovered(coverage[k], src[k]);
          if reduced.NumberOfLinesCovered() == 0 {
            SessionSubtractStepEmptied(a, done, k, src[k]);
            coverage := coverage - {k};
          } else {
            SessionSubtractStepReduced(a, done, k, src[k]);
            coverage := coverage[k := reduced];
          }
        } else {
          SessionSubtractStepAbsent(a, done, k, src[k]);
        }
        keys := keys - {k};
      }
      assert src - keys == src;
    }

    /** retain: intersects every entry with the operand's entry for the same
        method, marking entries the operand lacks or that end up empty; the
        marked entries are removed afterwards. */
    method Retain(other: JacocoSession)
      modifies this
      ensures coverage == SessionRetain(old(coverage), old(other.coverage))
    {
      var acc, toRemove := RetainFirstPass(coverage, other.coverage);
      RetainPassComplete(old(coverage), old(other.coverage));
      coverage := RemoveKeys(acc, toRemove);
    }
  }

  // ---------------------------------------------------------------------
  // Algebra of sessions

  /** Union of sessions is commutative on the covered lines and on the
      covered-instruction counts. */
  lemma SessionUnionCommutes(a: Coverages, b: Coverages)
    ensures forall f, n :: Covers(SessionUnion(a, b), f, n) <==> Covers(SessionUnion(b, a), f, n)
    ensures forall f, n | Covers(SessionUnion(a, b), f, n) ::
              CountAt(SessionUnion(a, b), f, n) == CountAt(SessionUnion(b, a), f, n)
  {
    forall f, n | Covers(SessionUnion(a, b), f, n)
      ensures CountAt(SessionUnion(a, b), f, n) == CountAt(SessionUnion(b, a), f, n)
    {
      UnionCommutes(LinesOf(a, f), LinesOf(b, f));
    }
  }

  /** The lines a union covers in one method are the union of both sides'. */
  lemma LinesOfUnion(a: Coverages, b: Coverages, f: string)
    ensures LinesOf(SessionUnion(a, b), f) == UnionLines(LinesOf(a, f), LinesOf(b, f))
  {
    if f !in a && f !in b {
      assert UnionLines(map[], map[]) == map[];
    }
  }

  lemma SessionUnionAssociatesAt(a: Coverages, b: Coverages, c: Coverages, f: string)
    ensures LinesOf(SessionUnion(SessionUnion(a, b), c), f).Keys == LinesOf(SessionUnion(a, SessionUnion(b, c)), f).Keys
    ensures forall n | n in LinesOf(SessionUnion(SessionUnion(a, b), c), f) ::
              LinesOf(SessionUnion(SessionUnion(a, b), c), f)[n].instructionsCovered ==
              LinesOf(SessionUnion(a, SessionUnion(b, c)), f)[n].instructionsCovered
  {
    LinesOfUnion(a, b, f);
    LinesOfUnion(b, c, f);
    LinesOfUnion(SessionUnion(a, b), c, f);
    LinesOfUnion(a, SessionUnion(b, c), f);
    UnionAssociates(LinesOf(a, f), LinesOf(b, f), LinesOf(c, f));
  }

  /** Union of sessions is associative on the covered lines and on the
      covered-instruction counts. */
  lemma SessionUnionAssociates(a: Coverages, b: Coverages, c: Coverages)
    ensures forall f, n :: Covers(SessionUnion(SessionUnion(a, b), c), f, n) <==>
                           Covers(SessionUnion(a, SessionUnion(b, c)), f, n)
    ensures forall f, n | Covers(SessionUnion(SessionUnion(a, b), c), f, n) ::
              CountAt(SessionUnion(SessionUnion(a, b), c), f, n) ==
              CountAt(SessionUnion(a, SessionUnion(b, c)), f, n)
  {
    var l, r := SessionUnion(SessionUnion(a, b), c), SessionUnion(a, SessionUnion(b, c));
    forall f, n
      ensures Covers(l, f, n) <==> Covers(r, f, n)
      ensures Covers(l, f, n) ==> CountAt(l, f, n) == CountAt(r, f, n)
    {
      SessionUnionAssociatesAt(a, b, c, f);
    }
  }

  /** A session with no covered methods is a unit of union. */
  lemma SessionUnionEmpty(a: Coverages)
    ensures SessionUnion(map[], a) == a
  {
    forall k | k in a ensures SessionUnion(map[], a)[k] == a[k] {
      UnionWithEmpty(a[k].linesCovered);
    }
  }

  /** Retaining a session without empty entries against itself changes nothing. */
  lemma SessionRetainIdempotent(a: Coverages)
    requires NoEmptyEntries(a)
    ensures SessionRetain(a, a) == a
  {
    forall k | k in a ensures RetainLines(a[k].linesCovered, a[k].linesCovered) == a[k].linesCovered {
      RetainIdempotent(a[k].linesCovered);
    }
  }

  /** Nothing can be subtracted from or retained in an empty session. */
  lemma EmptyStaysEmpty(b: Coverages)
    ensures SessionSubtract(map[], b) == map[]
    ensures SessionRetain(map[], b) == map[]
  {
  }

  /** A session covers a line exactly when its coverage map covers the line's
      number under the line's method. */
  lemma CoversLineMeaning(s: JacocoSession, l: Line)
    ensures s.CoversLine(l) <==> Covers(s.coverage, l.owner, l.lineNumber)
  {
  }
}
