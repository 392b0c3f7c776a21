/** Coverage of one method in one session: the covered lines by number, and
    the union / subtract / retain algebra on them. */
module Coverage {
  import opened Util
  import opened Structure

  /** One run's coverage of a line: the line and how many of its instructions
      and branches were covered. */
  datatype LineCoverage = LineCoverage(line: Line, instructionsCovered: int, branchesCovered: int)

  function InstructionsCovered(c: LineCoverage): int { c.instructionsCovered }
  function BranchesCovered(c: LineCoverage): int { c.branchesCovered }

  /** Covered lines by line number. */
  type Lines = map<int, LineCoverage>

  function Max(x: int, y: int): int { if x < y then y else x }
  function Min(x: int, y: int): int { if x < y then x else y }

  /** Union: every line of either side; on a line both cover, the entry with
      more covered instructions, the receiver's on a tie. */
  function UnionLines(a: Lines, b: Lines): (r: Lines)
    ensures r.Keys == a.Keys + b.Keys
  {
    map k | k in a.Keys + b.Keys ::
      if k in b && (k !in a || a[k].instructionsCovered < b[k].instructionsCovered) then b[k] else a[k]
  }

  /** What the union keeps: a line of one side only keeps its entry; a line
      of both keeps the larger count, and the receiver's entry on a tie. */
  lemma UnionLinesEntries(a: Lines, b: Lines)
    ensures forall k | k in a && k !in b :: UnionLines(a, b)[k] == a[k]
    ensures forall k | k !in a && k in b :: UnionLines(a, b)[k] == b[k]
    ensures forall k | k in a && k in b ::
              UnionLines(a, b)[k].instructionsCovered == Max(a[k].instructionsCovered, b[k].instructionsCovered)
    ensures forall k | k in a && k in b ::
              UnionLines(a, b)[k] == (if a[k].instructionsCovered < b[k].instructionsCovered then b[k] else a[k])
  {
  }

  /** Subtraction: the receiver's lines whose number the operand does not
      cover, whatever the counts; survivors keep their entry. */
  function SubtractLines(a: Lines, b: Lines): (r: Lines)
    ensures r.Keys == a.Keys - b.Keys
    ensures forall k | k in r :: r[k] == a[k]
  {
    a - b.Keys
  }

  /** Retention: the lines both cover; each keeps the entry with fewer covered
      instructions, the receiver's on a tie. */
  function RetainLines(a: Lines, b: Lines): (r: Lines)
    ensures r.Keys == a.Keys * b.Keys
  {
    map k | k in a.Keys * b.Keys ::
      if b[k].instructionsCovered < a[k].instructionsCovered then b[k] else a[k]
  }

  /** What the retention keeps: on every line both cover, the smaller count,
      and the receiver's entry on a tie. */
  lemma RetainLinesEntries(a: Lines, b: Lines)
    ensures forall k | k in a && k in b ::
              RetainLines(a, b)[k].instructionsCovered == Min(a[k].instructionsCovered, b[k].instructionsCovered)
    ensures forall k | k in a && k in b ::
              RetainLines(a, b)[k] == (if b[k].instructionsCovered < a[k].instructionsCovered then b[k] else a[k])
  {
  }

  /** The coverage record of one method: the method and its covered lines. */
  datatype MethodCoverage = MethodCoverage(target: Method, linesCovered: Lines) {

    function IsLineCovered(lineNumber: int): bool {
      lineNumber in linesCovered
    }

    function NumberOfLinesCovered(): nat {
      |linesCovered|
    }
  }

  /** addLinesCovered: merges the operand's lines into the receiver's map,
      entry by entry. The target method is kept. */
  method AddLinesCovered(self: MethodCoverage, toAdd: MethodCoverage) returns (r: MethodCoverage)
    ensures r.target == self.target
    ensures r.linesCovered == UnionLines(self.linesCovered, toAdd.linesCovered)
  {
    var a, b := self.linesCovered, toAdd.linesCovered;
    var acc := a;
    var rest := b.Keys;
    while rest != {}
      invariant rest <= b.Keys
      invariant acc == UnionLines(a, b - rest)
      decreases rest
    {
      var k := Choose(rest);
      ghost var before := b - rest;
      if k in acc {
        if acc[k].instructionsCovered < b[k].instructionsCovered {
          acc := acc[k := b[k]];
        }
      } else {
        acc := acc[k := b[k]];
      }
      rest := rest - {k};
      assert b - rest == before[k := b[k]];
    }
    assert b - rest == b;
    r := MethodCoverage(self.target, acc);
  }

  /** removeLinesCovered: first collects the operand's line numbers, then
      removes each of them from the receiver's map. */
  method RemoveLinesCovered(self: MethodCoverage, remove: MethodCoverage) returns (r: MethodCoverage)
    ensures r.target == self.target
    ensures r.linesCovered == SubtractLines(self.linesCovered, remove.linesCovered)
  {
    var a, b := self.linesCovered, remove.linesCovered;
    var toRemove: set<int> := {};
    var entries := b.Keys;
    while entries != {}
      invariant entries <= b.Keys
      invariant toRemove == b.Keys - entries
      decreases entries
    {
      var k := Choose(entries);
      toRemove := toRemove + {k};
      entries := entries - {k};
    }
    var acc := a;
    var rest := toRemove;
    while rest != {}
      invariant rest <= toRemove
      invariant acc == a - (toRemove - rest)
      decreases rest
    {
      var k := Choose(rest);
      acc := acc - {k};
      rest := rest - {k};
    }
    r := MethodCoverage(self.target, acc);
  }

  /** retainLinesCovered: walks the receiver's entries, lowering an entry to
      the operand's when the operand covers fewer instructions and marking the
      lines the operand lacks; the marked lines are removed afterwards. */
  method RetainLinesCovered(self: MethodCoverage, toRetain: MethodCoverage) returns (r: MethodCoverage)
    ensures r.target == self.target
    ensures r.linesCovered == RetainLines(self.linesCovered, toRetain.linesCovered)
  {
    var a, b := self.linesCovered, toRetain.linesCovered;
    var acc := a;
    var toRemove: set<int> := {};
    var rest := a.Keys;
    while rest != {}
      invariant rest <= a.Keys
      invariant acc.Keys == a.Keys
      invariant toRemove == (a.Keys - rest) - b.Keys
      invariant forall k | k in rest :: acc[k] == a[k]
      invariant forall k | k in a && k !in rest && k in b :: acc[k] == RetainLines(a, b)[k]
      decreases rest
    {
      var k := Choose(rest);
      if k in b {
        if b[k].instructionsCovered < acc[k].instructionsCovered {
          acc := acc[k := b[k]];
        }
      } else {
        toRemove := toRemove + {k};
      }
      rest := rest - {k};
    }
    var removeRest := toRemove;
    ghost var kept := acc;
    while removeRest != {}
      invariant removeRest <= toRemove
      invariant acc == kept - (toRemove - removeRest)
      decreases removeRest
    {
      var k := Choose(removeRest);
      acc := acc - {k};
      removeRest := removeRest - {k};
    }
    assert acc.Keys == RetainLines(a, b).Keys;
    assert forall k | k in acc :: acc[k] == kept[k] == RetainLines(a, b)[k];
    r := MethodCoverage(self.target, acc);
  }

  /** Covered instructions of a method: the sum over its covered lines. */
  method GetInstructionsCovered(mc: MethodCoverage) returns (total: int)
    ensures total == Sum(mc.linesCovered, InstructionsCovered)
  {
    total := SumValues(mc.linesCovered, InstructionsCovered);
  }

  /** Covered branches of a method: the sum over its covered lines. */
  method GetBranchesCovered(mc: MethodCoverage) returns (total: int)
    ensures total == Sum(mc.linesCovered, BranchesCovered)
  {
    total := SumValues(mc.linesCovered, BranchesCovered);
  }

  // ---------------------------------------------------------------------
  // Algebra of the line maps

  /** Union is commutative on what is covered and on how much. */
  lemma UnionCommutes(a: Lines, b: Lines)
    ensures UnionLines(a, b).Keys == UnionLines(b, a).Keys
    ensures forall k | k in UnionLines(a, b) ::
              UnionLines(a, b)[k].instructionsCovered == UnionLines(b, a)[k].instructionsCovered
  {
  }

  /** Union is associative on what is covered and on how much. */
  lemma UnionAssociates(a: Lines, b: Lines, c: Lines)
    ensures UnionLines(UnionLines(a, b), c).Keys == UnionLines(a, UnionLines(b, c)).Keys
    ensures forall k | k in UnionLines(UnionLines(a, b), c) ::
              UnionLines(UnionLines(a, b), c)[k].instructionsCovered ==
              UnionLines(a, UnionLines(b, c))[k].instructionsCovered
  {
  }

  /** An empty map is a unit of union on either side. */
  lemma UnionWithEmpty(a: Lines)
    ensures UnionLines(map[], a) == a
    ensures UnionLines(a, map[]) == a
  {
  }

  /** Retaining a map against itself changes nothing. */
  lemma RetainIdempotent(a: Lines)
    ensures RetainLines(a, a) == a
  {
  }

  /** The receiver's lines split into those the operand also covers and
      those it does not. */
  lemma SubtractAndRetainPartition(a: Lines, b: Lines)
    ensures SubtractLines(a, b).Keys !! RetainLines(a, b).Keys
    ensures SubtractLines(a, b).Keys + RetainLines(a, b).Keys == a.Keys
  {
  }

  /** Removing and retaining the same operand split a record's covered lines:
      a line is covered in the receiver exactly when it is covered in one of
      the two results, and the two line counts add up to the receiver's. */
  lemma SubtractAndRetainCounts(mc: MethodCoverage, other: MethodCoverage)
    ensures var rest := MethodCoverage(mc.target, SubtractLines(mc.linesCovered, other.linesCovered));
            var kept := MethodCoverage(mc.target, RetainLines(mc.linesCovered, other.linesCovered));
            && (forall n :: mc.IsLineCovered(n) <==> rest.IsLineCovered(n) || kept.IsLineCovered(n))
            && rest.NumberOfLinesCovered() + kept.NumberOfLinesCovered() == mc.NumberOfLinesCovered()
  {
    var a, b := mc.linesCovered, other.linesCovered;
    SubtractAndRetainPartition(a, b);
    var sk, rk := SubtractLines(a, b).Keys, RetainLines(a, b).Keys;
    assert |sk + rk| == |sk| + |rk|;
    assert |SubtractLines(a, b)| == |sk| && |RetainLines(a, b)| == |rk| && |a| == |a.Keys|;
  }

  /** Subtraction loses coverage: adding the operand back need not restore
      the union. */
  lemma SubtractThenUnionIsLossy()
    ensures exists a: Lines, b: Lines :: UnionLines(SubtractLines(a, b), b) != UnionLines(a, b)
  {
    var l := Line("p.C.m()", 1, 5, 0);
    var a := map[1 := LineCoverage(l, 5, 0)];
    var b := map[1 := LineCoverage(l, 3, 0)];
    assert UnionLines(SubtractLines(a, b), b)[1] == b[1];
    assert UnionLines(a, b)[1] == a[1];
  }
}
