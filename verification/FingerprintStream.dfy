/**
 * src/snapshot.rs: the canonical stream byte by byte. The order of the cells is written out, and one snapshot with
 * every kind of entity, tag and expression has its whole stream written out.
 */
module FingerprintStreams {
  import opened Common
  import opened BackendIr
  import opened Sorting
  import opened Deltas
  import opened Fnv1a
  import opened Fingerprints

  /** Constraint cells first, then by the target's ordinal, then by the variable's. */
  predicate NotAfter(a: OrdCell, b: OrdCell) {
    || a.kind < b.kind
    || (a.kind == b.kind && a.target < b.target)
    || (a.kind == b.kind && a.target == b.target && a.variable <= b.variable)
  }

  lemma OrderIsLexicographic(a: OrdCell, b: OrdCell)
    ensures CellOrder(a) <= CellOrder(b) <==> NotAfter(a, b)
  {
    WordsOrder(a.kind, a.target, b.kind, b.target);
    WordsOrder(a.kind * WORDS + a.target, a.variable, b.kind * WORDS + b.target, b.variable);
  }

  lemma WordsOrder(a: nat, low: Word, b: nat, high: Word)
    ensures a * WORDS + low <= b * WORDS + high <==> a < b || (a == b && low <= high)
    ensures a * WORDS + low == b * WORDS + high <==> a == b && low == high
  {
  }

  /** The stream lists its cells in that order. */
  lemma CellsAreInOrder(s: ModelSnapshot)
    requires InMemory(s)
    ensures
      var cells := Normalized(s).cells;
      && |cells| == |s.cells|
      && (forall i, j :: 0 <= i < j < |cells| ==> NotAfter(cells[i], cells[j]))
  {
    var keyed := KeyedCells(s);
    var sorted := StableSort(keyed, CellOrder);
    StableSortLength(keyed, CellOrder);
    StableSortIsStable(keyed, CellOrder, 0);
    forall i, j | 0 <= i < j < |sorted|
      ensures NotAfter(Normalized(s).cells[i], Normalized(s).cells[j])
    {
      OrderIsLexicographic(sorted[i], sorted[j]);
    }
  }

  // ---------------------------------------------------------------- a whole stream

  /** Two variables, one parameter, one constraint and one objective, and a cell of each, the objective's first. */
  function Sample(w: Word): ModelSnapshot {
    ModelSnapshot(
      41,
      [VariableEntry(8, 1, 2, Integer, true, Some(w), None), VariableEntry(6, 3, 4, Binary, false, None, Some(w))],
      [ConstraintEntry(9, 5, 6, true)],
      [ObjectiveEntry(7, Maximize, true, w)],
      [ParameterEntry(3, 99)],
      [CellEntry(OfObjective(7), 6, Neg(Param(3)), 98), CellEntry(OfConstraint(9), 8, SampleExpr(w), 97)])
  }

  /** Every other form, with a parameter the snapshot does not have. */
  function SampleExpr(w: Word): Expr {
    Add(Constant(w), Sub(Mul(Param(3), Constant(5)), Div(Constant(6), Param(4))))
  }

  function W(w: Word): seq<Byte> { LittleEndian(w, 8) }

  lemma SampleIsInMemory(w: Word)
    ensures InMemory(Sample(w)) && Writable(Normalized(Sample(w)))
  {
    NormalizedIsWritable(Sample(w));
  }

  lemma SortTwo<T>(x: T, y: T, key: T -> nat)
    requires key(y) < key(x)
    ensures StableSort([x, y], key) == [y, x]
  {
    assert [x, y][..1] == [x] && [x][..0] == [];
    assert StableSort([x], key) == [x];
    assert Insert([x], y, key) == [y, x] by {
      assert Insert([], y, key) == [y];
    }
  }

  lemma SampleExprs(w: Word)
    ensures OrdinalExpr(Neg(Param(3)), [3]) == Neg(Param(0))
    ensures OrdinalExpr(SampleExpr(w), [3])
      == Add(Constant(w), Sub(Mul(Param(0), Constant(5)), Div(Constant(6), Param(USIZE_MAX))))
  {
    assert [3][..0] == [];
    assert OrdinalOf([3], 3) == 0;
    assert OrdinalOf([3], 4) == USIZE_MAX;
  }

  /** The cells of the sample: the constraint's comes first, ids are ordinals, and the unknown parameter is all ones. */
  lemma SampleCells(w: Word)
    requires InMemory(Sample(w))
    ensures Normalized(Sample(w)).cells == [
      OrdCell(0, 0, 0, Add(Constant(w), Sub(Mul(Param(0), Constant(5)), Div(Constant(6), Param(USIZE_MAX))))),
      OrdCell(1, 0, 1, Neg(Param(0)))]
  {
    var s := Sample(w);
    var a, b := Keyed(s.cells[0], s), Keyed(s.cells[1], s);
    assert VarIds(s) == [8, 6] && ConIds(s) == [9] && ObjIds(s) == [7] && ParamIds(s) == [3];
    assert [8, 6][..1] == [8] && [8][..0] == [] && [9][..0] == [] && [7][..0] == [] && [3][..0] == [];
    assert a == OrdCell(1, 0, 1, Neg(Param(3)));
    assert b == OrdCell(0, 0, 0, SampleExpr(w));
    assert CellOrder(b) < CellOrder(a);
    assert KeyedCells(s) == [a, b] && [a, b][..1] == [a] && [a][..0] == [];
    SortTwo(a, b, CellOrder);
    var sorted := OrdinalCells(StableSort(KeyedCells(s), CellOrder), ParamIds(s));
    assert sorted == [b.(expr := OrdinalExpr(b.expr, [3])), a.(expr := OrdinalExpr(a.expr, [3]))];
    SampleExprs(w);
  }

  lemma EncodeOne<T(!new)>(x: T, encode: T --> seq<Byte>)
    requires encode.requires(x)
    ensures EncodeAll([x], encode) == encode(x)
  {
    assert [x][1..] == [];
    assert EncodeAll<T>([], encode) == [];
  }

  lemma EncodeTwo<T(!new)>(x: T, y: T, encode: T --> seq<Byte>)
    requires encode.requires(x) && encode.requires(y)
    ensures EncodeAll([x, y], encode) == encode(x) + encode(y)
  {
    EncodeOne(y, encode);
    assert [x, y][1..] == [y];
  }

  lemma EntityStreams(x: OrdVariable, y: OrdVariable, c: OrdConstraint, o: OrdObjective)
    ensures VariableSection([x, y]) == [0x01] + W(2) + (EncodeVariable(x) + EncodeVariable(y))
    ensures ConstraintSection([c]) == [0x03] + W(1) + EncodeConstraint(c)
    ensures ObjectiveSection([o]) == [0x04] + W(1) + EncodeObjective(o)
  {
    hide LittleEndian, EncodeVariable, EncodeConstraint, EncodeObjective;
    EncodeTwo(x, y, EncodeVariable);
    EncodeOne(c, EncodeConstraint);
    EncodeOne(o, EncodeObjective);
  }

  lemma CellStreams(a: OrdCell, b: OrdCell)
    requires OrdinalsAreWords(a.expr) && OrdinalsAreWords(b.expr)
    ensures CellSection([a, b]) == [0x05] + W(2) + (EncodeCell(a) + EncodeCell(b))
  {
    hide LittleEndian, EncodeCell;
    EncodeTwo(a, b, EncodeCell);
  }

  lemma VariableStreams(w: Word)
    ensures EncodeVariable(OrdVariable(1, 2, Integer, true, Some(w), None))
      == W(1) + W(2) + [1] + [1] + ([1] + W(w)) + [0]
    ensures EncodeVariable(OrdVariable(3, 4, Binary, false, None, Some(w)))
      == W(3) + W(4) + [2] + [0] + [0] + ([1] + W(w))
    ensures EncodeVariable(OrdVariable(5, 6, Continuous, true, None, None)) == W(5) + W(6) + [0] + [1] + [0] + [0]
  {
    hide LittleEndian;
  }

  lemma RowStreams(w: Word)
    ensures EncodeConstraint(OrdConstraint(5, 6, true)) == W(5) + W(6) + [1]
    ensures EncodeObjective(OrdObjective(Maximize, true, w)) == [1] + [1] + W(w)
    ensures EncodeObjective(OrdObjective(Minimize, false, w)) == [0] + [0] + W(w)
  {
    hide LittleEndian;
  }

  lemma ExprStreams(l: Expr, r: Expr, w: Word)
    requires OrdinalsAreWords(l) && OrdinalsAreWords(r)
    ensures EncodeExpr(Constant(w)) == [1] + W(w)
    ensures EncodeExpr(Param(w)) == [2] + W(w)
    ensures EncodeExpr(Add(l, r)) == [3] + (EncodeExpr(l) + EncodeExpr(r))
    ensures EncodeExpr(Sub(l, r)) == [4] + (EncodeExpr(l) + EncodeExpr(r))
    ensures EncodeExpr(Mul(l, r)) == [5] + (EncodeExpr(l) + EncodeExpr(r))
    ensures EncodeExpr(Div(l, r)) == [6] + (EncodeExpr(l) + EncodeExpr(r))
    ensures EncodeExpr(Neg(l)) == [7] + EncodeExpr(l)
  {
    hide LittleEndian;
  }

  /** The coefficient of the constraint cell, depth first. */
  lemma SampleExprStream(w: Word, e: Expr)
    requires e == Add(Constant(w), Sub(Mul(Param(0), Constant(5)), Div(Constant(6), Param(USIZE_MAX))))
    ensures OrdinalsAreWords(e)
    ensures EncodeExpr(e) == [3] + (([1] + W(w))
      + ([4] + (([5] + (([2] + W(0)) + ([1] + W(5)))) + ([6] + (([1] + W(6)) + ([2] + W(0xffff_ffff_ffff_ffff)))))))
  {
    hide LittleEndian, EncodeExpr;
    var mul, div := e.right.left, e.right.right;
    ExprStreams(mul.left, mul.right, w);
    ExprStreams(mul.left, mul.right, 0);
    ExprStreams(mul.left, mul.right, 5);
    ExprStreams(div.left, div.right, 6);
    ExprStreams(div.left, div.right, USIZE_MAX);
    ExprStreams(mul, div, w);
    ExprStreams(e.left, e.right, w);
  }

  lemma SampleSections(
      w: Word, ir: OrdinalIr, x: OrdVariable, y: OrdVariable, c: OrdConstraint, o: OrdObjective, a: OrdCell,
      b: OrdCell)
    requires Writable(ir)
    requires ir == OrdinalIr([x, y], 1, [c], [o], [a, b])
    requires x == OrdVariable(1, 2, Integer, true, Some(w), None)
    requires y == OrdVariable(3, 4, Binary, false, None, Some(w))
    requires c == OrdConstraint(5, 6, true) && o == OrdObjective(Maximize, true, w)
    requires a == OrdCell(
      0, 0, 0, Add(Constant(w), Sub(Mul(Param(0), Constant(5)), Div(Constant(6), Param(USIZE_MAX)))))
    requires b == OrdCell(1, 0, 1, Neg(Param(0)))
    ensures OrdinalsAreWords(a.expr)
    ensures Encode(ir) ==
      ([0x01] + W(2)
        + ((W(1) + W(2) + [1] + [1] + ([1] + W(w)) + [0]) + (W(3) + W(4) + [2] + [0] + [0] + ([1] + W(w)))))
      + ([0x02] + W(1))
      + ([0x03] + W(1) + (W(5) + W(6) + [1]))
      + ([0x04] + W(1) + ([1] + [1] + W(w)))
      + ([0x05] + W(2)
        + (([0] + W(0) + W(0) + EncodeExpr(a.expr)) + ([1] + W(0) + W(1) + ([7] + ([2] + W(0))))))
  {
    hide LittleEndian, EncodeVariable, EncodeConstraint, EncodeObjective, EncodeExpr, VariableSection,
      ConstraintSection, ObjectiveSection, CellSection, Writable;
    SampleExprStream(w, a.expr);
    ExprStreams(Param(0), Param(0), 0);
    VariableStreams(w);
    RowStreams(w);
    EntityStreams(x, y, c, o);
    CellStreams(a, b);
  }

  /** The stream of the sample: tags one by one, and every number as eight bytes. */
  lemma SampleStream(w: Word)
    ensures InMemory(Sample(w)) && Writable(Normalized(Sample(w)))
    ensures Encode(Normalized(Sample(w))) ==
      ([0x01] + W(2)
        + ((W(1) + W(2) + [1] + [1] + ([1] + W(w)) + [0]) + (W(3) + W(4) + [2] + [0] + [0] + ([1] + W(w)))))
      + ([0x02] + W(1))
      + ([0x03] + W(1) + (W(5) + W(6) + [1]))
      + ([0x04] + W(1) + ([1] + [1] + W(w)))
      + ([0x05] + W(2)
        + (([0] + W(0) + W(0)
            + ([3] + (([1] + W(w))
                + ([4] + (([5] + (([2] + W(0)) + ([1] + W(5))))
                    + ([6] + (([1] + W(6)) + ([2] + W(0xffff_ffff_ffff_ffff)))))))))
          + ([1] + W(0) + W(1) + ([7] + ([2] + W(0))))))
  {
    SampleIsInMemory(w);
    var s := Sample(w);
    var ir := Normalized(s);
    SampleCells(w);
    var x, y := OrdinalVariable(s.variables[0]), OrdinalVariable(s.variables[1]);
    var c, o := OrdinalConstraint(s.constraints[0]), OrdinalObjective(s.objectives[0]);
    assert ir.variables == [x, y] && ir.constraints == [c] && ir.objectives == [o] && ir.parameters == 1;
    var a, b := ir.cells[0], ir.cells[1];
    assert ir.cells == [a, b];
    SampleExprStream(w, a.expr);
    SampleSections(w, ir, x, y, c, o, a, b);
  }
}
