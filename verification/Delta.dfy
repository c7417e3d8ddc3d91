/**
 * src/delta.rs: the function entries of a delta batch, rebuilt from its operations in one pass, against
 * the per-constraint scans that the pass replaced.
 */
module Deltas {
  import opened Common
  import opened Sorting
  import opened BackendIr

  type VarId = nat
  type ConId = nat
  type ObjId = nat
  type ParamId = nat

  datatype ValueExpr<N> =
    | Constant(value: N)
    | Param(param: ParamId)
    | Add(left: ValueExpr<N>, right: ValueExpr<N>)
    | Sub(left: ValueExpr<N>, right: ValueExpr<N>)
    | Mul(left: ValueExpr<N>, right: ValueExpr<N>)
    | Div(left: ValueExpr<N>, right: ValueExpr<N>)
    | Neg(inner: ValueExpr<N>)

  type Coefficient = ValueExpr<real>
  /** One term of a linear function. */
  datatype Term = Term(variable: VarId, coefficient: Coefficient)

  datatype ScalarSet =
    | EqualTo(target: Extended)
    | LessEqual(upper: Extended)
    | GreaterEqual(lower: Extended)
    | Interval(low: Extended, high: Extended)

  datatype FunctionEntry = FunctionEntry(constraint: ConId, terms: seq<Term>, set_: ScalarSet)

  datatype Target = OfConstraint(constraint: ConId) | OfObjective(objective: ObjId)

  datatype LinearRowBlock = LinearRowBlock(
    constraints: seq<ConId>, bounds: seq<Bounds>, rowPtr: seq<nat>, vars: seq<VarId>, values: seq<real>)
  datatype ParametricRowBlock = ParametricRowBlock(
    constraints: seq<ConId>, bounds: seq<Bounds>, rowPtr: seq<nat>, vars: seq<VarId>, params: seq<ParamId>,
    scales: seq<real>)
  datatype MixedRowBlock = MixedRowBlock(
    constraints: seq<ConId>, bounds: seq<Bounds>,
    numericPtr: seq<nat>, numericVars: seq<VarId>, numericValues: seq<real>,
    parametricPtr: seq<nat>, parametricVars: seq<VarId>, parametricParams: seq<ParamId>, parametricScales: seq<real>)

  /** The operations that concern constraints and their cells; all others are `OtherOp`. */
  datatype ModelOp =
    | RemoveVariable(variable: VarId)
    | AddConstraint(con: ConId, bounds: Bounds)
    | RemoveConstraint(con: ConId)
    | SetConstraintBounds(con: ConId, bounds: Bounds)
    | SetCell(target: Target, variable: VarId, coefficient: Coefficient)
    | RemoveCell(target: Target, variable: VarId)
    | AddLinearRows(linear: LinearRowBlock)
    | AddParametricRows(parametric: ParametricRowBlock)
    | AddMixedRows(mixed: MixedRowBlock)
    | OtherOp

  /** `f64::EPSILON`, two to the power of minus 52. */
  const EPSILON: real := 1.0 / 4503599627370496.0

  /** `ScalarSet::from` bounds. */
  function SetOf(b: Bounds): ScalarSet {
    if b.lower.Finite? && b.upper.Finite? && -EPSILON <= b.upper.value - b.lower.value <= EPSILON then EqualTo(b.lower)
    else if !b.lower.Finite? then LessEqual(b.upper)
    else if !b.upper.Finite? then GreaterEqual(b.lower)
    else Interval(b.lower, b.upper)
  }

  /** `ValueExpr::scaled_param`. */
  function ScaledParam(scale: real, p: ParamId): Coefficient {
    if scale == 1.0 then Param(p) else Mul(Constant(scale), Param(p))
  }

  function VariableOf(t: Term): nat { t.variable }
  function ConstraintOf(e: FunctionEntry): nat { e.constraint }

  // ---------------------------------------------------------------- packed rows

  predicate PointsInto(ptr: seq<nat>, rows: nat, n: nat) {
    && |ptr| == rows + 1
    && (forall r :: 0 <= r < rows ==> ptr[r] <= ptr[r + 1])
    && (forall r :: 0 <= r <= rows ==> ptr[r] <= n)
  }

  /** What the block constructors guarantee about the parallel arrays. */
  predicate BlockFits(op: ModelOp) {
    match op
    case AddLinearRows(b) =>
      && |b.bounds| == |b.constraints| && |b.values| == |b.vars|
      && PointsInto(b.rowPtr, |b.constraints|, |b.vars|)
    case AddParametricRows(b) =>
      && |b.bounds| == |b.constraints| && |b.params| == |b.scales| == |b.vars|
      && PointsInto(b.rowPtr, |b.constraints|, |b.vars|)
    case AddMixedRows(b) =>
      && |b.bounds| == |b.constraints|
      && |b.numericValues| == |b.numericVars| && PointsInto(b.numericPtr, |b.constraints|, |b.numericVars|)
      && |b.parametricParams| == |b.parametricScales| == |b.parametricVars|
      && PointsInto(b.parametricPtr, |b.constraints|, |b.parametricVars|)
    case _ => true
  }

  ghost predicate BlocksFit(ops: seq<ModelOp>) {
    forall i :: 0 <= i < |ops| ==> BlockFits(ops[i])
  }

  function ConstantTerms(vars: seq<VarId>, values: seq<real>, from: nat, to: nat): seq<Term>
    requires from <= to <= |vars| == |values|
  {
    seq(to - from, k requires 0 <= k < to - from => Term(vars[from + k], Constant(values[from + k])))
  }

  function ScaledTerms(vars: seq<VarId>, params: seq<ParamId>, scales: seq<real>, from: nat, to: nat): seq<Term>
    requires from <= to <= |vars| == |params| == |scales|
  {
    seq(to - from, k requires 0 <= k < to - from =>
      Term(vars[from + k], ScaledParam(scales[from + k], params[from + k])))
  }

  /** One added row with its declared bounds and its terms in encounter order. */
  datatype AddedRow = AddedRow(con: ConId, bounds: Bounds, terms: seq<Term>)

  function RowCount(op: ModelOp): nat {
    match op
    case AddLinearRows(b) => |b.constraints|
    case AddParametricRows(b) => |b.constraints|
    case AddMixedRows(b) => |b.constraints|
    case _ => 0
  }

  function PackedRow(op: ModelOp, r: nat): AddedRow
    requires BlockFits(op) && r < RowCount(op)
  {
    match op
    case AddLinearRows(b) => AddedRow(b.constraints[r], b.bounds[r],
        ConstantTerms(b.vars, b.values, b.rowPtr[r], b.rowPtr[r + 1]))
    case AddParametricRows(b) =>
      AddedRow(b.constraints[r], b.bounds[r], ScaledTerms(b.vars, b.params, b.scales, b.rowPtr[r], b.rowPtr[r + 1]))
    case AddMixedRows(b) =>
      AddedRow(b.constraints[r], b.bounds[r],
        ConstantTerms(b.numericVars, b.numericValues, b.numericPtr[r], b.numericPtr[r + 1])
        + ScaledTerms(b.parametricVars, b.parametricParams, b.parametricScales, b.parametricPtr[r],
          b.parametricPtr[r + 1]))
  }

  // ---------------------------------------------------------------- the scans that the pass replaced

  predicate Removed(ops: seq<ModelOp>, c: ConId) {
    exists i :: 0 <= i < |ops| && ops[i] == RemoveConstraint(c)
  }

  /** The bounds of the last `SetConstraintBounds` on `c`, otherwise the declared ones. */
  function FinalBounds(ops: seq<ModelOp>, c: ConId, declared: Bounds): Bounds {
    if |ops| == 0 then declared
    else
      var last := ops[|ops| - 1];
      if last.SetConstraintBounds? && last.con == c then last.bounds else FinalBounds(ops[..|ops| - 1], c, declared)
  }

  /** Every cell written to `c`, in order. */
  function TermsOf(ops: seq<ModelOp>, c: ConId): seq<Term> {
    if |ops| == 0 then []
    else
      var last := ops[|ops| - 1];
      TermsOf(ops[..|ops| - 1], c)
      + if last.SetCell? && last.target == OfConstraint(c) then [Term(last.variable, last.coefficient)] else []
  }

  function EntryOf(ops: seq<ModelOp>, row: AddedRow): seq<FunctionEntry> {
    if Removed(ops, row.con) then []
    else [FunctionEntry(row.con, StableSort(row.terms, VariableOf), SetOf(FinalBounds(ops, row.con, row.bounds)))]
  }

  function EntriesOf(ops: seq<ModelOp>, rows: seq<AddedRow>): seq<FunctionEntry> {
    if |rows| == 0 then [] else EntriesOf(ops, rows[..|rows| - 1]) + EntryOf(ops, rows[|rows| - 1])
  }

  /** The scalar rows: one per `AddConstraint`, each scanning the whole batch `all` for its cells. */
  function ScalarRows(ops: seq<ModelOp>, all: seq<ModelOp>): seq<AddedRow> {
    if |ops| == 0 then []
    else
      var last := ops[|ops| - 1];
      ScalarRows(ops[..|ops| - 1], all)
      + if last.AddConstraint? then [AddedRow(last.con, last.bounds, TermsOf(all, last.con))] else []
  }

  function RowsOf(op: ModelOp): (rows: seq<AddedRow>)
    requires BlockFits(op)
  {
    seq(RowCount(op), r requires 0 <= r < RowCount(op) => PackedRow(op, r))
  }

  datatype BlockKind = LinearBlock | ParametricBlock | MixedBlock

  predicate IsBlock(op: ModelOp, kind: BlockKind) {
    match kind
    case LinearBlock => op.AddLinearRows?
    case ParametricBlock => op.AddParametricRows?
    case MixedBlock => op.AddMixedRows?
  }

  function BlockRows(ops: seq<ModelOp>, kind: BlockKind): seq<AddedRow>
    requires forall i :: 0 <= i < |ops| ==> BlockFits(ops[i])
  {
    if |ops| == 0 then []
    else
      BlockRows(ops[..|ops| - 1], kind) + if IsBlock(ops[|ops| - 1], kind) then RowsOf(ops[|ops| - 1]) else []
  }

  /** All rows the batch adds: scalar ones, then each kind of packed block. */
  function AllRows(ops: seq<ModelOp>): seq<AddedRow>
    requires forall i :: 0 <= i < |ops| ==> BlockFits(ops[i])
  {
    ScalarRows(ops, ops) + BlockRows(ops, LinearBlock) + BlockRows(ops, ParametricBlock) + BlockRows(ops, MixedBlock)
  }

  /** The full-scan specification of a batch's function entries. */
  function FullScan(ops: seq<ModelOp>): seq<FunctionEntry>
    requires forall i :: 0 <= i < |ops| ==> BlockFits(ops[i])
  {
    StableSort(EntriesOf(ops, AllRows(ops)), ConstraintOf)
  }

  // ---------------------------------------------------------------- the single pass

  datatype Accumulator = Accumulator(
    added: seq<(ConId, Bounds)>,
    removed: set<ConId>,
    folded: map<ConId, Bounds>,
    cells: map<ConId, seq<Term>>,
    rowBlocks: seq<ModelOp>,
    paramRowBlocks: seq<ModelOp>,
    mixedRowBlocks: seq<ModelOp>)

  function AddedIn(ops: seq<ModelOp>): seq<(ConId, Bounds)> {
    if |ops| == 0 then []
    else
      var last := ops[|ops| - 1];
      AddedIn(ops[..|ops| - 1]) + if last.AddConstraint? then [(last.con, last.bounds)] else []
  }

  function BlocksIn(ops: seq<ModelOp>, kind: BlockKind): seq<ModelOp> {
    if |ops| == 0 then []
    else BlocksIn(ops[..|ops| - 1], kind) + if IsBlock(ops[|ops| - 1], kind) then [ops[|ops| - 1]] else []
  }

  ghost predicate HoldsRemoved(acc: Accumulator, ops: seq<ModelOp>) {
    forall c :: c in acc.removed <==> Removed(ops, c)
  }

  ghost predicate HoldsBounds(acc: Accumulator, ops: seq<ModelOp>) {
    forall c, b :: FinalBounds(ops, c, b) == if c in acc.folded then acc.folded[c] else b
  }

  ghost predicate HoldsCells(acc: Accumulator, ops: seq<ModelOp>) {
    forall c :: TermsOf(ops, c) == if c in acc.cells then acc.cells[c] else []
  }

  ghost predicate HoldsRows(acc: Accumulator, ops: seq<ModelOp>) {
    && acc.added == AddedIn(ops)
    && acc.rowBlocks == BlocksIn(ops, LinearBlock)
    && acc.paramRowBlocks == BlocksIn(ops, ParametricBlock)
    && acc.mixedRowBlocks == BlocksIn(ops, MixedBlock)
  }

  /** The accumulator holds what scanning `ops` for each constraint would find. */
  ghost predicate Accumulates(acc: Accumulator, ops: seq<ModelOp>) {
    HoldsRemoved(acc, ops) && HoldsBounds(acc, ops) && HoldsCells(acc, ops) && HoldsRows(acc, ops)
  }

  function Accumulated(acc: Accumulator, op: ModelOp): Accumulator {
    match op
    case AddConstraint(c, b) => acc.(added := acc.added + [(c, b)])
    case RemoveConstraint(c) => acc.(removed := acc.removed + {c})
    case SetConstraintBounds(c, b) => acc.(folded := acc.folded[c := b])
    case SetCell(target, v, e) =>
      if target.OfConstraint? then
        var c := target.constraint;
        acc.(cells := acc.cells[c := (if c in acc.cells then acc.cells[c] else []) + [Term(v, e)]])
      else acc
    case AddLinearRows(_) => acc.(rowBlocks := acc.rowBlocks + [op])
    case AddParametricRows(_) => acc.(paramRowBlocks := acc.paramRowBlocks + [op])
    case AddMixedRows(_) => acc.(mixedRowBlocks := acc.mixedRowBlocks + [op])
    case _ => acc
  }

  lemma RemovedSnoc(ops: seq<ModelOp>, op: ModelOp, c: ConId)
    ensures Removed(ops + [op], c) <==> Removed(ops, c) || op == RemoveConstraint(c)
  {
    var more := ops + [op];
    if Removed(ops, c) {
      var i :| 0 <= i < |ops| && ops[i] == RemoveConstraint(c);
      assert more[i] == RemoveConstraint(c);
    }
    if op == RemoveConstraint(c) { assert more[|ops|] == RemoveConstraint(c); }
  }

  lemma RemovedNext(acc: Accumulator, ops: seq<ModelOp>, op: ModelOp)
    requires HoldsRemoved(acc, ops)
    ensures HoldsRemoved(Accumulated(acc, op), ops + [op])
  {
    forall c
      ensures c in Accumulated(acc, op).removed <==> Removed(ops + [op], c)
    {
      RemovedSnoc(ops, op, c);
    }
  }

  lemma BoundsNext(acc: Accumulator, ops: seq<ModelOp>, op: ModelOp)
    requires HoldsBounds(acc, ops)
    ensures HoldsBounds(Accumulated(acc, op), ops + [op])
  {
    assert (ops + [op])[..|ops|] == ops;
  }

  lemma CellsNext(acc: Accumulator, ops: seq<ModelOp>, op: ModelOp)
    requires HoldsCells(acc, ops)
    ensures HoldsCells(Accumulated(acc, op), ops + [op])
  {
    hide TermsOf;
    var after := Accumulated(acc, op);
    forall c
      ensures TermsOf(ops + [op], c) == if c in after.cells then after.cells[c] else []
    {
      TermsOfSnoc(ops, op, c);
    }
  }

  lemma RowsNext(acc: Accumulator, ops: seq<ModelOp>, op: ModelOp)
    requires HoldsRows(acc, ops)
    ensures HoldsRows(Accumulated(acc, op), ops + [op])
  {
    AddedInSnoc(ops, op);
    BlocksInSnoc(ops, op, LinearBlock);
    BlocksInSnoc(ops, op, ParametricBlock);
    BlocksInSnoc(ops, op, MixedBlock);
    hide AddedIn, BlocksIn;
  }

  /** One op of the pass keeps the accumulator equal to all the scans. */
  lemma AccumulatesNext(acc: Accumulator, ops: seq<ModelOp>, op: ModelOp)
    requires Accumulates(acc, ops)
    ensures Accumulates(Accumulated(acc, op), ops + [op])
  {
    hide HoldsRemoved, HoldsBounds, HoldsCells, HoldsRows;
    RemovedNext(acc, ops, op);
    BoundsNext(acc, ops, op);
    CellsNext(acc, ops, op);
    RowsNext(acc, ops, op);
  }

  lemma AddedInSnoc(ops: seq<ModelOp>, op: ModelOp)
    ensures AddedIn(ops + [op]) == if op.AddConstraint? then AddedIn(ops) + [(op.con, op.bounds)] else AddedIn(ops)
  {
    assert (ops + [op])[..|ops|] == ops;
  }

  lemma TermsOfSnoc(ops: seq<ModelOp>, op: ModelOp, c: ConId)
    ensures TermsOf(ops + [op], c) == TermsOf(ops, c)
      + if op.SetCell? && op.target == OfConstraint(c) then [Term(op.variable, op.coefficient)] else []
  {
    assert (ops + [op])[..|ops|] == ops;
  }

  lemma BlocksInSnoc(ops: seq<ModelOp>, op: ModelOp, kind: BlockKind)
    ensures BlocksIn(ops + [op], kind) == if IsBlock(op, kind) then BlocksIn(ops, kind) + [op] else BlocksIn(ops, kind)
  {
    assert (ops + [op])[..|ops|] == ops;
    assert BlocksIn(ops, kind) + [] == BlocksIn(ops, kind);
  }

  method Accumulate(ops: seq<ModelOp>) returns (acc: Accumulator)
    ensures Accumulates(acc, ops)
  {
    acc := Accumulator([], {}, map[], map[], [], [], []);
    var k := 0;
    while k < |ops|
      invariant 0 <= k <= |ops| && Accumulates(acc, ops[..k])
    {
      AccumulatesNext(acc, ops[..k], ops[k]);
      assert ops[..k] + [ops[k]] == ops[..k + 1];
      acc := Accumulated(acc, ops[k]);
      k := k + 1;
    }
    assert ops[..k] == ops;
  }

  function Effective(acc: Accumulator, c: ConId, declared: Bounds): Bounds {
    if c in acc.folded then acc.folded[c] else declared
  }

  /** The entry of one added row, unless the row was removed again. */
  method PushRow(entries: seq<FunctionEntry>, acc: Accumulator, row: AddedRow, ghost ops: seq<ModelOp>)
    returns (more: seq<FunctionEntry>)
    requires Accumulates(acc, ops)
    ensures more == entries + EntryOf(ops, row)
  {
    if row.con in acc.removed { return entries; }
    var symbolic := StableSort(row.terms, VariableOf);
    return entries + [FunctionEntry(row.con, symbolic, SetOf(Effective(acc, row.con, row.bounds)))];
  }

  lemma EntriesOfSnoc(ops: seq<ModelOp>, rows: seq<AddedRow>, row: AddedRow)
    ensures EntriesOf(ops, rows + [row]) == EntriesOf(ops, rows) + EntryOf(ops, row)
  {
    assert (rows + [row])[..|rows|] == rows;
  }

  lemma RowsForNone(ops: seq<ModelOp>)
    ensures RowsFor([], ops) == [] && EntriesOf(ops, []) == []
  {
  }

  lemma RowsForNext(added: seq<(ConId, Bounds)>, k: nat, ops: seq<ModelOp>)
    requires k < |added|
    ensures RowsFor(added[..k + 1], ops)
      == RowsFor(added[..k], ops) + [AddedRow(added[k].0, added[k].1, TermsOf(ops, added[k].0))]
  {
    assert added[..k + 1][..k] == added[..k];
  }

  /** The loop over the `AddConstraint` records. */
  method PushScalars(acc: Accumulator, ghost ops: seq<ModelOp>) returns (entries: seq<FunctionEntry>)
    requires Accumulates(acc, ops)
    ensures entries == EntriesOf(ops, ScalarRows(ops, ops))
  {
    hide HoldsRemoved, HoldsBounds, HoldsCells, EntryOf, EntriesOf, TermsOf, AddedIn, ScalarRows, RowsFor;
    RowsForAdded(ops, ops);
    RowsForNone(ops);
    assert acc.added[..0] == [];
    entries := [];
    ghost var rows: seq<AddedRow> := [];
    var k := 0;
    while k < |acc.added|
      invariant 0 <= k <= |acc.added| && rows == RowsFor(acc.added[..k], ops) && entries == EntriesOf(ops, rows)
    {
      var (con, bounds) := acc.added[k];
      var row := AddedRow(con, bounds, if con in acc.cells then acc.cells[con] else []);
      HeldCells(acc, ops, con);
      EntriesOfSnoc(ops, rows, row);
      entries := PushRow(entries, acc, row, ops);
      RowsForNext(acc.added, k, ops);
      rows := rows + [row];
      k := k + 1;
    }
    assert acc.added[..k] == acc.added;
  }

  lemma HeldCells(acc: Accumulator, ops: seq<ModelOp>, c: ConId)
    requires HoldsCells(acc, ops)
    ensures TermsOf(ops, c) == if c in acc.cells then acc.cells[c] else []
  {
  }

  function RowsFor(added: seq<(ConId, Bounds)>, all: seq<ModelOp>): seq<AddedRow> {
    if |added| == 0 then []
    else
      var (con, bounds) := added[|added| - 1];
      RowsFor(added[..|added| - 1], all) + [AddedRow(con, bounds, TermsOf(all, con))]
  }

  lemma {:induction false} RowsForAdded(ops: seq<ModelOp>, all: seq<ModelOp>)
    ensures RowsFor(AddedIn(ops), all) == ScalarRows(ops, all)
  {
    if |ops| != 0 {
      var k := |ops| - 1;
      RowsForAdded(ops[..k], all);
      if ops[k].AddConstraint? {
        assert AddedIn(ops)[..|AddedIn(ops)| - 1] == AddedIn(ops[..k]);
      } else {
        assert AddedIn(ops) == AddedIn(ops[..k]);
      }
    }
  }

  /** The inner loop: the terms of one packed row, pushed cell by cell. */
  method UnpackRow(block: ModelOp, r: nat) returns (row: AddedRow)
    requires BlockFits(block) && r < RowCount(block)
    ensures row == PackedRow(block, r)
  {
    match block {
      case AddLinearRows(b) =>
        var terms := UnpackConstants(b.vars, b.values, b.rowPtr[r], b.rowPtr[r + 1]);
        row := AddedRow(b.constraints[r], b.bounds[r], terms);
      case AddParametricRows(b) =>
        var terms := UnpackScaled(b.vars, b.params, b.scales, b.rowPtr[r], b.rowPtr[r + 1]);
        row := AddedRow(b.constraints[r], b.bounds[r], terms);
      case AddMixedRows(b) =>
        var numeric := UnpackConstants(b.numericVars, b.numericValues, b.numericPtr[r], b.numericPtr[r + 1]);
        var scaled := UnpackScaled(
          b.parametricVars, b.parametricParams, b.parametricScales, b.parametricPtr[r], b.parametricPtr[r + 1]);
        row := AddedRow(b.constraints[r], b.bounds[r], numeric + scaled);
    }
  }

  method UnpackConstants(vars: seq<VarId>, values: seq<real>, from: nat, to: nat) returns (terms: seq<Term>)
    requires from <= to <= |vars| == |values|
    ensures terms == ConstantTerms(vars, values, from, to)
  {
    terms := [];
    for k := from to to
      invariant |terms| == k - from
      invariant forall j :: 0 <= j < |terms| ==> terms[j] == Term(vars[from + j], Constant(values[from + j]))
    {
      terms := terms + [Term(vars[k], Constant(values[k]))];
    }
  }

  method UnpackScaled(
      vars: seq<VarId>, params: seq<ParamId>, scales: seq<real>, from: nat, to: nat)
    returns (terms: seq<Term>)
    requires from <= to <= |vars| == |params| == |scales|
    ensures terms == ScaledTerms(vars, params, scales, from, to)
  {
    terms := [];
    for k := from to to
      invariant |terms| == k - from
      invariant forall j :: 0 <= j < |terms| ==>
          terms[j] == Term(vars[from + j], ScaledParam(scales[from + j], params[from + j]))
    {
      terms := terms + [Term(vars[k], ScaledParam(scales[k], params[k]))];
    }
  }

  ghost function RowsInBlocks(blocks: seq<ModelOp>): seq<AddedRow>
    requires BlocksFit(blocks)
  {
    if |blocks| == 0 then [] else RowsInBlocks(blocks[..|blocks| - 1]) + RowsOf(blocks[|blocks| - 1])
  }

  lemma {:induction false} RowsInBlocksIn(ops: seq<ModelOp>, kind: BlockKind)
    requires BlocksFit(ops)
    ensures BlocksFit(BlocksIn(ops, kind)) && RowsInBlocks(BlocksIn(ops, kind)) == BlockRows(ops, kind)
  {
    hide BlockFits, RowsOf;
    if |ops| != 0 {
      var k := |ops| - 1;
      RowsInBlocksIn(ops[..k], kind);
      var before := BlocksIn(ops[..k], kind);
      if IsBlock(ops[k], kind) {
        assert BlocksIn(ops, kind) == before + [ops[k]];
        assert (before + [ops[k]])[..|before|] == before;
      } else {
        assert BlocksIn(ops, kind) == before;
        assert BlockRows(ops, kind) == BlockRows(ops[..k], kind);
      }
    }
  }

  /** The loop over the rows of one block. */
  method PushBlock(
      before: seq<FunctionEntry>, acc: Accumulator, block: ModelOp, ghost ops: seq<ModelOp>, ghost was: seq<AddedRow>)
    returns (entries: seq<FunctionEntry>)
    requires Accumulates(acc, ops) && BlockFits(block) && before == EntriesOf(ops, was)
    ensures entries == EntriesOf(ops, was + RowsOf(block))
  {
    hide Accumulates, EntryOf, EntriesOf, PackedRow;
    entries := before;
    ghost var rows := RowsOf(block);
    var r := 0;
    TakeEnds(was, rows);
    while r < RowCount(block)
      invariant 0 <= r <= |rows| && entries == EntriesOf(ops, was + rows[..r])
    {
      var row := UnpackRow(block, r);
      EntriesOfSnoc(ops, was + rows[..r], row);
      TakeNext(was, rows, r);
      entries := PushRow(entries, acc, row, ops);
      r := r + 1;
    }
  }

  /** The loop over the blocks of one kind. */
  method PushBlocks(
      before: seq<FunctionEntry>, acc: Accumulator, blocks: seq<ModelOp>, ghost ops: seq<ModelOp>,
      ghost was: seq<AddedRow>)
    returns (entries: seq<FunctionEntry>)
    requires Accumulates(acc, ops) && BlocksFit(blocks) && before == EntriesOf(ops, was)
    ensures entries == EntriesOf(ops, was + RowsInBlocks(blocks))
  {
    hide Accumulates, EntriesOf, RowsOf;
    entries := before;
    var k := 0;
    assert was + RowsInBlocks(blocks[..0]) == was;
    while k < |blocks|
      invariant 0 <= k <= |blocks| && entries == EntriesOf(ops, was + RowsInBlocks(blocks[..k]))
    {
      assert blocks[..k + 1][..k] == blocks[..k];
      assert was + RowsInBlocks(blocks[..k]) + RowsOf(blocks[k]) == was + RowsInBlocks(blocks[..k + 1]);
      entries := PushBlock(entries, acc, blocks[k], ops, was + RowsInBlocks(blocks[..k]));
      k := k + 1;
    }
    assert blocks[..k] == blocks;
  }

  /**
   * `reconstruct_function_entries`: the single pass returns, for every op list, exactly the sequence of the
   * full-scan specification.
   */
  method ReconstructFunctionEntries(ops: seq<ModelOp>) returns (entries: seq<FunctionEntry>)
    requires BlocksFit(ops)
    ensures entries == FullScan(ops)
  {
    var acc := Accumulate(ops);
    AccumulatedBlocks(acc, ops);
    hide Accumulates, EntriesOf, ScalarRows, BlockRows, RowsInBlocks, BlocksFit;
    ghost var rows := ScalarRows(ops, ops);
    entries := PushScalars(acc, ops);
    entries := PushBlocks(entries, acc, acc.rowBlocks, ops, rows);
    rows := rows + BlockRows(ops, LinearBlock);
    entries := PushBlocks(entries, acc, acc.paramRowBlocks, ops, rows);
    rows := rows + BlockRows(ops, ParametricBlock);
    entries := PushBlocks(entries, acc, acc.mixedRowBlocks, ops, rows);
    entries := StableSort(entries, ConstraintOf);
  }

  lemma AccumulatedBlocks(acc: Accumulator, ops: seq<ModelOp>)
    requires Accumulates(acc, ops) && BlocksFit(ops)
    ensures BlocksFit(acc.rowBlocks) && RowsInBlocks(acc.rowBlocks) == BlockRows(ops, LinearBlock)
    ensures BlocksFit(acc.paramRowBlocks) && RowsInBlocks(acc.paramRowBlocks) == BlockRows(ops, ParametricBlock)
    ensures BlocksFit(acc.mixedRowBlocks) && RowsInBlocks(acc.mixedRowBlocks) == BlockRows(ops, MixedBlock)
  {
    RowsInBlocksIn(ops, LinearBlock);
    RowsInBlocksIn(ops, ParametricBlock);
    RowsInBlocksIn(ops, MixedBlock);
  }

  // ---------------------------------------------------------------- what an entry says

  /** `x` lies in the set. */
  predicate Contains(set_: ScalarSet, x: real) {
    match set_
    case EqualTo(target) => target == Finite(x)
    case LessEqual(upper) => Within(Bounds(NegInfinity, upper), x)
    case GreaterEqual(lower) => Within(Bounds(lower, PosInfinity), x)
    case Interval(low, high) => Within(Bounds(low, high), x)
  }

  /** Two finite bounds within two to the power of minus 52 of each other, in either order. */
  predicate Nearly(b: Bounds) {
    && b.lower.Finite? && b.upper.Finite?
    && b.upper.value - b.lower.value <= 1.0 / 4503599627370496.0
    && b.lower.value - b.upper.value <= 1.0 / 4503599627370496.0
  }

  /** Neither bound is the infinity of the other side. */
  predicate Proper(b: Bounds) {
    b.lower != PosInfinity && b.upper != NegInfinity
  }

  /** What the set of bounds `b` says of `x`: it lies between them, or at the lower one where they nearly agree. */
  predicate Describes(set_: ScalarSet, b: Bounds, x: real) {
    && (Nearly(b) ==> (Contains(set_, x) <==> b.lower == Finite(x)))
    && (!Nearly(b) && Proper(b) ==> (Contains(set_, x) <==> Within(b, x)))
  }

  lemma SetDescribes(b: Bounds, x: real)
    ensures Describes(SetOf(b), b, x)
  {
  }

  /**
   * The set of two bounds holds exactly the values between them if and only if they agree where they nearly do, and
   * an infinity of the wrong side leaves nothing to lose.
   */
  lemma SetIsExactlyBetween(b: Bounds)
    ensures (forall x :: Contains(SetOf(b), x) <==> Within(b, x)) <==>
      if Nearly(b) then b.lower == b.upper
      else (b.lower.PosInfinity? ==> b.upper.NegInfinity?) && (b.lower.Finite? ==> !b.upper.NegInfinity?)
  {
    var set_ := SetOf(b);
    if Nearly(b) {
      assert Contains(set_, b.lower.value);
      if b.upper.value > b.lower.value {
        assert !Contains(set_, b.upper.value) && Within(b, b.upper.value);
      }
    } else if b.lower.PosInfinity? && !b.upper.NegInfinity? {
      var x := if b.upper.Finite? then b.upper.value else 0.0;
      assert Contains(set_, x) && !Within(b, x);
    } else if b.lower.Finite? && b.upper.NegInfinity? {
      assert Contains(set_, b.lower.value) && !Within(b, b.lower.value);
    }
  }

  /** A range narrower than the tolerance becomes an equality and loses its upper end. */
  lemma NarrowRangeLosesItsEnd(low: real)
    ensures
      var high := low + 1.0 / 9007199254740992.0;
      var b := Bounds(Finite(low), Finite(high));
      SetOf(b) == EqualTo(Finite(low)) && Within(b, high) && !Contains(SetOf(b), high)
  {
  }

  /** Every entry of the pass belongs to an added row that stays, and its set is that of the row's final bounds. */
  lemma EntryDescribes(ops: seq<ModelOp>, e: FunctionEntry, x: real)
    requires BlocksFit(ops) && e in FullScan(ops)
    ensures exists row ::
      && row in AllRows(ops) && row.con == e.constraint && !Removed(ops, row.con)
      && Describes(e.set_, FinalBounds(ops, row.con, row.bounds), x)
  {
    hide AllRows, Describes, SetOf, StableSort, EntriesOf, FinalBounds;
    StableSortMembers(EntriesOf(ops, AllRows(ops)), ConstraintOf);
    EntryHasRow(ops, AllRows(ops), e);
    var row :| row in AllRows(ops) && EntryOf(ops, row) == [e];
    SetDescribes(FinalBounds(ops, row.con, row.bounds), x);
  }

  lemma {:induction false} EntryHasRow(ops: seq<ModelOp>, rows: seq<AddedRow>, e: FunctionEntry)
    requires e in EntriesOf(ops, rows)
    ensures exists row :: row in rows && EntryOf(ops, row) == [e]
  {
    var k := |rows| - 1;
    if e in EntryOf(ops, rows[k]) {
      assert EntryOf(ops, rows[k]) == [e];
    } else {
      EntryHasRow(ops, rows[..k], e);
    }
  }

  /** Terms come in op order and bounds from the last op: a later part of the list adds terms and overrides bounds. */
  lemma {:induction false} ScansCompose(ops: seq<ModelOp>, later: seq<ModelOp>, c: ConId, declared: Bounds)
    ensures TermsOf(ops + later, c) == TermsOf(ops, c) + TermsOf(later, c)
    ensures FinalBounds(ops + later, c, declared) == FinalBounds(later, c, FinalBounds(ops, c, declared))
    ensures Removed(ops + later, c) <==> Removed(ops, c) || Removed(later, c)
    decreases |later|
  {
    hide Removed;
    if |later| == 0 {
      assert ops + later == ops;
    } else {
      var k := |later| - 1;
      ScansCompose(ops, later[..k], c, declared);
      assert (ops + later)[..|ops + later| - 1] == ops + later[..k];
    }
    RemovedInEither(ops, later, c);
  }

  lemma RemovedInEither(ops: seq<ModelOp>, later: seq<ModelOp>, c: ConId)
    ensures Removed(ops + later, c) <==> Removed(ops, c) || Removed(later, c)
  {
    if i :| 0 <= i < |ops| && ops[i] == RemoveConstraint(c) { assert (ops + later)[i] == ops[i]; }
    if i :| 0 <= i < |later| && later[i] == RemoveConstraint(c) { assert (ops + later)[|ops| + i] == later[i]; }
  }

  /** One op of each kind, scanned for its own constraint and for another. */
  lemma OneOpScanned(c: ConId, d: ConId, v: VarId, e: Coefficient, b: Bounds, declared: Bounds)
    requires c != d
    ensures TermsOf([SetCell(OfConstraint(c), v, e)], c) == [Term(v, e)]
    ensures TermsOf([SetCell(OfConstraint(d), v, e)], c) == []
    ensures TermsOf([SetCell(OfObjective(c), v, e)], c) == [] && TermsOf([RemoveCell(OfConstraint(c), v)], c) == []
    ensures FinalBounds([SetConstraintBounds(c, b)], c, declared) == b
    ensures FinalBounds([SetConstraintBounds(d, b)], c, declared) == declared
    ensures Removed([RemoveConstraint(c)], c) && !Removed([RemoveConstraint(d)], c)
  {
    assert [SetCell(OfConstraint(c), v, e)][..0] == [] && [SetCell(OfConstraint(d), v, e)][..0] == [];
    assert [SetConstraintBounds(d, b)][..0] == [];
    assert [RemoveConstraint(c)][0] == RemoveConstraint(c);
  }

  // ---------------------------------------------------------------- what a packed row says

  /** The value of a coefficient under parameter values; none where it divides by zero. */
  function ValueAt(e: Coefficient, params: ParamId -> real): Option<real> {
    match e
    case Constant(c) => Some(c)
    case Param(p) => Some(params(p))
    case Neg(i) => var a := ValueAt(i, params); if a.None? then None else Some(-a.value)
    case Add(l, r) =>
      var a, b := ValueAt(l, params), ValueAt(r, params);
      if a.None? || b.None? then None else Some(a.value + b.value)
    case Sub(l, r) =>
      var a, b := ValueAt(l, params), ValueAt(r, params);
      if a.None? || b.None? then None else Some(a.value - b.value)
    case Mul(l, r) =>
      var a, b := ValueAt(l, params), ValueAt(r, params);
      if a.None? || b.None? then None else Some(a.value * b.value)
    case Div(l, r) =>
      var a, b := ValueAt(l, params), ValueAt(r, params);
      if a.None? || b.None? || b.value == 0.0 then None else Some(a.value / b.value)
  }

  /** The value is there and is `x`. */
  predicate Yields(value: Option<real>, x: real) {
    value.Some? && value.value == x
  }

  /** A scaled parameter evaluates to scale times parameter, the scale 1 included. */
  lemma ScaledParamValue(scale: real, p: ParamId, params: ParamId -> real)
    ensures Yields(ValueAt(ScaledParam(scale, p), params), scale * params(p))
  {
    if scale != 1.0 {
      var e := Mul(Constant(scale), Param(p));
      assert Yields(ValueAt(e.left, params), scale) && Yields(ValueAt(e.right, params), params(p));
      assert Yields(ValueAt(e, params), scale * params(p));
    }
  }

  /** The value of a linear row at the point `x`. */
  function RowValue(terms: seq<Term>, x: VarId -> real, params: ParamId -> real): Option<real> {
    if |terms| == 0 then Some(0.0)
    else
      var last := terms[|terms| - 1];
      var before, c := RowValue(terms[..|terms| - 1], x, params), ValueAt(last.coefficient, params);
      if before.None? || c.None? then None else Some(before.value + c.value * x(last.variable))
  }

  /** Value times variable over a stretch of a block's parallel arrays. */
  function NumericSum(vars: seq<VarId>, values: seq<real>, from: nat, until: nat, x: VarId -> real): real
    requires from <= until <= |vars| == |values|
    decreases until - from
  {
    if from == until then 0.0
    else NumericSum(vars, values, from, until - 1, x) + values[until - 1] * x(vars[until - 1])
  }

  /** Scale times parameter times variable over such a stretch. */
  function ScaledSum(
      vars: seq<VarId>, ps: seq<ParamId>, scales: seq<real>, from: nat, until: nat, x: VarId -> real,
      params: ParamId -> real): real
    requires from <= until <= |vars| == |ps| == |scales|
    decreases until - from
  {
    if from == until then 0.0
    else
      var k := until - 1;
      ScaledSum(vars, ps, scales, from, k, x, params) + scales[k] * params(ps[k]) * x(vars[k])
  }

  /** The value of row `r` of a block, read off its arrays. */
  function BlockValue(op: ModelOp, r: nat, x: VarId -> real, params: ParamId -> real): real
    requires BlockFits(op) && r < RowCount(op)
  {
    match op
    case AddLinearRows(b) => NumericSum(b.vars, b.values, b.rowPtr[r], b.rowPtr[r + 1], x)
    case AddParametricRows(b) => ScaledSum(b.vars, b.params, b.scales, b.rowPtr[r], b.rowPtr[r + 1], x, params)
    case AddMixedRows(b) =>
      NumericSum(b.numericVars, b.numericValues, b.numericPtr[r], b.numericPtr[r + 1], x)
      + ScaledSum(b.parametricVars, b.parametricParams, b.parametricScales, b.parametricPtr[r],
          b.parametricPtr[r + 1], x, params)
  }

  lemma RowValueNext(
      before: seq<Term>, t: Term, was: real, c: real, x: VarId -> real, params: ParamId -> real)
    requires Yields(RowValue(before, x, params), was) && Yields(ValueAt(t.coefficient, params), c)
    ensures Yields(RowValue(before + [t], x, params), was + c * x(t.variable))
  {
    hide ValueAt;
    assert (before + [t])[..|before|] == before;
  }

  lemma {:induction false} RowValueOfConstants(
      vars: seq<VarId>, values: seq<real>, from: nat, until: nat, x: VarId -> real, params: ParamId -> real)
    requires from <= until <= |vars| == |values|
    ensures Yields(
      RowValue(ConstantTerms(vars, values, from, until), x, params), NumericSum(vars, values, from, until, x))
    decreases until - from
  {
    var terms := ConstantTerms(vars, values, from, until);
    if from == until {
      assert terms == [];
    } else {
      var k, before := until - 1, ConstantTerms(vars, values, from, until - 1);
      var t, was := Term(vars[k], Constant(values[k])), NumericSum(vars, values, from, k, x);
      RowValueOfConstants(vars, values, from, k, x, params);
      RowValueNext(before, t, was, values[k], x, params);
      assert terms == before + [t];
    }
  }

  lemma {:induction false} RowValueOfScaled(
      before: seq<Term>, was: real, vars: seq<VarId>, ps: seq<ParamId>, scales: seq<real>, from: nat, until: nat,
      x: VarId -> real, params: ParamId -> real)
    requires from <= until <= |vars| == |ps| == |scales| && Yields(RowValue(before, x, params), was)
    ensures Yields(
      RowValue(before + ScaledTerms(vars, ps, scales, from, until), x, params),
      was + ScaledSum(vars, ps, scales, from, until, x, params))
    decreases until - from
  {
    hide ValueAt, ScaledParam, RowValue;
    var terms := ScaledTerms(vars, ps, scales, from, until);
    if from == until {
      assert before + terms == before;
    } else {
      var k, first := until - 1, before + ScaledTerms(vars, ps, scales, from, until - 1);
      var t, c := Term(vars[k], ScaledParam(scales[k], ps[k])), scales[k] * params(ps[k]);
      RowValueOfScaled(before, was, vars, ps, scales, from, k, x, params);
      ScaledParamValue(scales[k], ps[k], params);
      RowValueNext(first, t, was + ScaledSum(vars, ps, scales, from, k, x, params), c, x, params);
      assert before + terms == first + [t];
    }
  }

  /**
   * A packed row means what its block's arrays say: the constraint, the bounds and, at every point and under all
   * parameter values, the value.
   */
  lemma PackedRowMeans(op: ModelOp, r: nat, x: VarId -> real, params: ParamId -> real)
    requires BlockFits(op) && r < RowCount(op)
    ensures Yields(RowValue(PackedRow(op, r).terms, x, params), BlockValue(op, r, x, params))
    ensures PackedRow(op, r).con == match op
      case AddLinearRows(b) => b.constraints[r]
      case AddParametricRows(b) => b.constraints[r]
      case AddMixedRows(b) => b.constraints[r]
    ensures PackedRow(op, r).bounds == match op
      case AddLinearRows(b) => b.bounds[r]
      case AddParametricRows(b) => b.bounds[r]
      case AddMixedRows(b) => b.bounds[r]
  {
    hide NumericSum, ScaledSum, ScaledTerms, ConstantTerms;
    assert Yields(RowValue([], x, params), 0.0);
    match op {
      case AddLinearRows(b) => RowValueOfConstants(b.vars, b.values, b.rowPtr[r], b.rowPtr[r + 1], x, params);
      case AddParametricRows(b) =>
        RowValueOfScaled([], 0.0, b.vars, b.params, b.scales, b.rowPtr[r], b.rowPtr[r + 1], x, params);
        var terms := ScaledTerms(b.vars, b.params, b.scales, b.rowPtr[r], b.rowPtr[r + 1]);
        assert [] + terms == terms;
      case AddMixedRows(b) =>
        var vs, values, from, until := b.numericVars, b.numericValues, b.numericPtr[r], b.numericPtr[r + 1];
        RowValueOfConstants(vs, values, from, until, x, params);
        RowValueOfScaled(
          ConstantTerms(vs, values, from, until), NumericSum(vs, values, from, until, x),
          b.parametricVars, b.parametricParams, b.parametricScales, b.parametricPtr[r], b.parametricPtr[r + 1], x,
          params);
    }
  }
}
