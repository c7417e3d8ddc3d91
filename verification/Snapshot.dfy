/**
 * src/snapshot.rs: the function entries of a snapshot, and exactly when the entries a delta batch carries
 * for its added constraints are the ones a snapshot rebuilds after the batch.
 */
module Snapshots {
  import opened Common
  import opened Sorting
  import opened BackendIr
  import opened Deltas

  /** The canonical constraints and constraint cells of a model. */
  datatype Canonical = Canonical(constraints: map<ConId, Bounds>, cells: map<(ConId, VarId), Coefficient>)

  /** One element of the cell slice that a snapshot is taken from. */
  datatype Cell = Cell(target: Target, variable: VarId, coefficient: Coefficient)

  // ---------------------------------------------------------------- take_snapshot

  /** The cells of one constraint in slice order. */
  function TermsIn(slice: seq<Cell>, c: ConId): seq<Term> {
    if |slice| == 0 then []
    else
      var last := slice[|slice| - 1];
      TermsIn(slice[..|slice| - 1], c)
      + if last.target == OfConstraint(c) then [Term(last.variable, last.coefficient)] else []
  }

  /** `build_function_entry`. */
  function BuildFunctionEntry(c: ConId, bounds: Bounds, terms: seq<Term>): FunctionEntry {
    FunctionEntry(c, StableSort(terms, VariableOf), SetOf(bounds))
  }

  function SnapshotEntry(constraints: map<ConId, Bounds>, slice: seq<Cell>, c: ConId): FunctionEntry
    requires c in constraints
  {
    BuildFunctionEntry(c, constraints[c], TermsIn(slice, c))
  }

  /** One entry per constraint, in strictly ascending constraint order. */
  ghost predicate AreFunctionsOf(functions: seq<FunctionEntry>, constraints: map<ConId, Bounds>, slice: seq<Cell>) {
    && AscendingBy(functions, ConstraintOf)
    && (forall e :: e in functions <==>
        e.constraint in constraints && e == SnapshotEntry(constraints, slice, e.constraint))
  }

  method Group(slice: seq<Cell>) returns (grouped: map<ConId, seq<Term>>)
    ensures forall c :: TermsIn(slice, c) == if c in grouped then grouped[c] else []
  {
    grouped := map[];
    var k := 0;
    while k < |slice|
      invariant 0 <= k <= |slice|
      invariant forall c :: TermsIn(slice[..k], c) == if c in grouped then grouped[c] else []
    {
      assert slice[..k + 1][..k] == slice[..k];
      if slice[k].target.OfConstraint? {
        var c := slice[k].target.constraint;
        grouped := grouped[c := (if c in grouped then grouped[c] else []) +
          [Term(slice[k].variable, slice[k].coefficient)]];
      }
      k := k + 1;
    }
    assert slice[..k] == slice;
  }

  /** The grouping pass of `take_snapshot`: one entry per constraint, whatever order the maps are walked in. */
  method TakeFunctions(constraints: map<ConId, Bounds>, slice: seq<Cell>) returns (functions: seq<FunctionEntry>)
    ensures AreFunctionsOf(functions, constraints, slice)
  {
    var grouped := Group(slice);
    var unsorted: seq<FunctionEntry> := [];
    var todo := constraints.Keys;
    while todo != {}
      invariant todo <= constraints.Keys
      invariant forall e :: e in unsorted <==>
        e.constraint in constraints && e.constraint !in todo && e == SnapshotEntry(constraints, slice, e.constraint)
      invariant OncePerKey(unsorted, ConstraintOf)
      decreases todo
    {
      var c :| c in todo;
      NewKey(unsorted, BuildFunctionEntry(c, constraints[c], if c in grouped then grouped[c] else []));
      unsorted := unsorted + [BuildFunctionEntry(c, constraints[c], if c in grouped then grouped[c] else [])];
      todo := todo - {c};
    }
    functions := StableSort(unsorted, ConstraintOf);
    SortAscends(unsorted, ConstraintOf);
    StableSortMembers(unsorted, ConstraintOf);
  }

  lemma NewKey(entries: seq<FunctionEntry>, e: FunctionEntry)
    requires OncePerKey(entries, ConstraintOf) && forall x :: x in entries ==> x.constraint != e.constraint
    ensures OncePerKey(entries + [e], ConstraintOf)
  {
    forall k
      ensures |WithKey(entries + [e], ConstraintOf, k)| <= 1
    {
      WithKeySnoc(entries, e, ConstraintOf, k);
      if k == e.constraint { WithoutKey(entries, ConstraintOf, k); }
    }
  }

  /** The contract leaves no choice: there is one such sequence. */
  lemma FunctionsAreUnique(
      a: seq<FunctionEntry>, b: seq<FunctionEntry>, constraints: map<ConId, Bounds>, slice: seq<Cell>)
    requires AreFunctionsOf(a, constraints, slice) && AreFunctionsOf(b, constraints, slice)
    ensures a == b
  {
    hide SnapshotEntry;
    AscendingIsUnique(a, b, ConstraintOf);
  }

  // ---------------------------------------------------------------- what the operations mean

  function WithTerms(
      cells: map<(ConId, VarId), Coefficient>, c: ConId, terms: seq<Term>): map<(ConId, VarId), Coefficient> {
    if |terms| == 0 then cells
    else
      var last := terms[|terms| - 1];
      WithTerms(cells, c, terms[..|terms| - 1])[(c, last.variable) := last.coefficient]
  }

  function WithRow(s: Canonical, row: AddedRow): Canonical {
    Canonical(s.constraints[row.con := row.bounds], WithTerms(s.cells, row.con, row.terms))
  }

  function WithRows(s: Canonical, rows: seq<AddedRow>): Canonical {
    if |rows| == 0 then s else WithRow(WithRows(s, rows[..|rows| - 1]), rows[|rows| - 1])
  }

  function Step(s: Canonical, op: ModelOp): Canonical
    requires BlockFits(op)
  {
    match op
    case RemoveVariable(v) => s.(cells := map k | k in s.cells && k.1 != v :: s.cells[k])
    case AddConstraint(c, b) => s.(constraints := s.constraints[c := b])
    case RemoveConstraint(c) => Canonical(s.constraints - {c}, map k | k in s.cells && k.0 != c :: s.cells[k])
    case SetConstraintBounds(c, b) => s.(constraints := s.constraints[c := b])
    case SetCell(target, v, e) => if target.OfConstraint? then s.(cells := s.cells[(target.constraint, v) := e]) else s
    case RemoveCell(target, v) => if target.OfConstraint? then s.(cells := s.cells - {(target.constraint, v)}) else s
    case OtherOp => s
    case _ => WithRows(s, RowsOf(op))
  }

  /** An op names only live constraints, and adds only new ones, with cells written once. */
  ghost predicate OpFits(s: Canonical, op: ModelOp) {
    && BlockFits(op)
    && match op
       case AddConstraint(c, _) => c !in s.constraints
       case SetConstraintBounds(c, _) => c in s.constraints
       case SetCell(target, _, _) => target.OfConstraint? ==> target.constraint in s.constraints
       case _ => RowsFit(s, RowsOf(op))
  }

  ghost predicate RowsFit(s: Canonical, rows: seq<AddedRow>) {
    && (forall i :: 0 <= i < |rows| ==> rows[i].con !in s.constraints && WrittenOnce(rows[i].terms))
    && (forall i, j :: 0 <= i < j < |rows| ==> rows[i].con != rows[j].con)
  }

  ghost predicate WrittenOnce(terms: seq<Term>) {
    forall v :: |WithKey(terms, VariableOf, v)| <= 1
  }

  ghost predicate OpsFit(s: Canonical, ops: seq<ModelOp>)
    decreases |ops|, 0
  {
    |ops| == 0 || (OpsFit(s, ops[..|ops| - 1]) && OpFits(Run(s, ops[..|ops| - 1]), ops[|ops| - 1]))
  }

  ghost function Run(s: Canonical, ops: seq<ModelOp>): Canonical
    requires OpsFit(s, ops)
    decreases |ops|, 1
  {
    if |ops| == 0 then s else Step(Run(s, ops[..|ops| - 1]), ops[|ops| - 1])
  }

  /** Cells belong to live constraints. */
  ghost predicate Sound(s: Canonical) {
    forall k :: k in s.cells ==> k.0 in s.constraints
  }

  /** The cell of `c` and `v` as a list of at most one term. */
  function CellAt(s: Canonical, c: ConId, v: VarId): seq<Term> {
    if (c, v) in s.cells then [Term(v, s.cells[(c, v)])] else []
  }

  /** The slice lists every constraint cell once, in any order. */
  ghost predicate Lists(slice: seq<Cell>, s: Canonical) {
    forall c, v :: WithKey(TermsIn(slice, c), VariableOf, v) == CellAt(s, c, v)
  }

  // ---------------------------------------------------------------- when the two views agree

  ghost predicate SameByVariable(a: seq<Term>, b: seq<Term>) {
    forall v :: WithKey(a, VariableOf, v) == WithKey(b, VariableOf, v)
  }

  lemma SortedSameByVariable(a: seq<Term>)
    ensures SameByVariable(a, StableSort(a, VariableOf)) && SortedBy(StableSort(a, VariableOf), VariableOf)
  {
    StableSortIsStable(a, VariableOf, 0);
    forall v
      ensures WithKey(a, VariableOf, v) == WithKey(StableSort(a, VariableOf), VariableOf, v)
    {
      StableSortIsStable(a, VariableOf, v);
    }
  }

  /** Sorting by variable forgets exactly the order between different variables. */
  lemma SortsAgree(a: seq<Term>, b: seq<Term>)
    ensures StableSort(a, VariableOf) == StableSort(b, VariableOf) <==> SameByVariable(a, b)
  {
    SortedSameByVariable(a);
    SortedSameByVariable(b);
    hide SortedBy, StableSort, WithKey;
    var x, y := StableSort(a, VariableOf), StableSort(b, VariableOf);
    if SameByVariable(a, b) {
      assert SameByVariable(x, y);
      StableSortIsUnique(x, y, VariableOf);
    }
  }

  /** `terms` are the cells that `s` holds for `c`. */
  ghost predicate Agree(terms: seq<Term>, s: Canonical, c: ConId) {
    forall v :: WithKey(terms, VariableOf, v) == CellAt(s, c, v)
  }

  /** The op writes or deletes the cell of `c` and `v`. */
  predicate Touches(op: ModelOp, c: ConId, v: VarId) {
    match op
    case SetCell(target, w, _) => target == OfConstraint(c) && w == v
    case RemoveCell(target, w) => target == OfConstraint(c) && w == v
    case RemoveVariable(w) => w == v
    case _ => false
  }

  /** The op touches no cell of `c` that `terms` already mention. */
  ghost predicate LeavesAlone(op: ModelOp, terms: seq<Term>, c: ConId) {
    forall v :: Touches(op, c, v) ==> WithKey(terms, VariableOf, v) == []
  }

  /** Every cell of the scalar row `c` is written once and not touched afterwards. */
  ghost predicate Clean(ops: seq<ModelOp>, c: ConId) {
    |ops| == 0
    || (Clean(ops[..|ops| - 1], c) && LeavesAlone(ops[|ops| - 1], TermsOf(ops[..|ops| - 1], c), c))
  }

  predicate AddsPacked(op: ModelOp, c: ConId)
    requires BlockFits(op)
  {
    exists r :: 0 <= r < RowCount(op) && PackedRow(op, r).con == c
  }

  /** The batch adds `c` by `AddConstraint`, never by a block, and never removes it. */
  ghost predicate ScalarOnly(ops: seq<ModelOp>, c: ConId) {
    && !Removed(ops, c)
    && forall i :: 0 <= i < |ops| ==> BlockFits(ops[i]) && !AddsPacked(ops[i], c)
  }

  lemma {:induction false} WithRowsElsewhere(s: Canonical, rows: seq<AddedRow>, c: ConId, v: VarId)
    requires forall i :: 0 <= i < |rows| ==> rows[i].con != c
    ensures CellAt(WithRows(s, rows), c, v) == CellAt(s, c, v)
    ensures c in WithRows(s, rows).constraints <==> c in s.constraints
    ensures c in s.constraints ==> WithRows(s, rows).constraints[c] == s.constraints[c]
  {
    if |rows| != 0 {
      var k := |rows| - 1;
      WithRowsElsewhere(s, rows[..k], c, v);
      WithTermsElsewhere(WithRows(s, rows[..k]).cells, rows[k].con, rows[k].terms, c, v);
    }
  }

  lemma {:induction false} WithTermsElsewhere(
      cells: map<(ConId, VarId), Coefficient>, d: ConId, terms: seq<Term>, c: ConId, v: VarId)
    requires d != c
    ensures (c, v) in WithTerms(cells, d, terms) <==> (c, v) in cells
    ensures (c, v) in cells ==> WithTerms(cells, d, terms)[(c, v)] == cells[(c, v)]
  {
    if |terms| != 0 {
      WithTermsElsewhere(cells, d, terms[..|terms| - 1], c, v);
    }
  }

  /** An op that does not touch a cell, remove its constraint or pack its row leaves it alone. */
  lemma UntouchedCell(s: Canonical, op: ModelOp, c: ConId, v: VarId)
    requires BlockFits(op) && !Touches(op, c, v) && op != RemoveConstraint(c) && !AddsPacked(op, c)
    ensures CellAt(Step(s, op), c, v) == CellAt(s, c, v)
  {
    if op.AddLinearRows? || op.AddParametricRows? || op.AddMixedRows? {
      assert forall i :: 0 <= i < |RowsOf(op)| ==> RowsOf(op)[i].con != c;
      WithRowsElsewhere(s, RowsOf(op), c, v);
    }
  }

  /** A touching op leaves one cell or none. */
  lemma TouchedCell(s: Canonical, op: ModelOp, c: ConId, v: VarId)
    requires BlockFits(op) && Touches(op, c, v)
    ensures CellAt(Step(s, op), c, v) == if op.SetCell? then [Term(v, op.coefficient)] else []
  {
  }

  lemma TermsGrow(ops: seq<ModelOp>, op: ModelOp, c: ConId, v: VarId)
    ensures WithKey(TermsOf(ops + [op], c), VariableOf, v) == WithKey(TermsOf(ops, c), VariableOf, v)
      + if Touches(op, c, v) && op.SetCell? then [Term(v, op.coefficient)] else []
  {
    assert (ops + [op])[..|ops|] == ops;
    if op.SetCell? && op.target == OfConstraint(c) {
      WithKeySnoc(TermsOf(ops, c), Term(op.variable, op.coefficient), VariableOf, v);
    } else {
      assert TermsOf(ops, c) + [] == TermsOf(ops, c);
    }
  }

  function Written(op: ModelOp, c: ConId, v: VarId): seq<Term> {
    if Touches(op, c, v) && op.SetCell? then [Term(v, op.coefficient)] else []
  }

  predicate Collected(terms: seq<Term>, terms': seq<Term>, op: ModelOp, c: ConId, v: VarId) {
    WithKey(terms', VariableOf, v) == WithKey(terms, VariableOf, v) + Written(op, c, v)
  }

  predicate Moved(was: Canonical, now: Canonical, op: ModelOp, c: ConId, v: VarId) {
    CellAt(now, c, v) == if Touches(op, c, v) then Written(op, c, v) else CellAt(was, c, v)
  }

  /** More terms were collected for some cell than the model holds. */
  ghost predicate Surplus(terms: seq<Term>, s: Canonical, c: ConId) {
    exists v :: |WithKey(terms, VariableOf, v)| > |CellAt(s, c, v)|
  }

  /** A clean prefix agrees; once it is not clean, a surplus never goes away. */
  lemma {:induction false} CleanIsExact(s: Canonical, ops: seq<ModelOp>, c: ConId)
    requires OpsFit(s, ops) && ScalarOnly(ops, c) && forall v :: CellAt(s, c, v) == []
    ensures if Clean(ops, c) then Agree(TermsOf(ops, c), Run(s, ops), c) else Surplus(TermsOf(ops, c), Run(s, ops), c)
  {
    if |ops| != 0 {
      var k := |ops| - 1;
      var before, op := ops[..k], ops[k];
      ScalarOnlyPrefix(ops, c);
      CleanIsExact(s, before, c);
      assert before + [op] == ops;
      var was, now := Run(s, before), Run(s, ops);
      forall v
        ensures Collected(TermsOf(before, c), TermsOf(ops, c), op, c, v) && Moved(was, now, op, c, v)
      {
        TermsGrow(before, op, c, v);
        if Touches(op, c, v) { TouchedCell(was, op, c, v); } else { UntouchedCell(was, op, c, v); }
      }
      hide TermsOf, CellAt, WithKey, Touches, Collected, Moved;
      CleanStep(TermsOf(before, c), TermsOf(ops, c), was, now, op, c, Clean(before, c), Clean(ops, c));
    }
  }

  lemma ScalarOnlyPrefix(ops: seq<ModelOp>, c: ConId)
    requires ScalarOnly(ops, c) && |ops| != 0
    ensures ScalarOnly(ops[..|ops| - 1], c)
    ensures ops[|ops| - 1] != RemoveConstraint(c) && !AddsPacked(ops[|ops| - 1], c)
  {
  }

  lemma CleanStep(
      terms: seq<Term>, terms': seq<Term>, was: Canonical, now: Canonical, op: ModelOp, c: ConId, clean: bool,
      clean': bool)
    requires forall v :: Collected(terms, terms', op, c, v) && Moved(was, now, op, c, v)
    requires if clean then Agree(terms, was, c) else Surplus(terms, was, c)
    requires clean' <==> clean && LeavesAlone(op, terms, c)
    ensures if clean' then Agree(terms', now, c) else Surplus(terms', now, c)
  {
    if clean' {
      forall v
        ensures WithKey(terms', VariableOf, v) == CellAt(now, c, v)
      {
        assert Collected(terms, terms', op, c, v) && Moved(was, now, op, c, v);
      }
    } else {
      var v :| if clean then Touches(op, c, v) && WithKey(terms, VariableOf, v) != []
               else |WithKey(terms, VariableOf, v)| > |CellAt(was, c, v)|;
      assert Collected(terms, terms', op, c, v) && Moved(was, now, op, c, v);
      assert |WithKey(terms', VariableOf, v)| > |CellAt(now, c, v)|;
    }
  }

  // ---- bounds

  /** A constraint that the batch adds has, once added, the last bounds set after that. */
  lemma {:induction false} BoundsFollow(s: Canonical, ops: seq<ModelOp>, c: ConId, declared: Bounds, i: nat)
    requires OpsFit(s, ops) && i < |ops| && c !in s.constraints && !Removed(ops, c)
    requires DeclaresAt(ops[i], c, declared)
    ensures c in Run(s, ops).constraints && Run(s, ops).constraints[c] == FinalBounds(ops, c, declared)
    ensures forall j :: i < j < |ops| ==> !AddsRow(ops[j], c)
  {
    var k := |ops| - 1;
    RemovedPrefix(ops, c);
    if i == k {
      DeclaredNow(Run(s, ops[..k]), ops[k], c, declared);
      NothingBefore(s, ops[..k], c, ops[k], declared);
    } else {
      BoundsFollow(s, ops[..k], c, declared, i);
      BoundsKept(Run(s, ops[..k]), ops[k], c);
      assert forall j :: i < j < k ==> ops[..k][j] == ops[j];
    }
  }

  predicate AddsRow(op: ModelOp, c: ConId) {
    BlockFits(op) && ((op.AddConstraint? && op.con == c) || AddsPacked(op, c))
  }

  predicate DeclaresAt(op: ModelOp, c: ConId, declared: Bounds) {
    BlockFits(op)
    && (op == AddConstraint(c, declared)
        || exists r :: 0 <= r < RowCount(op) && PackedRow(op, r).con == c && PackedRow(op, r).bounds == declared)
  }

  lemma RemovedPrefix(ops: seq<ModelOp>, c: ConId)
    requires |ops| != 0 && !Removed(ops, c)
    ensures !Removed(ops[..|ops| - 1], c) && ops[|ops| - 1] != RemoveConstraint(c)
  {
  }

  lemma {:induction false} WithRowsDeclares(s: Canonical, rows: seq<AddedRow>, r: nat)
    requires r < |rows| && forall i, j :: 0 <= i < j < |rows| ==> rows[i].con != rows[j].con
    ensures rows[r].con in WithRows(s, rows).constraints && WithRows(s, rows).constraints[rows[r].con] == rows[r].bounds
  {
    var k := |rows| - 1;
    if r < k { WithRowsDeclares(s, rows[..k], r); }
  }

  lemma DeclaredNow(s: Canonical, op: ModelOp, c: ConId, declared: Bounds)
    requires OpFits(s, op) && DeclaresAt(op, c, declared)
    ensures c !in s.constraints && c in Step(s, op).constraints && Step(s, op).constraints[c] == declared
  {
    if !op.AddConstraint? {
      var r :| 0 <= r < RowCount(op) && PackedRow(op, r).con == c && PackedRow(op, r).bounds == declared;
      assert RowsOf(op)[r] == PackedRow(op, r);
      WithRowsDeclares(s, RowsOf(op), r);
    }
  }

  /** A constraint that is not there has had no bounds set since the start. */
  lemma {:induction false} NothingBefore(s: Canonical, ops: seq<ModelOp>, c: ConId, op: ModelOp, declared: Bounds)
    requires OpsFit(s, ops) && c !in s.constraints && c !in Run(s, ops).constraints && !Removed(ops, c)
    requires DeclaresAt(op, c, declared)
    ensures FinalBounds(ops + [op], c, declared) == declared
    decreases |ops|
  {
    assert (ops + [op])[..|ops|] == ops;
    AbsentThroughout(s, ops, c, declared);
  }

  lemma {:induction false} AbsentThroughout(s: Canonical, ops: seq<ModelOp>, c: ConId, declared: Bounds)
    requires OpsFit(s, ops) && c !in s.constraints && c !in Run(s, ops).constraints && !Removed(ops, c)
    ensures FinalBounds(ops, c, declared) == declared
  {
    if |ops| != 0 {
      var k := |ops| - 1;
      RemovedPrefix(ops, c);
      if c in Run(s, ops[..k]).constraints {
        BoundsKept(Run(s, ops[..k]), ops[k], c);
      } else {
        AbsentThroughout(s, ops[..k], c, declared);
      }
    }
  }

  /** A live constraint stays, and only a bounds op changes its bounds. */
  lemma BoundsKept(s: Canonical, op: ModelOp, c: ConId)
    requires OpFits(s, op) && c in s.constraints && op != RemoveConstraint(c)
    ensures c in Step(s, op).constraints && !AddsRow(op, c)
    ensures Step(s, op).constraints[c] == if op.SetConstraintBounds? && op.con == c then op.bounds else s.constraints[c]
  {
    if op.AddLinearRows? || op.AddParametricRows? || op.AddMixedRows? {
      forall i | 0 <= i < |RowsOf(op)|
        ensures RowsOf(op)[i].con != c
      {
        assert RowsOf(op)[i].con !in s.constraints;
      }
      forall r | 0 <= r < RowCount(op)
        ensures PackedRow(op, r).con != c
      {
        assert RowsOf(op)[r] == PackedRow(op, r);
      }
      WithRowsElsewhere(s, RowsOf(op), c, 0);
    }
  }

  // ---- scalar rows

  lemma {:induction false} RunIsSound(s: Canonical, ops: seq<ModelOp>)
    requires OpsFit(s, ops) && Sound(s)
    ensures Sound(Run(s, ops))
  {
    if |ops| != 0 {
      var k := |ops| - 1;
      RunIsSound(s, ops[..k]);
      var op := ops[k];
      if op.AddLinearRows? || op.AddParametricRows? || op.AddMixedRows? {
        WithRowsIsSound(Run(s, ops[..k]), RowsOf(op));
      }
    }
  }

  lemma {:induction false} WithRowsIsSound(s: Canonical, rows: seq<AddedRow>)
    requires Sound(s)
    ensures Sound(WithRows(s, rows))
  {
    if |rows| != 0 {
      var k := |rows| - 1;
      WithRowsIsSound(s, rows[..k]);
      WithTermsKeys(WithRows(s, rows[..k]).cells, rows[k].con, rows[k].terms);
    }
  }

  lemma {:induction false} WithTermsKeys(cells: map<(ConId, VarId), Coefficient>, c: ConId, terms: seq<Term>)
    ensures forall k :: k in WithTerms(cells, c, terms) ==> k in cells || k.0 == c
  {
    if |terms| != 0 {
      WithTermsKeys(cells, c, terms[..|terms| - 1]);
    }
  }

  /** A row is added once: by one op, while it is not removed. */
  lemma AddedOnce(s: Canonical, ops: seq<ModelOp>, c: ConId, declared: Bounds, i: nat, j: nat)
    requires OpsFit(s, ops) && i < |ops| && j < |ops| && c !in s.constraints && !Removed(ops, c)
    requires DeclaresAt(ops[i], c, declared) && AddsRow(ops[j], c)
    ensures i == j
  {
    if i < j {
      BoundsFollow(s, ops, c, declared, i);
    } else if j < i {
      var other := DeclaredBounds(ops[j], c);
      BoundsFollow(s, ops, c, other, j);
      assert AddsRow(ops[i], c);
    }
  }

  lemma DeclaredBounds(op: ModelOp, c: ConId) returns (declared: Bounds)
    requires AddsRow(op, c)
    ensures DeclaresAt(op, c, declared)
  {
    if op.AddConstraint? {
      declared := op.bounds;
    } else {
      var r :| 0 <= r < RowCount(op) && PackedRow(op, r).con == c;
      declared := PackedRow(op, r).bounds;
    }
  }

  lemma {:induction false} OpsFitBlocks(s: Canonical, ops: seq<ModelOp>)
    requires OpsFit(s, ops)
    ensures forall i :: 0 <= i < |ops| ==> BlockFits(ops[i])
  {
    if |ops| != 0 {
      OpsFitBlocks(s, ops[..|ops| - 1]);
      assert forall i :: 0 <= i < |ops| - 1 ==> ops[i] == ops[..|ops| - 1][i];
    }
  }

  /**
   * A scalar row's delta entry is the entry a snapshot rebuilds after the batch exactly when each of its cells
   * is written once and no later op touches it.
   */
  lemma ScalarEntryAgrees(s: Canonical, ops: seq<ModelOp>, slice: seq<Cell>, c: ConId, declared: Bounds, i: nat)
    requires OpsFit(s, ops) && Sound(s) && c !in s.constraints && !Removed(ops, c)
    requires i < |ops| && ops[i] == AddConstraint(c, declared)
    requires Lists(slice, Run(s, ops))
    ensures c in Run(s, ops).constraints
    ensures EntryOf(ops, AddedRow(c, declared, TermsOf(ops, c))) == [SnapshotEntry(Run(s, ops).constraints, slice, c)]
      <==> Clean(ops, c)
  {
    OpsFitBlocks(s, ops);
    forall j | 0 <= j < |ops|
      ensures !AddsPacked(ops[j], c)
    {
      if AddsPacked(ops[j], c) { AddedOnce(s, ops, c, declared, i, j); }
    }
    CleanIsExact(s, ops, c);
    BoundsFollow(s, ops, c, declared, i);
    SortsAgree(TermsOf(ops, c), TermsIn(slice, c));
    AgreementIsExact(TermsOf(ops, c), slice, Run(s, ops), c);
  }

  /** Agreement with the model is agreement with any slice of it; a surplus is not. */
  lemma AgreementIsExact(terms: seq<Term>, slice: seq<Cell>, s: Canonical, c: ConId)
    requires Lists(slice, s)
    ensures SameByVariable(terms, TermsIn(slice, c)) <==> Agree(terms, s, c)
    ensures Surplus(terms, s, c) ==> !Agree(terms, s, c)
  {
    forall v
      ensures WithKey(TermsIn(slice, c), VariableOf, v) == CellAt(s, c, v)
    {
    }
  }

  // ---- packed rows

  /** What the last op behind position `from` that touches the cell makes of it. */
  function LastTouch(ops: seq<ModelOp>, from: nat, c: ConId, v: VarId): Option<seq<Term>> {
    if |ops| <= from then None
    else
      var last := ops[|ops| - 1];
      if Touches(last, c, v) then Some(Written(last, c, v)) else LastTouch(ops[..|ops| - 1], from, c, v)
  }

  lemma {:induction false} WithTermsHolds(cells: map<(ConId, VarId), Coefficient>, c: ConId, terms: seq<Term>, v: VarId)
    requires WrittenOnce(terms) && (c, v) !in cells
    ensures WithKey(terms, VariableOf, v)
      == if (c, v) in WithTerms(cells, c, terms) then [Term(v, WithTerms(cells, c, terms)[(c, v)])] else []
  {
    if |terms| != 0 {
      var k := |terms| - 1;
      assert terms == terms[..k] + [terms[k]];
      forall w
        ensures |WithKey(terms[..k], VariableOf, w)| <= |WithKey(terms, VariableOf, w)|
      {
        WithKeySnoc(terms[..k], terms[k], VariableOf, w);
      }
      WithTermsHolds(cells, c, terms[..k], v);
      assert |WithKey(terms, VariableOf, v)| <= 1;
    }
  }

  lemma {:induction false} WithRowsHolds(s: Canonical, rows: seq<AddedRow>, r: nat, v: VarId)
    requires r < |rows| && RowsFit(s, rows) && Sound(s)
    ensures CellAt(WithRows(s, rows), rows[r].con, v) == WithKey(rows[r].terms, VariableOf, v)
  {
    var k := |rows| - 1;
    var before := WithRows(s, rows[..k]);
    if r < k {
      WithRowsHolds(s, rows[..k], r, v);
      WithTermsElsewhere(before.cells, rows[k].con, rows[k].terms, rows[r].con, v);
    } else {
      WithRowsElsewhere(s, rows[..k], rows[k].con, v);
      WithTermsHolds(before.cells, rows[k].con, rows[k].terms, v);
    }
  }

  /** A packed row's cell holds what the block gave it, or what the last later touch made of it. */
  lemma {:induction false} PackedCell(s: Canonical, ops: seq<ModelOp>, i: nat, r: nat, v: VarId)
    requires OpsFit(s, ops) && Sound(s) && i < |ops| && BlockFits(ops[i]) && r < RowCount(ops[i])
    requires PackedRow(ops[i], r).con !in s.constraints && !Removed(ops, PackedRow(ops[i], r).con)
    ensures
      var row := PackedRow(ops[i], r);
      var touch := LastTouch(ops, i + 1, row.con, v);
      CellAt(Run(s, ops), row.con, v) == if touch.Some? then touch.value else WithKey(row.terms, VariableOf, v)
  {
    var k, row := |ops| - 1, PackedRow(ops[i], r);
    RunIsSound(s, ops[..k]);
    if i == k {
      assert RowsOf(ops[i])[r] == row;
      WithRowsHolds(Run(s, ops[..k]), RowsOf(ops[i]), r, v);
    } else {
      RemovedPrefix(ops, row.con);
      PackedCell(s, ops[..k], i, r, v);
      BoundsFollow(s, ops, row.con, row.bounds, i);
      OpsFitBlocks(s, ops);
      if Touches(ops[k], row.con, v) {
        TouchedCell(Run(s, ops[..k]), ops[k], row.con, v);
      } else {
        UntouchedCell(Run(s, ops[..k]), ops[k], row.con, v);
      }
    }
  }

  /** Whatever later ops do to the cells of row `r` of block `i`, they leave what the block wrote. */
  ghost predicate LeftAsPacked(ops: seq<ModelOp>, i: nat, r: nat)
    requires i < |ops| && BlockFits(ops[i]) && r < RowCount(ops[i])
  {
    var row := PackedRow(ops[i], r);
    forall v :: CellLeft(ops, i, row, v)
  }

  predicate CellLeft(ops: seq<ModelOp>, i: nat, row: AddedRow, v: VarId) {
    var touch := LastTouch(ops, i + 1, row.con, v);
    touch.None? || touch.value == WithKey(row.terms, VariableOf, v)
  }

  /**
   * A packed row's delta entry is the snapshot's entry exactly when the later ops on its cells, if any, leave
   * what the block wrote: the pass reads no `SetCell` for a packed row.
   */
  lemma PackedEntryAgrees(s: Canonical, ops: seq<ModelOp>, slice: seq<Cell>, i: nat, r: nat)
    requires OpsFit(s, ops) && Sound(s) && i < |ops| && BlockFits(ops[i]) && r < RowCount(ops[i])
    requires PackedRow(ops[i], r).con !in s.constraints && !Removed(ops, PackedRow(ops[i], r).con)
    requires Lists(slice, Run(s, ops))
    ensures PackedRow(ops[i], r).con in Run(s, ops).constraints
    ensures EntryOf(ops, PackedRow(ops[i], r)) ==
        [SnapshotEntry(Run(s, ops).constraints, slice, PackedRow(ops[i], r).con)]
      <==> LeftAsPacked(ops, i, r)
  {
    var row := PackedRow(ops[i], r);
    BoundsFollow(s, ops, row.con, row.bounds, i);
    SortsAgree(row.terms, TermsIn(slice, row.con));
    AgreementIsExact(row.terms, slice, Run(s, ops), row.con);
    forall v
      ensures CellLeft(ops, i, row, v) <==> WithKey(row.terms, VariableOf, v) == CellAt(Run(s, ops), row.con, v)
    {
      PackedCell(s, ops, i, r, v);
    }
    hide CellLeft, CellAt, WithKey, Lists, SortedBy;
  }

  /** A cell set on a packed row after its block is missing from the batch's entry for that row. */
  lemma PackedRowMissesLaterCell(c: ConId, b: Bounds, v: VarId, x: Coefficient, slice: seq<Cell>)
    ensures
      var block := AddLinearRows(LinearRowBlock([c], [b], [0, 0], [], []));
      var ops := [block, SetCell(OfConstraint(c), v, x)];
      BlockFits(block) && CellAt(Step(Step(Canonical(map[], map[]), block), ops[1]), c, v) == [Term(v, x)]
      && EntryOf(ops, PackedRow(block, 0)) == [FunctionEntry(c, [], SetOf(b))]
  {
    var block := AddLinearRows(LinearRowBlock([c], [b], [0, 0], [], []));
    var ops := [block, SetCell(OfConstraint(c), v, x)];
    assert ops[..1] == [block] && [block][..0] == [];
    assert FinalBounds([block], c, b) == FinalBounds([], c, b);
    assert FinalBounds(ops, c, b) == b;
    assert PackedRow(block, 0) == AddedRow(c, b, []);
    assert StableSort([], VariableOf) == [];
    assert !Removed(ops, c);
    TouchedCell(Step(Canonical(map[], map[]), block), ops[1], c, v);
  }

  // ---------------------------------------------------------------- whole batches

  /** The batch adds the constraint and does not remove it. */
  ghost predicate Survives(s: Canonical, ops: seq<ModelOp>, c: ConId)
    requires OpsFit(s, ops)
  {
    c !in s.constraints && c in Run(s, ops).constraints && !Removed(ops, c)
  }

  /** The batch writes the cells of the rows it adds once, and leaves them alone. */
  ghost predicate WritesOnce(s: Canonical, ops: seq<ModelOp>)
    requires OpsFit(s, ops) && BlocksFit(ops)
  {
    && (forall i :: 0 <= i < |ops| && ops[i].AddConstraint? && !Removed(ops, ops[i].con) ==> Clean(ops, ops[i].con))
    && (forall i, r {:trigger LeftAsPacked(ops, i, r)} ::
          (0 <= i < |ops| && 0 <= r < RowCount(ops[i]) && !Removed(ops, PackedRow(ops[i], r).con)) ==>
          LeftAsPacked(ops, i, r))
  }

  lemma {:induction false} StaysUnlessRemoved(s: Canonical, ops: seq<ModelOp>, c: ConId)
    requires OpsFit(s, ops) && c in s.constraints && !Removed(ops, c)
    ensures c in Run(s, ops).constraints && forall i :: 0 <= i < |ops| ==> !AddsRow(ops[i], c)
  {
    if |ops| != 0 {
      var k := |ops| - 1;
      RemovedPrefix(ops, c);
      StaysUnlessRemoved(s, ops[..k], c);
      BoundsKept(Run(s, ops[..k]), ops[k], c);
      assert forall i :: 0 <= i < k ==> ops[i] == ops[..k][i];
    }
  }

  /** Whatever is live and was not before was added by some op. */
  lemma {:induction false} LiveWasAdded(s: Canonical, ops: seq<ModelOp>, c: ConId) returns (i: nat)
    requires OpsFit(s, ops) && c !in s.constraints && c in Run(s, ops).constraints
    ensures i < |ops| && AddsRow(ops[i], c)
  {
    var k := |ops| - 1;
    var before, op := Run(s, ops[..k]), ops[k];
    if c in before.constraints {
      i := LiveWasAdded(s, ops[..k], c);
    } else {
      i := k;
      if op.AddLinearRows? || op.AddParametricRows? || op.AddMixedRows? {
        if !AddsPacked(op, c) {
          assert forall j :: 0 <= j < |RowsOf(op)| ==> RowsOf(op)[j].con != c;
          WithRowsElsewhere(before, RowsOf(op), c, 0);
        }
      }
    }
  }

  lemma {:induction false} EntriesOfMembers(ops: seq<ModelOp>, rows: seq<AddedRow>, e: FunctionEntry)
    ensures e in EntriesOf(ops, rows) <==> exists row :: row in rows && EntryOf(ops, row) == [e]
  {
    if |rows| != 0 {
      var k := |rows| - 1;
      EntriesOfMembers(ops, rows[..k], e);
      assert forall row :: row in rows <==> row in rows[..k] || row == rows[k];
      assert e in EntryOf(ops, rows[k]) <==> EntryOf(ops, rows[k]) == [e];
    }
  }

  lemma {:induction false} ScalarRowsMembers(ops: seq<ModelOp>, all: seq<ModelOp>, row: AddedRow)
    ensures row in ScalarRows(ops, all) <==>
      row.terms == TermsOf(all, row.con) && exists i :: 0 <= i < |ops| && ops[i] == AddConstraint(row.con, row.bounds)
  {
    if |ops| != 0 {
      var k := |ops| - 1;
      ScalarRowsMembers(ops[..k], all, row);
      assert forall i :: 0 <= i < k ==> ops[i] == ops[..k][i];
    }
  }

  ghost predicate IsPackedAt(ops: seq<ModelOp>, row: AddedRow, i: int, r: int)
    requires BlocksFit(ops)
  {
    0 <= i < |ops| && 0 <= r < RowCount(ops[i]) && PackedRow(ops[i], r) == row
  }

  lemma {:induction false} BlockRowsMembers(ops: seq<ModelOp>, kind: BlockKind, row: AddedRow)
    requires BlocksFit(ops)
    ensures row in BlockRows(ops, kind) <==> exists i, r :: IsPackedAt(ops, row, i, r) && IsBlock(ops[i], kind)
  {
    if |ops| != 0 {
      var k := |ops| - 1;
      BlockRowsMembers(ops[..k], kind, row);
      forall i, r
        ensures i < k ==> (IsPackedAt(ops, row, i, r) <==> IsPackedAt(ops[..k], row, i, r))
      {
      }
      if IsBlock(ops[k], kind) && row in RowsOf(ops[k]) {
        var r: nat :| r < |RowsOf(ops[k])| && RowsOf(ops[k])[r] == row;
        assert IsPackedAt(ops, row, k, r);
      }
      if i, r :| IsPackedAt(ops, row, i, r) && IsBlock(ops[i], kind) {
        if i == k { assert RowsOf(ops[k])[r] == row; }
      }
    }
  }

  /** Every added row is a scalar one or a packed one. */
  lemma AllRowsMembers(ops: seq<ModelOp>, row: AddedRow)
    requires BlocksFit(ops)
    ensures row in AllRows(ops) <==>
      || (&& row.terms == TermsOf(ops, row.con)
          && exists i :: 0 <= i < |ops| && ops[i] == AddConstraint(row.con, row.bounds))
      || exists i, r :: IsPackedAt(ops, row, i, r)
  {
    ScalarRowsMembers(ops, ops, row);
    BlockRowsMembers(ops, LinearBlock, row);
    BlockRowsMembers(ops, ParametricBlock, row);
    BlockRowsMembers(ops, MixedBlock, row);
    if i, r :| IsPackedAt(ops, row, i, r) {
      PackedInBlocks(ops, row, i, r);
    }
    hide ScalarRows, BlockRows, TermsOf, IsPackedAt, IsBlock;
  }

  lemma PackedInBlocks(ops: seq<ModelOp>, row: AddedRow, i: int, r: int)
    requires BlocksFit(ops) && IsPackedAt(ops, row, i, r)
    ensures IsBlock(ops[i], LinearBlock) || IsBlock(ops[i], ParametricBlock) || IsBlock(ops[i], MixedBlock)
  {
  }

  /** One added and surviving row: its delta entry is its snapshot entry. */
  lemma RowAgrees(s: Canonical, ops: seq<ModelOp>, slice: seq<Cell>, row: AddedRow)
    requires OpsFit(s, ops) && Sound(s) && BlocksFit(ops) && WritesOnce(s, ops) && Lists(slice, Run(s, ops))
    requires row in AllRows(ops) && !Removed(ops, row.con)
    ensures Survives(s, ops, row.con)
    ensures EntryOf(ops, row) == [SnapshotEntry(Run(s, ops).constraints, slice, row.con)]
  {
    AllRowsMembers(ops, row);
    if row.con in s.constraints { StaysUnlessRemoved(s, ops, row.con); }
    if i, r :| IsPackedAt(ops, row, i, r) {
      assert AddsRow(ops[i], row.con);
      PackedEntryAgrees(s, ops, slice, i, r);
    } else {
      var i :| 0 <= i < |ops| && ops[i] == AddConstraint(row.con, row.bounds);
      assert AddsRow(ops[i], row.con);
      ScalarEntryAgrees(s, ops, slice, row.con, row.bounds, i);
    }
  }

  lemma RowOf(s: Canonical, ops: seq<ModelOp>, c: ConId) returns (row: AddedRow)
    requires OpsFit(s, ops) && BlocksFit(ops) && Survives(s, ops, c)
    ensures row in AllRows(ops) && row.con == c
  {
    var i := LiveWasAdded(s, ops, c);
    if ops[i].AddConstraint? {
      row := AddedRow(c, ops[i].bounds, TermsOf(ops, c));
    } else {
      var r: nat :| r < RowCount(ops[i]) && PackedRow(ops[i], r).con == c;
      row := PackedRow(ops[i], r);
      assert IsPackedAt(ops, row, i, r);
    }
    AllRowsMembers(ops, row);
  }

  // ---- every added row appears once

  function ConOf(row: AddedRow): nat { row.con }

  lemma {:induction false} EntriesWithKey(ops: seq<ModelOp>, rows: seq<AddedRow>, c: ConId)
    ensures WithKey(EntriesOf(ops, rows), ConstraintOf, c) == EntriesOf(ops, WithKey(rows, ConOf, c))
  {
    if |rows| != 0 {
      var k := |rows| - 1;
      EntriesWithKey(ops, rows[..k], c);
      WithKeyAppend(EntriesOf(ops, rows[..k]), EntryOf(ops, rows[k]), ConstraintOf, c);
      EntryWithKey(ops, rows[k], c);
      var before := WithKey(rows[..k], ConOf, c);
      if rows[k].con == c {
        assert WithKey(rows, ConOf, c) == before + [rows[k]];
        EntriesOfSnoc(ops, before, rows[k]);
      } else {
        assert WithKey(rows, ConOf, c) == before;
      }
    }
  }

  lemma EntryWithKey(ops: seq<ModelOp>, row: AddedRow, c: ConId)
    ensures WithKey(EntryOf(ops, row), ConstraintOf, c) == if row.con == c then EntryOf(ops, row) else []
  {
    if !Removed(ops, row.con) {
      WithKeySnoc([], EntryOf(ops, row)[0], ConstraintOf, c);
      assert [] + [EntryOf(ops, row)[0]] == EntryOf(ops, row);
      assert WithKey<FunctionEntry>([], ConstraintOf, c) == [];
    }
  }

  /** How often the rows that `ops` add name `c`. */
  function Times(ops: seq<ModelOp>, all: seq<ModelOp>, c: ConId): nat
    requires forall i :: 0 <= i < |ops| ==> BlockFits(ops[i])
  {
    |WithKey(ScalarRows(ops, all), ConOf, c)| + |WithKey(BlockRows(ops, LinearBlock), ConOf, c)|
    + |WithKey(BlockRows(ops, ParametricBlock), ConOf, c)| + |WithKey(BlockRows(ops, MixedBlock), ConOf, c)|
  }

  /** The same for one op. */
  function TimesIn(op: ModelOp, c: ConId): nat
    requires BlockFits(op)
  {
    if op.AddConstraint? && op.con == c then 1 else |WithKey(RowsOf(op), ConOf, c)|
  }

  lemma TimesNext(ops: seq<ModelOp>, all: seq<ModelOp>, c: ConId)
    requires |ops| != 0 && BlocksFit(ops)
    ensures Times(ops, all, c) == Times(ops[..|ops| - 1], all, c) + TimesIn(ops[|ops| - 1], c)
  {
    hide WithKey;
    var k := |ops| - 1;
    var before, op := ops[..k], ops[k];
    KeyOfNone(c);
    if op.AddConstraint? {
      var row := AddedRow(op.con, op.bounds, TermsOf(all, op.con));
      WithKeyAppend(ScalarRows(before, all), [row], ConOf, c);
      KeyOfOne(row, c);
    }
    assert ScalarRows(before, all) + [] == ScalarRows(before, all);
    BlockTimesNext(ops, LinearBlock, c);
    BlockTimesNext(ops, ParametricBlock, c);
    BlockTimesNext(ops, MixedBlock, c);
    hide ScalarRows, BlockRows;
    NoRows(op);
  }

  lemma KeyOfNone(c: ConId)
    ensures WithKey<AddedRow>([], ConOf, c) == []
  {
  }

  lemma KeyOfOne(row: AddedRow, c: ConId)
    ensures |WithKey([row], ConOf, c)| == if row.con == c then 1 else 0
  {
    WithKeySnoc([], row, ConOf, c);
    assert [] + [row] == [row];
    KeyOfNone(c);
  }

  lemma BlockTimesNext(ops: seq<ModelOp>, kind: BlockKind, c: ConId)
    requires |ops| != 0 && BlocksFit(ops)
    ensures
      var k := |ops| - 1;
      |WithKey(BlockRows(ops, kind), ConOf, c)|
      == |WithKey(BlockRows(ops[..k], kind), ConOf, c)|
         + if IsBlock(ops[k], kind) then |WithKey(RowsOf(ops[k]), ConOf, c)| else 0
  {
    hide WithKey, RowsOf;
    var k := |ops| - 1;
    var before := BlockRows(ops[..k], kind);
    if IsBlock(ops[k], kind) {
      WithKeyAppend(before, RowsOf(ops[k]), ConOf, c);
    } else {
      assert before + [] == before;
    }
  }

  lemma NoRows(op: ModelOp)
    requires BlockFits(op)
    ensures RowsOf(op) == [] || IsBlock(op, LinearBlock) || IsBlock(op, ParametricBlock) || IsBlock(op, MixedBlock)
  {
  }

  /** An op names a constraint at most once, and exactly when it adds it. */
  lemma AddsOnce(s: Canonical, op: ModelOp, c: ConId)
    requires OpFits(s, op)
    ensures TimesIn(op, c) <= 1 && (TimesIn(op, c) == 1 <==> AddsRow(op, c))
    ensures AddsRow(op, c) ==> c !in s.constraints && c in Step(s, op).constraints
  {
    if !(op.AddConstraint? && op.con == c) {
      var rows := RowsOf(op);
      DistinctOrNone(s, op);
      DistinctKeys(rows, ConOf, c);
      if AddsPacked(op, c) {
        PackedIsNew(s, op, c);
      } else {
        WithoutKey(rows, ConOf, c);
      }
    }
  }

  lemma PackedIsNew(s: Canonical, op: ModelOp, c: ConId)
    requires OpFits(s, op) && AddsPacked(op, c)
    ensures c !in s.constraints && c in Step(s, op).constraints && |WithKey(RowsOf(op), ConOf, c)| >= 1
  {
    var rows := RowsOf(op);
    var r: nat :| r < RowCount(op) && PackedRow(op, r).con == c;
    assert rows[r].con == c && rows[r] in rows && rows[r].con !in s.constraints;
    WithKeyMembers(rows, ConOf, c);
    WithRowsDeclares(s, rows, r);
  }

  lemma DistinctOrNone(s: Canonical, op: ModelOp)
    requires OpFits(s, op)
    ensures forall i, j :: 0 <= i < j < |RowsOf(op)| ==> ConOf(RowsOf(op)[i]) != ConOf(RowsOf(op)[j])
  {
  }

  /** A constraint that the batch does not remove is added at most once, and then it is live. */
  lemma {:induction false} AddedAtMostOnce(s: Canonical, ops: seq<ModelOp>, all: seq<ModelOp>, c: ConId)
    requires OpsFit(s, ops) && BlocksFit(ops) && !Removed(ops, c)
    ensures Times(ops, all, c) <= 1 && (Times(ops, all, c) == 1 ==> c in Run(s, ops).constraints)
  {
    hide Times, TimesIn, Step, AddsRow;
    if |ops| == 0 {
      NothingAdded(all, c);
      assert ops == [];
    } else {
      var k := |ops| - 1;
      var before := Run(s, ops[..k]);
      RemovedPrefix(ops, c);
      AddedAtMostOnce(s, ops[..k], all, c);
      TimesNext(ops, all, c);
      AddsOnce(before, ops[k], c);
      if c in before.constraints { BoundsKept(before, ops[k], c); }
    }
  }

  lemma NothingAdded(all: seq<ModelOp>, c: ConId)
    ensures Times([], all, c) == 0
  {
  }

  lemma TimesInAll(ops: seq<ModelOp>, c: ConId)
    requires BlocksFit(ops)
    ensures |WithKey(AllRows(ops), ConOf, c)| == Times(ops, ops, c)
  {
    hide WithKey, ScalarRows, BlockRows;
    var a, b := ScalarRows(ops, ops), BlockRows(ops, LinearBlock);
    var p, m := BlockRows(ops, ParametricBlock), BlockRows(ops, MixedBlock);
    WithKeyAppend(a, b, ConOf, c);
    WithKeyAppend(a + b, p, ConOf, c);
    WithKeyAppend(a + b + p, m, ConOf, c);
  }

  lemma {:induction false} EntriesCount(ops: seq<ModelOp>, rows: seq<AddedRow>)
    ensures |EntriesOf(ops, rows)| <= |rows|
  {
    if |rows| != 0 { EntriesCount(ops, rows[..|rows| - 1]); }
  }

  lemma {:induction false} RemovedHasNoEntries(ops: seq<ModelOp>, rows: seq<AddedRow>, c: ConId)
    requires Removed(ops, c) && forall row :: row in rows ==> row.con == c
    ensures EntriesOf(ops, rows) == []
  {
    if |rows| != 0 { RemovedHasNoEntries(ops, rows[..|rows| - 1], c); }
  }

  lemma EntriesOncePerKey(s: Canonical, ops: seq<ModelOp>)
    requires OpsFit(s, ops) && BlocksFit(ops)
    ensures OncePerKey(EntriesOf(ops, AllRows(ops)), ConstraintOf)
  {
    hide WithKey, AllRows, EntriesOf, Removed;
    forall c
      ensures |WithKey(EntriesOf(ops, AllRows(ops)), ConstraintOf, c)| <= 1
    {
      var mine := WithKey(AllRows(ops), ConOf, c);
      EntriesWithKey(ops, AllRows(ops), c);
      if Removed(ops, c) {
        WithKeyMembers(AllRows(ops), ConOf, c);
        RemovedHasNoEntries(ops, mine, c);
      } else {
        TimesInAll(ops, c);
        AddedAtMostOnce(s, ops, ops, c);
        EntriesCount(ops, mine);
      }
    }
  }

  /** The entries of the constraints that the batch added and kept. */
  ghost function Surviving(functions: seq<FunctionEntry>, s: Canonical, ops: seq<ModelOp>): seq<FunctionEntry>
    requires OpsFit(s, ops)
  {
    if |functions| == 0 then []
    else
      var last := functions[|functions| - 1];
      Surviving(functions[..|functions| - 1], s, ops) + if Survives(s, ops, last.constraint) then [last] else []
  }

  lemma {:induction false} SurvivingIsSubsequence(functions: seq<FunctionEntry>, s: Canonical, ops: seq<ModelOp>)
    requires OpsFit(s, ops) && AscendingBy(functions, ConstraintOf)
    ensures AscendingBy(Surviving(functions, s, ops), ConstraintOf)
    ensures forall e :: e in Surviving(functions, s, ops) <==> e in functions && Survives(s, ops, e.constraint)
  {
    hide Survives, Run, OpsFit;
    if |functions| != 0 {
      var k := |functions| - 1;
      var rest := Surviving(functions[..k], s, ops);
      SurvivingIsSubsequence(functions[..k], s, ops);
      assert functions == functions[..k] + [functions[k]];
      forall i | 0 <= i < |rest|
        ensures rest[i].constraint < functions[k].constraint
      {
        assert rest[i] in functions[..k];
        var j :| 0 <= j < k && functions[j] == rest[i];
        assert ConstraintOf(functions[j]) < ConstraintOf(functions[k]);
      }
    }
  }

  lemma EntriesAgree(s: Canonical, ops: seq<ModelOp>, slice: seq<Cell>, e: FunctionEntry)
    requires OpsFit(s, ops) && Sound(s) && BlocksFit(ops) && WritesOnce(s, ops) && Lists(slice, Run(s, ops))
    ensures e in FullScan(ops) <==>
      Survives(s, ops, e.constraint) && e == SnapshotEntry(Run(s, ops).constraints, slice, e.constraint)
  {
    hide AllRows, SnapshotEntry, WritesOnce, Lists, Sound, EntriesOf;
    StableSortMembers(EntriesOf(ops, AllRows(ops)), ConstraintOf);
    EntriesOfMembers(ops, AllRows(ops), e);
    if e in FullScan(ops) {
      var row :| row in AllRows(ops) && EntryOf(ops, row) == [e];
      RowAgrees(s, ops, slice, row);
    }
    if Survives(s, ops, e.constraint) && e == SnapshotEntry(Run(s, ops).constraints, slice, e.constraint) {
      var row := RowOf(s, ops, e.constraint);
      RowAgrees(s, ops, slice, row);
    }
  }

  lemma AgreesWhenWrittenOnce(s: Canonical, ops: seq<ModelOp>, slice: seq<Cell>, functions: seq<FunctionEntry>)
    requires OpsFit(s, ops) && Sound(s) && BlocksFit(ops) && WritesOnce(s, ops) && Lists(slice, Run(s, ops))
    requires AreFunctionsOf(functions, Run(s, ops).constraints, slice)
    ensures FullScan(ops) == Surviving(functions, s, ops)
  {
    hide AllRows, SnapshotEntry, WritesOnce, Lists, Sound, EntriesOf, StableSort, Surviving, FullScan;
    EntriesOncePerKey(s, ops);
    SortAscends(EntriesOf(ops, AllRows(ops)), ConstraintOf);
    assert AscendingBy(FullScan(ops), ConstraintOf) by { FullScanSorts(ops); }
    SurvivingIsSubsequence(functions, s, ops);
    forall e
      ensures e in FullScan(ops) <==> e in Surviving(functions, s, ops)
    {
      EntriesAgree(s, ops, slice, e);
    }
    AscendingIsUnique(FullScan(ops), Surviving(functions, s, ops), ConstraintOf);
  }

  /** Where the two sequences are equal, every added and surviving row has the snapshot's entry. */
  lemma EqualMeansRowAgrees(
      s: Canonical, ops: seq<ModelOp>, slice: seq<Cell>, functions: seq<FunctionEntry>, row: AddedRow)
    requires OpsFit(s, ops) && BlocksFit(ops) && AreFunctionsOf(functions, Run(s, ops).constraints, slice)
    requires FullScan(ops) == Surviving(functions, s, ops) && row in AllRows(ops) && !Removed(ops, row.con)
    ensures row.con in Run(s, ops).constraints
    ensures EntryOf(ops, row) == [SnapshotEntry(Run(s, ops).constraints, slice, row.con)]
  {
    hide AllRows, SnapshotEntry, EntriesOf, StableSort, Surviving, Survives, FullScan, Run, OpsFit;
    var e := EntryOf(ops, row)[0];
    EntriesOfMembers(ops, AllRows(ops), e);
    FullScanSorts(ops);
    StableSortMembers(EntriesOf(ops, AllRows(ops)), ConstraintOf);
    SurvivingIsSubsequence(functions, s, ops);
  }

  lemma EqualMeansWrittenOnce(s: Canonical, ops: seq<ModelOp>, slice: seq<Cell>, functions: seq<FunctionEntry>)
    requires OpsFit(s, ops) && Sound(s) && BlocksFit(ops) && Lists(slice, Run(s, ops))
    requires AreFunctionsOf(functions, Run(s, ops).constraints, slice)
    requires FullScan(ops) == Surviving(functions, s, ops)
    ensures WritesOnce(s, ops)
  {
    hide AllRows, SnapshotEntry, Lists, Sound, FullScan, Surviving, Clean, LeftAsPacked, Run, OpsFit, EntryOf, TermsOf,
      AreFunctionsOf;
    forall i | 0 <= i < |ops| && ops[i].AddConstraint? && !Removed(ops, ops[i].con)
      ensures Clean(ops, ops[i].con)
    {
      var row := AddedRow(ops[i].con, ops[i].bounds, TermsOf(ops, ops[i].con));
      AllRowsMembers(ops, row);
      assert AddsRow(ops[i], row.con);
      if row.con in s.constraints { StaysUnlessRemoved(s, ops, row.con); }
      EqualMeansRowAgrees(s, ops, slice, functions, row);
      ScalarEntryAgrees(s, ops, slice, row.con, row.bounds, i);
    }
    forall i, r {:trigger LeftAsPacked(ops, i, r)}
      | 0 <= i < |ops| && 0 <= r < RowCount(ops[i]) && !Removed(ops, PackedRow(ops[i], r).con)
      ensures LeftAsPacked(ops, i, r)
    {
      var row := PackedRow(ops[i], r);
      assert IsPackedAt(ops, row, i, r);
      AllRowsMembers(ops, row);
      assert AddsRow(ops[i], row.con);
      if row.con in s.constraints { StaysUnlessRemoved(s, ops, row.con); }
      EqualMeansRowAgrees(s, ops, slice, functions, row);
      PackedEntryAgrees(s, ops, slice, i, r);
    }
  }

  /**
   * Delta and snapshot agree, for every batch: its entries are the sequence of the later snapshot's entries, without
   * those of constraints it did not add and keep, if and only if it writes the cells of its added rows once.
   */
  lemma BatchAgreesWithSnapshot(s: Canonical, ops: seq<ModelOp>, slice: seq<Cell>, functions: seq<FunctionEntry>)
    requires OpsFit(s, ops) && Sound(s) && BlocksFit(ops) && Lists(slice, Run(s, ops))
    requires AreFunctionsOf(functions, Run(s, ops).constraints, slice)
    ensures FullScan(ops) == Surviving(functions, s, ops) <==> WritesOnce(s, ops)
  {
    hide Sound, Lists, WritesOnce, FullScan, Surviving, AreFunctionsOf, Run, OpsFit;
    if WritesOnce(s, ops) { AgreesWhenWrittenOnce(s, ops, slice, functions); }
    if FullScan(ops) == Surviving(functions, s, ops) { EqualMeansWrittenOnce(s, ops, slice, functions); }
  }

  lemma FullScanSorts(ops: seq<ModelOp>)
    requires BlocksFit(ops)
    ensures FullScan(ops) == StableSort(EntriesOf(ops, AllRows(ops)), ConstraintOf)
  {
  }

  /** The set of every entry of a batch is that of the bounds which the constraint has after the batch. */
  lemma BatchEntryDescribes(s: Canonical, ops: seq<ModelOp>, e: FunctionEntry, x: real)
    requires OpsFit(s, ops) && BlocksFit(ops) && e in FullScan(ops)
    ensures e.constraint in Run(s, ops).constraints
    ensures Describes(e.set_, Run(s, ops).constraints[e.constraint], x)
  {
    hide FullScan, AllRows, Describes, FinalBounds, Run, OpsFit;
    EntryDescribes(ops, e, x);
    var row :| row in AllRows(ops) && row.con == e.constraint && !Removed(ops, row.con)
      && Describes(e.set_, FinalBounds(ops, row.con, row.bounds), x);
    AllRowsMembers(ops, row);
    var i := RowIsDeclared(ops, row);
    if row.con in s.constraints { StaysUnlessRemoved(s, ops, row.con); }
    BoundsFollow(s, ops, row.con, row.bounds, i);
  }

  lemma RowIsDeclared(ops: seq<ModelOp>, row: AddedRow) returns (i: nat)
    requires BlocksFit(ops) && row in AllRows(ops)
    ensures i < |ops| && DeclaresAt(ops[i], row.con, row.bounds) && AddsRow(ops[i], row.con)
  {
    hide AllRows;
    AllRowsMembers(ops, row);
    if j, r :| IsPackedAt(ops, row, j, r) {
      i := j;
    } else {
      i :| 0 <= i < |ops| && ops[i] == AddConstraint(row.con, row.bounds);
    }
  }

  /** The set of every entry of a snapshot is that of the constraint's bounds. */
  lemma SnapshotEntryDescribes(
      functions: seq<FunctionEntry>, constraints: map<ConId, Bounds>, slice: seq<Cell>, e: FunctionEntry, x: real)
    requires AreFunctionsOf(functions, constraints, slice) && e in functions
    ensures e.constraint in constraints && Describes(e.set_, constraints[e.constraint], x)
  {
    hide Describes, SetOf, StableSort;
    SetDescribes(constraints[e.constraint], x);
  }
}
