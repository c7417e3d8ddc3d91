/**
 * What `rollback_overlay` (roml-highs/src/session.rs) computes on any held state, and when that is the base
 * model again: while the overlay is in force, and when its receipt is used a second time.
 */
module Rollbacks {
  import opened Common
  import opened BackendIr
  import opened Highs
  import opened IndexMaps
  import opened CompiledModels
  import opened NativeViews
  import opened Caching
  import opened Representing
  import opened Overlaying

  // ---------------------------------------------------------------- what the code computes

  const COLUMN_BOUNDS: (Column, Range) -> Column := (c: Column, b: Range) => c.(bounds := b)
  const ROW_BOUNDS: (Row, Range) -> Row := (r: Row, b: Range) => r.(bounds := b)

  ghost function VariablesPutBack(h: Held, prior: map<VariableId, Range>): Held {
    h.(native := h.native.(cols := AllWritten(h.native.cols, h.colMap, prior, COLUMN_BOUNDS)),
       caches := h.caches.(varBounds := h.caches.varBounds + prior))
  }

  ghost function RowsPutBack(h: Held, prior: map<RowId, Range>): Held {
    h.(native := h.native.(rows := AllWritten(h.native.rows, h.rowMap, prior, ROW_BOUNDS)),
       caches := h.caches.(rowBounds := h.caches.rowBounds + prior))
  }

  /** Everything a rollback looks up is there, and what it deletes exists. */
  ghost predicate CanRollBack(h: Held, rec: OverlayRecord) {
    && rec.priorBounds.Keys <= h.colMap.Keys && rec.priorRowBounds.Keys <= h.rowMap.Keys
    && InRange(NativeIndices(rec.addedRows), |h.native.rows|)
    && InRange(NativeIndices(rec.addedColumns), |h.native.cols|)
    && Representable(rec.priorPolicy)
  }

  ghost function BoundsPutBack(h: Held, rec: OverlayRecord): Held {
    RowsPutBack(VariablesPutBack(h, rec.priorBounds), rec.priorRowBounds)
  }

  /** The held state after the whole rollback: bounds, rows, policy, columns. */
  ghost function RolledBack(h: Held, rec: OverlayRecord): Held {
    ColumnsDeleted(PolicyShown(RowsDeleted(BoundsPutBack(h, rec), rec), rec.priorPolicy), rec)
  }

  /** Only a prior policy with an objective sets the sense. */
  lemma IdleSenseIsKept(h: Held, rec: OverlayRecord)
    requires !rec.priorPolicy.Single?
    ensures RolledBack(h, rec).native.sense == h.native.sense
  {
    hide AllWritten, CostsWritten;
  }

  // ---------------------------------------------------------------- while the overlay is in force

  function Only<Id, T>(m: map<Id, T>, keys: set<Id>): map<Id, T> {
    map x | x in m && x in keys :: m[x]
  }

  lemma OnlyAll<Id, T>(m: map<Id, T>)
    ensures Only(m, m.Keys) == m && Only(m, {}) == map[]
  {
  }

  lemma VariablesPutBackFirst(h: Held, prior: map<VariableId, Range>, v: VariableId)
    requires OneToOne(h.colMap) && v in h.colMap && 0 <= h.colMap[v] < |h.native.cols| && v in prior
    ensures
      var k := h.colMap[v];
      var first := h.(native := h.native.(cols := h.native.cols[k := h.native.cols[k].(bounds := prior[v])]),
                      caches := h.caches.(varBounds := h.caches.varBounds[v := prior[v]]));
      VariablesPutBack(h, prior) == VariablesPutBack(first, prior - {v})
  {
    AllWrittenFirst(h.native.cols, h.colMap, prior, COLUMN_BOUNDS, v);
    hide AllWritten;
    assert h.caches.varBounds + prior == h.caches.varBounds[v := prior[v]] + (prior - {v});
  }

  lemma RowsPutBackFirst(h: Held, prior: map<RowId, Range>, r: RowId)
    requires OneToOne(h.rowMap) && r in h.rowMap && 0 <= h.rowMap[r] < |h.native.rows| && r in prior
    ensures
      var k := h.rowMap[r];
      var first := h.(native := h.native.(rows := h.native.rows[k := h.native.rows[k].(bounds := prior[r])]),
                      caches := h.caches.(rowBounds := h.caches.rowBounds[r := prior[r]]));
      RowsPutBack(h, prior) == RowsPutBack(first, prior - {r})
  {
    AllWrittenFirst(h.native.rows, h.rowMap, prior, ROW_BOUNDS, r);
    hide AllWritten;
    assert h.caches.rowBounds + prior == h.caches.rowBounds[r := prior[r]] + (prior - {r});
  }

  lemma VariablesPutBackNothing(h: Held)
    ensures VariablesPutBack(h, map[]) == h && RowsPutBack(h, map[]) == h
  {
    AllWrittenNothing(h.native.cols, h.colMap, COLUMN_BOUNDS);
    AllWrittenNothing(h.native.rows, h.rowMap, ROW_BOUNDS);
    hide AllWritten;
    assert h.caches.varBounds + map[] == h.caches.varBounds && h.caches.rowBounds + map[] == h.caches.rowBounds;
  }

  /** With every recorded variable bound put back, only row bounds are left to restore. */
  lemma {:induction false} RollbackVariables(
      s: Overlaid, now: Model, om: Model, m: Model, olay: Layout, lay: Layout, rows: map<RowId, int>,
      vars: set<VariableId>, rws: set<RowId>, inf: real)
    returns (now': Model)
    requires RollingBack(s, now, om, m, olay, lay, rows, vars, rws, inf)
    ensures vars <= s.held.colMap.Keys
    ensures RollingBack(
      s.(held := VariablesPutBack(s.held, Only(s.record.priorBounds, vars))), now', om, m, olay, lay, rows, {}, rws,
      inf)
    decreases |vars|
  {
    hide RollingBack, VariablesPutBack, Numbers, OneToOne;
    if vars == {} {
      now' := now;
      OnlyAll(s.record.priorBounds);
      VariablesPutBackNothing(s.held);
    } else {
      var v :| v in vars;
      RollbackMeasures(s, now, om, m, olay, lay, rows, vars, rws, inf);
      RollbackVariable(s, now, om, m, olay, lay, rows, vars, rws, inf, v);
      ColumnNumbers(s, now, om, m, olay, lay, rows, vars, rws, inf);
      var k, range, h := s.held.colMap[v], s.record.priorBounds[v], s.held;
      var h' := h.(native := h.native.(cols := h.native.cols[k := h.native.cols[k].(bounds := range)]),
                   caches := h.caches.(varBounds := h.caches.varBounds[v := range]));
      var next := Laid(now, SetTemporaryVariableBounds(v, PriorVariable(m, s.record, v)));
      now' := RollbackVariables(s.(held := h'), next, om, m, olay, lay, rows, vars - {v}, rws, inf);
      VariablesPutBackFirst(h, Only(s.record.priorBounds, vars), v);
      assert Only(s.record.priorBounds, vars) - {v} == Only(s.record.priorBounds, vars - {v});
    }
  }

  lemma {:induction false} RollbackRows(
      s: Overlaid, now: Model, om: Model, m: Model, olay: Layout, lay: Layout, rows: map<RowId, int>,
      rws: set<RowId>, inf: real)
    returns (now': Model)
    requires RollingBack(s, now, om, m, olay, lay, rows, {}, rws, inf)
    ensures rws <= s.held.rowMap.Keys
    ensures RollingBack(
      s.(held := RowsPutBack(s.held, Only(s.record.priorRowBounds, rws))), now', om, m, olay, lay, rows, {}, {}, inf)
    decreases |rws|
  {
    hide RollingBack, RowsPutBack, Numbers, OneToOne;
    if rws == {} {
      now' := now;
      OnlyAll(s.record.priorRowBounds);
      VariablesPutBackNothing(s.held);
    } else {
      var r :| r in rws;
      RollbackMeasures(s, now, om, m, olay, lay, rows, {}, rws, inf);
      RollbackRow(s, now, om, m, olay, lay, rows, {}, rws, inf, r);
      RowNumbers(s, now, om, m, olay, lay, rows, {}, rws, inf);
      var k, range, h := s.held.rowMap[r], s.record.priorRowBounds[r], s.held;
      var h' := h.(native := h.native.(rows := h.native.rows[k := h.native.rows[k].(bounds := range)]),
                   caches := h.caches.(rowBounds := h.caches.rowBounds[r := range]));
      var next := Laid(now, SetTemporaryRowBounds(r, m.rows[r].bounds));
      now' := RollbackRows(s.(held := h'), next, om, m, olay, lay, rows, rws - {r}, inf);
      RowsPutBackFirst(h, Only(s.record.priorRowBounds, rws), r);
      assert Only(s.record.priorRowBounds, rws) - {r} == Only(s.record.priorRowBounds, rws - {r});
    }
  }

  lemma ColumnNumbers(
      s: Overlaid, now: Model, om: Model, m: Model, olay: Layout, lay: Layout, rows: map<RowId, int>,
      vars: set<VariableId>, rws: set<RowId>, inf: real)
    requires RollingBack(s, now, om, m, olay, lay, rows, vars, rws, inf)
    ensures OneToOne(s.held.colMap)
  {
    hide RollingBack;
    RollbackMeasures(s, now, om, m, olay, lay, rows, vars, rws, inf);
    NumbersIsBijection(s.held.colMap, olay.cols);
  }

  lemma RowNumbers(
      s: Overlaid, now: Model, om: Model, m: Model, olay: Layout, lay: Layout, rows: map<RowId, int>,
      vars: set<VariableId>, rws: set<RowId>, inf: real)
    requires RollingBack(s, now, om, m, olay, lay, rows, vars, rws, inf)
    ensures Numbers(s.held.rowMap, lay.rows) && OneToOne(s.held.rowMap)
  {
    hide OverlayShown, Restoring, Cached, WellFormed;
    NumbersIsBijection(s.held.rowMap, lay.rows);
  }

  /** In force, a rollback finds everything and ends on the base model. */
  lemma InForceRollsBack(
      s: Overlaid, om: Model, m: Model, olay: Layout, lay: Layout, rows: map<RowId, int>, inf: real)
    requires Compounds(s, om, m, olay, lay, rows, inf) && s.record.priorPolicy == m.policy
    ensures CanRollBack(s.held, s.record)
    ensures Represents(RolledBack(s.held, s.record), m, lay, inf)
  {
    hide RollingBack, Compounds, AllWritten, RowsRestored, PolicyRestored, Represents, WellFormed;
    hide RowsDeleted, ColumnsDeleted, PolicyShown, InRange;
    var rec := s.record;
    RollbackStarts(s, om, m, olay, lay, rows, inf);
    var now := RollbackVariables(s, om, om, m, olay, lay, rows, rec.priorBounds.Keys, rec.priorRowBounds.Keys, inf);
    OnlyAll(rec.priorBounds);
    var s1 := s.(held := VariablesPutBack(s.held, rec.priorBounds));
    now := RollbackRows(s1, now, om, m, olay, lay, rows, rec.priorRowBounds.Keys, inf);
    OnlyAll(rec.priorRowBounds);
    var s2 := s.(held := BoundsPutBack(s.held, rec));
    RollbackDeletesRows(s2, now, om, m, olay, lay, rows, inf);
    CompoundsIsWellFormed(s, om, m, olay, lay, rows, inf);
    PolicyCanBeShown(m);
    RollbackProjectsPolicy(RowsDeleted(s2.held, rec), now, m, olay, lay, rec, inf);
    RollbackCompletes(PolicyShown(RowsDeleted(s2.held, rec), m.policy), now, m, olay, lay, rec, inf);
    KeepsDimensions(s.held, rec);
  }

  lemma CompoundsIsWellFormed(
      s: Overlaid, om: Model, m: Model, olay: Layout, lay: Layout, rows: map<RowId, int>, inf: real)
    requires Compounds(s, om, m, olay, lay, rows, inf)
    ensures WellFormed(m)
  {
  }

  lemma PolicyCanBeShown(m: Model)
    requires WellFormed(m)
    ensures Representable(m.policy)
  {
  }

  lemma KeepsDimensions(h: Held, rec: OverlayRecord)
    ensures
      var bounds := BoundsPutBack(h, rec);
      && bounds.rowMap == h.rowMap && bounds.colMap == h.colMap
      && |bounds.native.rows| == |h.native.rows| && |bounds.native.cols| == |h.native.cols|
      && |PolicyShown(RowsDeleted(bounds, rec), rec.priorPolicy).native.cols| == |h.native.cols|
      && PolicyShown(RowsDeleted(bounds, rec), rec.priorPolicy).colMap == h.colMap
  {
    hide AllWritten, CostsWritten;
  }

  // ---------------------------------------------------------------- when the receipt is used again

  /** What the record of an overlay on base model `m` says, whatever has happened to the session since. */
  ghost predicate Records(rec: OverlayRecord, m: Model, inf: real) {
    && rec.priorPolicy == m.policy
    && (forall v :: v in rec.priorBounds && v in m.variables ==>
          rec.priorBounds[v] == NormalizeBounds(m.variables[v].bounds, inf))
    && (forall r :: r in rec.priorRowBounds ==>
          r in m.rows && rec.priorRowBounds[r] == NormalizeBounds(m.rows[r].bounds, inf))
    && (forall i :: 0 <= i < |rec.addedColumns| ==> |m.variables| <= rec.addedColumns[i].1)
    && (forall i :: 0 <= i < |rec.addedRows| ==> |m.rows| <= rec.addedRows[i].1)
  }

  lemma CompoundsRecords(
      s: Overlaid, om: Model, m: Model, olay: Layout, lay: Layout, rows: map<RowId, int>, inf: real)
    requires Compounds(s, om, m, olay, lay, rows, inf) && s.record.priorPolicy == m.policy
    ensures Records(s.record, m, inf)
  {
    hide OverlayShown, Solved, Cached, WellFormed;
    DistinctColumns(s, om, olay, rows, inf);
    assert forall i, j :: 0 <= i < j < |lay.cols| ==> lay.cols[i] == olay.cols[i] && lay.cols[j] == olay.cols[j];
    LayoutCounts(lay.cols, m.variables.Keys);
    LayoutCounts(lay.rows, m.rows.Keys);
  }

  lemma DistinctColumns(s: Overlaid, om: Model, olay: Layout, rows: map<RowId, int>, inf: real)
    requires OverlayShown(s, om, olay, rows, inf)
    ensures Distinct(olay.cols)
  {
  }

  lemma RepresentedSizes(h: Held, n: Model, lay: Layout, inf: real)
    requires Represents(h, n, lay, inf)
    ensures |h.native.cols| == |n.variables| && |h.native.rows| == |n.rows|
  {
    hide WellFormed, CachesOf, Closed, Numbers;
    LayoutCounts(lay.cols, n.variables.Keys);
    LayoutCounts(lay.rows, n.rows.Keys);
  }

  /** An overlay that added no entity has recorded none, and bounds of base variables only. */
  lemma NothingAdded(
      s: Overlaid, om: Model, m: Model, olay: Layout, lay: Layout, rows: map<RowId, int>, inf: real)
    requires Compounds(s, om, m, olay, lay, rows, inf)
    requires om.variables.Keys == m.variables.Keys && om.rows.Keys == m.rows.Keys
    ensures s.record.addedRows == [] && s.record.addedColumns == []
    ensures s.record.priorBounds.Keys <= m.variables.Keys
  {
    hide Solved, Cached, WellFormed;
    LayoutCounts(olay.cols, om.variables.Keys);
    LayoutCounts(olay.rows, om.rows.Keys);
    assert |om.variables| == |om.variables.Keys| == |m.variables.Keys| == |m.variables|;
    assert |om.rows| == |om.rows.Keys| == |m.rows.Keys| == |m.rows|;
    LayoutCountsOf(s, m, olay, lay);
  }

  lemma LayoutCountsOf(s: Overlaid, m: Model, olay: Layout, lay: Layout)
    requires Placed(s, m, olay, lay) && Distinct(olay.cols) && Distinct(olay.rows)
    ensures |lay.cols| == |m.variables| && |lay.rows| == |m.rows|
    ensures |olay.cols| == |lay.cols| + |s.record.addedColumns| && |olay.rows| == |lay.rows| + |s.record.addedRows|
  {
    assert forall i, j :: 0 <= i < j < |lay.cols| ==> lay.cols[i] == olay.cols[i] && lay.cols[j] == olay.cols[j];
    LayoutCounts(lay.cols, m.variables.Keys);
    LayoutCounts(lay.rows, m.rows.Keys);
  }

  /** On a state of the dimensions of the base there is nothing that the record would delete. */
  lemma NothingToDelete(h: Held, n: Model, m: Model, lay: Layout, inf: real, rec: OverlayRecord)
    requires Represents(h, n, lay, inf) && Records(rec, m, inf) && CanRollBack(h, rec)
    requires n.variables.Keys == m.variables.Keys && n.rows.Keys == m.rows.Keys
    ensures rec.addedRows == [] && rec.addedColumns == []
    ensures rec.priorBounds.Keys <= m.variables.Keys
  {
    hide Represents;
    RepresentsMeasures(h, n, lay, inf);
    RepresentedSizes(h, n, lay, inf);
    assert |n.variables| == |n.variables.Keys| == |m.variables.Keys| == |m.variables|;
    assert |n.rows| == |n.rows.Keys| == |m.rows.Keys| == |m.rows|;
    DeletesBeyond(rec.addedRows, |m.rows|);
    DeletesBeyond(rec.addedColumns, |m.variables|);
  }

  lemma DeletesBeyond<Id>(added: seq<(Id, int)>, n: nat)
    ensures added != [] && n <= added[0].1 ==> !InRange(NativeIndices(added), n)
  {
    var indices := NativeIndices(added);
    assert added != [] ==> indices[0] == added[0].1;
  }

  lemma ColumnIsBack(h: Held, n: Model, lay: Layout, inf: real, v: VariableId)
    requires Represents(h, n, lay, inf) && v in n.variables
    ensures v in h.colMap && 0 <= h.colMap[v] < |h.native.cols|
    ensures h.native.cols[h.colMap[v]].bounds == NormalizeBounds(n.variables[v].bounds, inf)
    ensures v in h.caches.varBounds && h.caches.varBounds[v] == NormalizeBounds(n.variables[v].bounds, inf)
  {
    hide WellFormed;
    ShowsIsDimensioned(h, ViewOf(n), lay, inf);
    ShowsVariable(h, ViewOf(n), lay, inf, v);
  }

  lemma RowIsBack(h: Held, n: Model, lay: Layout, inf: real, r: RowId)
    requires Represents(h, n, lay, inf) && r in n.rows
    ensures r in h.rowMap && 0 <= h.rowMap[r] < |h.native.rows|
    ensures h.native.rows[h.rowMap[r]].bounds == NormalizeBounds(n.rows[r].bounds, inf)
    ensures r in h.caches.rowBounds && h.caches.rowBounds[r] == NormalizeBounds(n.rows[r].bounds, inf)
  {
    hide WellFormed;
    ShowsIsDimensioned(h, ViewOf(n), lay, inf);
    ShowsRow(h, ViewOf(n), lay, inf, r);
  }

  /** Where every recorded bound is in force already, putting bounds back changes nothing. */
  lemma BoundsAreBack(h: Held, n: Model, lay: Layout, inf: real, rec: OverlayRecord)
    requires Represents(h, n, lay, inf)
    requires forall v :: v in rec.priorBounds ==>
      v in n.variables && rec.priorBounds[v] == NormalizeBounds(n.variables[v].bounds, inf)
    requires forall r :: r in rec.priorRowBounds ==>
      r in n.rows && rec.priorRowBounds[r] == NormalizeBounds(n.rows[r].bounds, inf)
    ensures BoundsPutBack(h, rec) == h
  {
    hide Represents, AllWritten;
    forall v | v in rec.priorBounds
      ensures v in h.colMap && 0 <= h.colMap[v] < |h.native.cols|
      ensures h.native.cols[h.colMap[v]].bounds == rec.priorBounds[v]
      ensures v in h.caches.varBounds && h.caches.varBounds[v] == rec.priorBounds[v]
    {
      ColumnIsBack(h, n, lay, inf, v);
    }
    forall r | r in rec.priorRowBounds
      ensures r in h.rowMap && 0 <= h.rowMap[r] < |h.native.rows|
      ensures h.native.rows[h.rowMap[r]].bounds == rec.priorRowBounds[r]
      ensures r in h.caches.rowBounds && h.caches.rowBounds[r] == rec.priorRowBounds[r]
    {
      RowIsBack(h, n, lay, inf, r);
    }
    assert h.caches.varBounds + rec.priorBounds == h.caches.varBounds;
    assert h.caches.rowBounds + rec.priorRowBounds == h.caches.rowBounds;
    AllWrittenSame(h.native.cols, h.colMap, rec.priorBounds, COLUMN_BOUNDS);
    AllWrittenSame(h.native.rows, h.rowMap, rec.priorRowBounds, ROW_BOUNDS);
  }

  /** A second rollback on the base itself keeps it. */
  lemma BaseRollsBack(h: Held, m: Model, lay: Layout, inf: real, rec: OverlayRecord)
    requires Represents(h, m, lay, inf) && Records(rec, m, inf) && CanRollBack(h, rec)
    ensures Represents(RolledBack(h, rec), m, lay, inf)
  {
    hide Represents, BoundsPutBack, PolicyShown;
    NothingToDelete(h, m, m, lay, inf, rec);
    BoundsAreBack(h, m, lay, inf, rec);
    PolicyAgain(h, m, lay, inf);
  }

  lemma PolicyAgain(h: Held, m: Model, lay: Layout, inf: real)
    requires Represents(h, m, lay, inf)
    ensures Represents(PolicyShown(h, m.policy), m, lay, inf)
  {
    PolicySimulates(h, m, lay, inf, m.policy, h, PolicyShown(h, m.policy));
    assert m.(policy := m.policy) == m;
  }

  /**
   * The receipt of a finished overlay, used again after a delta that wrote one coefficient: the rollback
   * succeeds and leaves the delta's matrix, so what is held is not the base model.
   */
  lemma ReplayKeepsTheMatrix(
      h: Held, n: Model, m: Model, lay: Layout, inf: real, rec: OverlayRecord, r: RowId, v: VariableId, x: real)
    requires Represents(h, n, lay, inf) && Records(rec, m, inf) && CanRollBack(h, rec)
    requires r in m.rows && v in m.variables && x != Cell(m.rows[r].coefficients, v)
    requires n == WithCoefficients(m, r, m.rows[r].coefficients[v := x])
    ensures
      var after := RolledBack(h, rec);
      && (forall lay' :: !Represents(after, m, lay', inf))
      && |after.native.rows| == |h.native.rows| && |after.native.cols| == |h.native.cols|
      && after.caches == CachesOf(m, inf)
  {
    hide Represents, BoundsPutBack, PolicyShown, CachesOf, WellFormed;
    NothingToDelete(h, n, m, lay, inf, rec);
    BoundsAreBack(h, n, lay, inf, rec);
    PolicyAgain(h, n, lay, inf);
    CachesCoefficients(m, r, m.rows[r].coefficients[v := x], inf);
    var after := PolicyShown(h, n.policy);
    assert RolledBack(h, rec) == after;
    RepresentsMeasures(h, n, lay, inf);
    RepresentsMeasures(after, n, lay, inf);
    forall lay' | Represents(after, m, lay', inf)
      ensures false
    {
      CellIsHeld(after, n, lay, inf, r, v);
      CellIsHeld(after, m, lay', inf, r, v);
    }
  }

  lemma CellIsHeld(h: Held, m: Model, lay: Layout, inf: real, r: RowId, v: VariableId)
    requires Represents(h, m, lay, inf) && r in m.rows && v in m.variables
    ensures Dimensioned(h) && r in h.rowMap && v in h.colMap
    ensures h.native.rows[h.rowMap[r]].coefficients[h.colMap[v]] == Cell(m.rows[r].coefficients, v)
  {
    hide WellFormed, CachesOf;
    ShowsIsDimensioned(h, ViewOf(m), lay, inf);
    ShowsRow(h, ViewOf(m), lay, inf, r);
  }

  /** A matching receipt of an overlay on `base`, used while the session holds the model `n` that `c` names. */
  ghost predicate ReplayRestores(
      base: CompilationId, c: CompilationId, m: Model, n: Model, h: Held, lay: Layout, inf: real, rec: OverlayRecord)
  {
    (c == base ==> n == m) && Represents(h, n, lay, inf) && Records(rec, m, inf) && CanRollBack(h, rec)
    ==> exists lay' :: Represents(RolledBack(h, rec), m, lay', inf)
  }

  /**
   * When an overlay is no longer in force, a successful rollback with its receipt is sure to leave the base
   * model exactly when the current compilation is the base.
   */
  lemma ReplayIsSafeExactlyAtTheBase(base: CompilationId, c: CompilationId, inf: real)
    ensures (forall m, n, h, lay, rec :: ReplayRestores(base, c, m, n, h, lay, inf, rec)) <==> c == base
  {
    if c == base {
      forall m, n, h, lay, rec
        ensures ReplayRestores(base, c, m, n, h, lay, inf, rec)
      {
        ReplayAtTheBase(base, m, n, h, lay, inf, rec);
      }
    } else {
      ReplayElsewhere(base, c, inf);
    }
  }

  lemma ReplayAtTheBase(
      base: CompilationId, m: Model, n: Model, h: Held, lay: Layout, inf: real, rec: OverlayRecord)
    ensures ReplayRestores(base, base, m, n, h, lay, inf, rec)
  {
    hide Represents, Records, CanRollBack, RolledBack;
    if n == m && Represents(h, n, lay, inf) && Records(rec, m, inf) && CanRollBack(h, rec) {
      BaseRollsBack(h, m, lay, inf, rec);
    }
  }

  /** Elsewhere: the empty overlay on the empty base, and a session that has gone on to a model with a variable. */
  lemma ReplayElsewhere(base: CompilationId, c: CompilationId, inf: real)
    requires c != base
    ensures exists m, n, h, lay, rec :: !ReplayRestores(base, c, m, n, h, lay, inf, rec)
  {
    hide Represents, PolicyShown, BoundsPutBack;
    var n, lay, h := OneVariable(VariableId(0), inf);
    RepresentsMeasures(h, n, lay, inf);
    var rec := OverlayRecord(0, base, 0, map[], map[], [], [], NoObjective, 0, 0, map[], map[], None);
    var after := RolledBack(h, rec);
    KeepsDimensions(h, rec);
    forall lay'
      ensures !Represents(after, NO_MODEL, lay', inf)
    {
      if Represents(after, NO_MODEL, lay', inf) {
        RepresentsMeasures(after, NO_MODEL, lay', inf);
      }
    }
    assert !ReplayRestores(base, c, NO_MODEL, n, h, lay, inf, rec);
  }
}
