/**
 * What a held native model means to whoever solves it: its columns, rows, costs and integrality are those that the
 * snapshot or the overlaid model states, infinities included.
 */
module Meanings {
  import opened Common
  import opened BackendIr
  import opened Highs
  import opened IndexMaps
  import opened CompiledModels
  import opened NativeViews
  import opened Caching
  import opened Representing
  import opened SnapshotModels
  import opened Overlaying

  // ---------------------------------------------------------------- bounds

  predicate Admits(r: Range, x: real) {
    r.lo <= x <= r.hi
  }

  /** Below the finite stand-in for infinity a native range admits exactly what the bounds admit. */
  lemma RangeMeans(b: Bounds, inf: real, x: real)
    requires -inf < x < inf
    ensures Admits(NormalizeBounds(b, inf), x) <==> Within(b, x)
  {
  }

  ghost predicate BoundsMean(h: Held, v: View, inf: real, x: real)
    requires Dimensioned(h)
  {
    && h.colMap.Keys == v.variables.Keys && h.rowMap.Keys == v.rows.Keys
    && (forall id :: id in v.variables ==>
          (Admits(h.native.cols[h.colMap[id]].bounds, x) <==> Within(v.variables[id].bounds, x)))
    && (forall id :: id in v.rows ==>
          (Admits(h.native.rows[h.rowMap[id]].bounds, x) <==> Within(v.rows[id].bounds, x)))
  }

  lemma ShownBoundsMean(h: Held, v: View, lay: Layout, inf: real, x: real)
    requires Shows(h, v, lay, inf) && -inf < x < inf
    ensures Dimensioned(h) && BoundsMean(h, v, inf, x)
  {
    hide Shows, NormalizeBounds, Admits, Within;
    ShowsIsDimensioned(h, v, lay, inf);
    forall id | id in v.variables
      ensures Admits(h.native.cols[h.colMap[id]].bounds, x) <==> Within(v.variables[id].bounds, x)
    {
      ShowsVariable(h, v, lay, inf, id);
      RangeMeans(v.variables[id].bounds, inf, x);
    }
    forall id | id in v.rows
      ensures Admits(h.native.rows[h.rowMap[id]].bounds, x) <==> Within(v.rows[id].bounds, x)
    {
      ShowsRow(h, v, lay, inf, id);
      RangeMeans(v.rows[id].bounds, inf, x);
    }
  }

  /**
   * Whatever represents a model, after a rebuild or any deltas: at the column of each variable and the row of each
   * row, the native range admits exactly the values between the model's bounds.
   */
  lemma RepresentedBoundsMean(h: Held, m: Model, lay: Layout, inf: real, x: real)
    requires Represents(h, m, lay, inf) && -inf < x < inf
    ensures Dimensioned(h) && BoundsMean(h, ViewOf(m), inf, x)
  {
    hide WellFormed, Shows;
    ShownBoundsMean(h, ViewOf(m), lay, inf, x);
  }

  /** The same while an overlay is applied, temporary entities included. */
  lemma OverlaidBoundsMean(
      s: Overlaid, om: Model, m: Model, olay: Layout, lay: Layout, rows: map<RowId, int>, inf: real, x: real)
    requires Compounds(s, om, m, olay, lay, rows, inf) && -inf < x < inf
    ensures Dimensioned(s.held.(rowMap := rows)) && BoundsMean(s.held.(rowMap := rows), OverlayView(om), inf, x)
  {
    hide WellFormed, Shows, Placed, Alters, Solved, Cached;
    ShownBoundsMean(s.held.(rowMap := rows), OverlayView(om), olay, inf, x);
  }

  /** Bounds that no value below the stand-in for infinity tells apart. */
  ghost predicate SameBounds(a: Bounds, b: Bounds, inf: real) {
    forall x :: -inf < x < inf ==> (Within(a, x) <==> Within(b, x))
  }

  lemma SameRangeSameBounds(a: Bounds, b: Bounds, inf: real)
    requires NormalizeBounds(a, inf) == NormalizeBounds(b, inf)
    ensures SameBounds(a, b, inf)
  {
    hide NormalizeBounds, Within;
    forall x | -inf < x < inf
      ensures Within(a, x) <==> Within(b, x)
    {
      RangeMeans(a, inf, x);
      RangeMeans(b, inf, x);
    }
  }

  /** Models with the same entities, the same bounds and one active objective. */
  ghost predicate SameFrame(n: Model, m: Model, inf: real) {
    && n.variables.Keys == m.variables.Keys && n.rows.Keys == m.rows.Keys
    && |n.variables| == |m.variables| && |n.rows| == |m.rows|
    && (forall v :: v in m.variables ==> SameBounds(n.variables[v].bounds, m.variables[v].bounds, inf))
    && (forall r :: r in m.rows ==> SameBounds(n.rows[r].bounds, m.rows[r].bounds, inf))
    && ActiveUser(n) == ActiveUser(m) && n.policy == m.policy
  }

  /** Equal bound caches, active objective and policy: the frames are equal. */
  lemma CachesGiveFrame(n: Model, m: Model, inf: real)
    requires VarBoundsOf(n.variables, inf) == VarBoundsOf(m.variables, inf)
    requires RowBoundsOf(n.rows, inf) == RowBoundsOf(m.rows, inf)
    requires ActiveUser(n) == ActiveUser(m) && n.policy == m.policy
    ensures SameFrame(n, m, inf)
  {
    hide NormalizeBounds, SameBounds;
    assert n.variables.Keys == VarBoundsOf(n.variables, inf).Keys == VarBoundsOf(m.variables, inf).Keys;
    assert n.rows.Keys == RowBoundsOf(n.rows, inf).Keys == RowBoundsOf(m.rows, inf).Keys;
    assert n.variables.Keys == m.variables.Keys && n.rows.Keys == m.rows.Keys;
    assert |n.variables| == |n.variables.Keys| == |m.variables.Keys| == |m.variables|;
    assert |n.rows| == |n.rows.Keys| == |m.rows.Keys| == |m.rows|;
    forall v | v in m.variables
      ensures SameBounds(n.variables[v].bounds, m.variables[v].bounds, inf)
    {
      assert VarBoundsOf(n.variables, inf)[v] == VarBoundsOf(m.variables, inf)[v];
      SameRangeSameBounds(n.variables[v].bounds, m.variables[v].bounds, inf);
    }
    forall r | r in m.rows
      ensures SameBounds(n.rows[r].bounds, m.rows[r].bounds, inf)
    {
      assert RowBoundsOf(n.rows, inf)[r] == RowBoundsOf(m.rows, inf)[r];
      SameRangeSameBounds(n.rows[r].bounds, m.rows[r].bounds, inf);
    }
  }

  // ---------------------------------------------------------------- points

  type Point = VariableId -> real

  function Dot(a: seq<real>, b: seq<real>): real
    requires |a| == |b|
  {
    if |a| == 0 then 0.0
    else
      var k := |a| - 1;
      Dot(a[..k], b[..k]) + a[k] * b[k]
  }

  /** The point as a solver sees it, column by column. */
  function ColumnValues(x: Point, cols: seq<VariableId>): (r: seq<real>)
    ensures |r| == |cols| && forall i :: 0 <= i < |cols| ==> r[i] == x(cols[i])
  {
    seq(|cols|, i requires 0 <= i < |cols| => x(cols[i]))
  }

  lemma {:induction false} DotOfZeros(a: seq<real>, b: seq<real>)
    requires |a| == |b| && forall i :: 0 <= i < |a| ==> a[i] == 0.0
    ensures Dot(a, b) == 0.0
  {
    if |a| != 0 { DotOfZeros(a[..|a| - 1], b[..|a| - 1]); }
  }

  lemma {:induction false} DotOfUpdate(a: seq<real>, b: seq<real>, i: nat, y: real)
    requires |a| == |b| && i < |a|
    ensures Dot(a[i := y], b) == Dot(a, b) + (y - a[i]) * b[i]
  {
    var k := |a| - 1;
    if i < k {
      DotOfUpdate(a[..k], b[..k], i, y);
      assert a[i := y][..k] == a[..k][i := y];
    } else {
      assert a[i := y][..k] == a[..k];
    }
  }

  /** A coefficient list names each variable at most once. */
  ghost predicate NamesOnce(entries: seq<(VariableId, real)>) {
    forall i, j :: 0 <= i < j < |entries| ==> entries[i].0 != entries[j].0
  }

  lemma {:induction false} ToMapNames(entries: seq<(VariableId, real)>, v: VariableId)
    ensures v in ToMap(entries) <==> exists i :: 0 <= i < |entries| && entries[i].0 == v
  {
    if |entries| != 0 { ToMapNames(entries[..|entries| - 1], v); }
  }

  /** The value of a linear form with these coefficients; `cols` lists every variable that has one. */
  function Sum(c: map<VariableId, real>, cols: seq<VariableId>, x: Point): real {
    Dot(CellsOf(c, cols), ColumnValues(x, cols))
  }

  /** The value of the cells that a list of costs replaces. */
  function Replaced(costs: seq<(VariableId, real)>, was: map<VariableId, real>, x: Point): real {
    if |costs| == 0 then 0.0
    else
      var v := costs[|costs| - 1].0;
      Replaced(costs[..|costs| - 1], was, x) + Cell(was, v) * x(v)
  }

  lemma CellsUpserted(c: map<VariableId, real>, cols: seq<VariableId>, i: nat, y: real)
    requires Distinct(cols) && i < |cols|
    ensures CellsOf(c[cols[i] := y], cols) == CellsOf(c, cols)[i := y]
  {
  }

  lemma SumUpserted(c: map<VariableId, real>, cols: seq<VariableId>, x: Point, v: VariableId, y: real)
    requires Distinct(cols) && v in cols
    ensures Sum(c[v := y], cols, x) == Sum(c, cols, x) + (y - Cell(c, v)) * x(v)
  {
    hide Cell, Dot, Distinct;
    var i :| 0 <= i < |cols| && cols[i] == v;
    CellsUpserted(c, cols, i, y);
    DotOfUpdate(CellsOf(c, cols), ColumnValues(x, cols), i, y);
  }

  lemma {:induction false} SumOverridden(
      c: map<VariableId, real>, costs: seq<(VariableId, real)>, cols: seq<VariableId>, x: Point)
    requires Distinct(cols) && NamesOnce(costs) && forall i :: 0 <= i < |costs| ==> costs[i].0 in cols
    ensures Sum(c + ToMap(costs), cols, x) == Sum(c, cols, x) + Activity(costs, x) - Replaced(costs, c, x)
  {
    hide CellsOf, Dot;
    if |costs| == 0 {
      assert c + map[] == c;
    } else {
      var k := |costs| - 1;
      var v := costs[k].0;
      SumOverridden(c, costs[..k], cols, x);
      OverrideNext(c, costs);
      ToMapNames(costs[..k], v);
      SumUpserted(c + ToMap(costs[..k]), cols, x, v, costs[k].1);
      assert Cell(c + ToMap(costs[..k]), v) == Cell(c, v);
    }
  }

  lemma SumOfList(entries: seq<(VariableId, real)>, cols: seq<VariableId>, x: Point)
    requires Distinct(cols) && NamesOnce(entries) && forall i :: 0 <= i < |entries| ==> entries[i].0 in cols
    ensures Sum(ToMap(entries), cols, x) == Activity(entries, x)
  {
    hide Activity, Replaced, ToMap;
    SumOverridden(map[], entries, cols, x);
    assert map[] + ToMap(entries) == ToMap(entries);
    DotOfZeros(CellsOf(map[], cols), ColumnValues(x, cols));
    NothingReplaced(entries, x);
  }

  lemma {:induction false} NothingReplaced(entries: seq<(VariableId, real)>, x: Point)
    ensures Replaced(entries, map[], x) == 0.0
  {
    if |entries| != 0 { NothingReplaced(entries[..|entries| - 1], x); }
  }

  /** The dense coefficients of a list give its value at every point. */
  lemma CellsGiveActivity(
      entries: seq<(VariableId, real)>, cols: seq<VariableId>, colMap: map<VariableId, int>, x: Point)
    requires Numbers(colMap, cols) && Refers(entries, colMap.Keys) && NamesOnce(entries)
    ensures Dot(CellsOf(ToMap(entries), cols), ColumnValues(x, cols)) == Activity(entries, x)
  {
    hide CellsOf, ToMap, Dot, Activity, NamesOnce;
    NumbersIsBijection(colMap, cols);
    SumOfList(entries, cols, x);
  }

  predicate IsWhole(x: real) {
    x == x.Floor as real
  }

  /** Every row has one coefficient per column. */
  ghost predicate Rectangular(n: NativeModel) {
    |n.costs| == |n.cols| && forall j :: 0 <= j < |n.rows| ==> |n.rows[j].coefficients| == |n.cols|
  }

  /** The native model accepts the column values. */
  ghost predicate NativeAllows(n: NativeModel, values: seq<real>)
    requires Rectangular(n) && |values| == |n.cols|
  {
    && (forall i :: 0 <= i < |n.cols| ==>
          Admits(n.cols[i].bounds, values[i]) && (n.cols[i].integer ==> IsWhole(values[i])))
    && (forall j :: 0 <= j < |n.rows| ==> Admits(n.rows[j].bounds, Dot(n.rows[j].coefficients, values)))
  }

  /** The snapshot's variables and rows, as stated, accept the point. */
  ghost predicate SnapshotAllows(s: BackendSnapshot, x: Point) {
    && (forall i :: 0 <= i < |s.variables| ==> VariableAllows(s.variables[i], x))
    && (forall j :: 0 <= j < |s.rows| ==> Within(s.rows[j].bounds, Activity(s.rows[j].coefficients, x)))
  }

  predicate VariableAllows(v: CompiledVariable, x: Point) {
    Within(v.bounds, x(v.id)) && (v.varType.Integer? || v.varType.Binary? ==> IsWhole(x(v.id)))
  }

  /** Values and row activities stay below the finite stand-in for infinity. */
  ghost predicate Moderate(s: BackendSnapshot, x: Point, inf: real) {
    && (forall i :: 0 <= i < |s.variables| ==> -inf < x(s.variables[i].id) < inf)
    && (forall j :: 0 <= j < |s.rows| ==> -inf < Activity(s.rows[j].coefficients, x) < inf)
  }

  /** Rows and objectives name each variable at most once, which the native solver insists on for rows. */
  ghost predicate ListsOnce(s: BackendSnapshot) {
    && (forall j :: 0 <= j < |s.rows| ==> NamesOnce(s.rows[j].coefficients))
    && (forall o :: 0 <= o < |s.objectives| ==> NamesOnce(s.objectives[o].coefficients))
  }

  // ---------------------------------------------------------------- a snapshot entity by entity

  lemma {:induction false} VariableIsStored(vs: seq<CompiledVariable>, origins: Origins, i: nat)
    requires i < |vs| && forall a, b :: 0 <= a < b < |vs| ==> vs[a].id != vs[b].id
    ensures vs[i].id in VariablesOf(vs, origins) && VariablesOf(vs, origins)[vs[i].id] == NewVariable(vs[i], origins)
  {
    if i < |vs| - 1 { VariableIsStored(vs[..|vs| - 1], origins, i); }
  }

  lemma {:induction false} RowIsStored(rs: seq<CompiledRow>, origins: Origins, i: nat)
    requires i < |rs| && forall a, b :: 0 <= a < b < |rs| ==> rs[a].id != rs[b].id
    ensures rs[i].id in RowsOf(rs, origins) && RowsOf(rs, origins)[rs[i].id] == NewRow(rs[i], origins)
  {
    if i < |rs| - 1 { RowIsStored(rs[..|rs| - 1], origins, i); }
  }

  lemma {:induction false} ObjectiveIsStored(os: seq<CompiledObjective>, origins: Origins, i: nat)
    requires i < |os| && forall a, b :: 0 <= a < b < |os| ==> os[a].id != os[b].id
    ensures os[i].id in ObjectivesOf(os, origins)
    ensures ObjectivesOf(os, origins)[os[i].id] == NewObjective(os[i], origins)
  {
    if i < |os| - 1 { ObjectiveIsStored(os[..|os| - 1], origins, i); }
  }

  /** The column of a listed variable accepts its value exactly when the snapshot does. */
  lemma ColumnAllows(s: BackendSnapshot, h: Held, lay: Layout, inf: real, x: Point, i: nat)
    requires SnapshotSound(s) && Holds(h, ModelOf(s), lay, inf) && i < |s.variables|
    requires -inf < x(s.variables[i].id) < inf
    ensures
      var v := s.variables[i];
      && v.id in h.colMap && 0 <= h.colMap[v.id] < |h.native.cols| == |lay.cols| && lay.cols[h.colMap[v.id]] == v.id
      && var c := h.native.cols[h.colMap[v.id]];
         (Admits(c.bounds, x(v.id)) && (c.integer ==> IsWhole(x(v.id))) <==> VariableAllows(v, x))
  {
    hide NormalizeBounds, Within, Admits, IsWhole, CachesOf;
    var v := s.variables[i];
    VariableIsStored(s.variables, s.origins, i);
    NumbersIsBijection(h.colMap, lay.cols);
    RangeMeans(v.bounds, inf, x(v.id));
  }

  lemma RowAllows(s: BackendSnapshot, h: Held, lay: Layout, inf: real, x: Point, j: nat)
    requires SnapshotSound(s) && Holds(h, ModelOf(s), lay, inf) && ListsOnce(s) && j < |s.rows|
    requires -inf < Activity(s.rows[j].coefficients, x) < inf
    ensures
      var r := s.rows[j];
      && r.id in h.rowMap && 0 <= h.rowMap[r.id] < |h.native.rows| == |lay.rows| && lay.rows[h.rowMap[r.id]] == r.id
      && var n := h.native.rows[h.rowMap[r.id]];
         && |n.coefficients| == |lay.cols|
         && Dot(n.coefficients, ColumnValues(x, lay.cols)) == Activity(r.coefficients, x)
         && (Admits(n.bounds, Activity(r.coefficients, x)) <==> Within(r.bounds, Activity(r.coefficients, x)))
  {
    hide NormalizeBounds, Within, Admits, CachesOf, Dot, Activity, CellsOf, ColumnValues;
    var r := s.rows[j];
    RowIsStored(s.rows, s.origins, j);
    VariablesOfKeys(s.variables, s.origins);
    NumbersIsBijection(h.rowMap, lay.rows);
    CellsGiveActivity(r.coefficients, lay.cols, h.colMap, x);
    RangeMeans(r.bounds, inf, Activity(r.coefficients, x));
  }

  lemma HeldIsRectangular(s: BackendSnapshot, h: Held, lay: Layout, inf: real)
    requires Holds(h, ModelOf(s), lay, inf)
    ensures Rectangular(h.native) && |h.native.cols| == |lay.cols| && |h.native.rows| == |lay.rows|
  {
    hide CachesOf, ModelOf;
  }

  ghost predicate ListsVariable(vs: seq<CompiledVariable>, id: VariableId) {
    exists i :: 0 <= i < |vs| && vs[i].id == id
  }

  ghost predicate ListsRow(rs: seq<CompiledRow>, id: RowId) {
    exists j :: 0 <= j < |rs| && rs[j].id == id
  }

  /** Every native column and row is that of a listed variable or row. */
  lemma PlacesAreListed(s: BackendSnapshot, h: Held, lay: Layout, inf: real)
    requires Holds(h, ModelOf(s), lay, inf)
    ensures forall k :: 0 <= k < |lay.cols| ==> ListsVariable(s.variables, lay.cols[k])
    ensures forall k :: 0 <= k < |lay.rows| ==> ListsRow(s.rows, lay.rows[k])
    ensures Numbers(h.colMap, lay.cols) && Numbers(h.rowMap, lay.rows)
  {
    hide CachesOf, Project, Closed, ListsVariable, ListsRow;
    forall k | 0 <= k < |lay.cols|
      ensures ListsVariable(s.variables, lay.cols[k])
    {
      assert lay.cols[k] in ModelOf(s).variables;
      ListedVariable(s.variables, s.origins, lay.cols[k]);
    }
    forall k | 0 <= k < |lay.rows|
      ensures ListsRow(s.rows, lay.rows[k])
    {
      assert lay.rows[k] in ModelOf(s).rows;
      ListedRow(s.rows, s.origins, lay.rows[k]);
    }
  }

  lemma ListedVariable(vs: seq<CompiledVariable>, origins: Origins, id: VariableId)
    requires id in VariablesOf(vs, origins)
    ensures ListsVariable(vs, id)
  {
    VariablesOfKeys(vs, origins);
  }

  lemma ListedRow(rs: seq<CompiledRow>, origins: Origins, id: RowId)
    requires id in RowsOf(rs, origins)
    ensures ListsRow(rs, id)
  {
    RowsOfKeys(rs, origins);
  }

  lemma NativeMeansSnapshot(s: BackendSnapshot, h: Held, lay: Layout, inf: real, x: Point)
    requires SnapshotSound(s) && Holds(h, ModelOf(s), lay, inf) && ListsOnce(s) && Moderate(s, x, inf)
    requires Rectangular(h.native) && |h.native.cols| == |lay.cols|
    requires NativeAllows(h.native, ColumnValues(x, lay.cols))
    ensures SnapshotAllows(s, x)
  {
    hide Holds, SnapshotSound, ListsOnce, Admits, Within, Dot, Activity, IsWhole, VariableAllows, Rectangular;
    forall i | 0 <= i < |s.variables|
      ensures VariableAllows(s.variables[i], x)
    {
      ColumnAllows(s, h, lay, inf, x, i);
    }
    forall j | 0 <= j < |s.rows|
      ensures Within(s.rows[j].bounds, Activity(s.rows[j].coefficients, x))
    {
      RowAllows(s, h, lay, inf, x, j);
    }
  }

  lemma SnapshotMeansNative(s: BackendSnapshot, h: Held, lay: Layout, inf: real, x: Point)
    requires SnapshotSound(s) && Holds(h, ModelOf(s), lay, inf) && ListsOnce(s) && Moderate(s, x, inf)
    requires Rectangular(h.native) && |h.native.cols| == |lay.cols| && |h.native.rows| == |lay.rows|
    requires SnapshotAllows(s, x)
    ensures NativeAllows(h.native, ColumnValues(x, lay.cols))
  {
    hide Holds, SnapshotSound, ListsOnce, Admits, Within, Dot, Activity, IsWhole, VariableAllows, Numbers;
    var values := ColumnValues(x, lay.cols);
    PlacesAreListed(s, h, lay, inf);
    forall k | 0 <= k < |h.native.cols|
      ensures Admits(h.native.cols[k].bounds, values[k]) && (h.native.cols[k].integer ==> IsWhole(values[k]))
    {
      var i :| 0 <= i < |s.variables| && s.variables[i].id == lay.cols[k];
      ColumnAllows(s, h, lay, inf, x, i);
      PlaceOf(h.colMap, lay.cols, k);
    }
    forall k | 0 <= k < |h.native.rows|
      ensures Admits(h.native.rows[k].bounds, Dot(h.native.rows[k].coefficients, values))
    {
      var j :| 0 <= j < |s.rows| && s.rows[j].id == lay.rows[k];
      RowAllows(s, h, lay, inf, x, j);
      PlaceOf(h.rowMap, lay.rows, k);
    }
  }

  lemma PlaceOf<Id(!new)>(m: map<Id, int>, order: seq<Id>, k: nat)
    requires Numbers(m, order) && k < |order|
    ensures order[k] in m && m[order[k]] == k
  {
  }

  /**
   * Meaning of a rebuild, and by delta refinement of every represented state: below the finite stand-in for infinity
   * the native model accepts the column values of a point exactly when the snapshot's own variables and rows do.
   */
  lemma SolutionsCorrespond(s: BackendSnapshot, h: Held, lay: Layout, inf: real, x: Point)
    requires SnapshotSound(s) && Holds(h, ModelOf(s), lay, inf) && ListsOnce(s) && Moderate(s, x, inf)
    ensures Rectangular(h.native) && |h.native.cols| == |lay.cols|
    ensures NativeAllows(h.native, ColumnValues(x, lay.cols)) <==> SnapshotAllows(s, x)
  {
    hide Holds, SnapshotSound, ListsOnce, Moderate, NativeAllows, SnapshotAllows, ModelOf;
    HeldIsRectangular(s, h, lay, inf);
    if NativeAllows(h.native, ColumnValues(x, lay.cols)) { NativeMeansSnapshot(s, h, lay, inf, x); }
    if SnapshotAllows(s, x) { SnapshotMeansNative(s, h, lay, inf, x); }
  }

  /** The native objective is the selected one, in sense and in value at every point. */
  lemma ObjectivesCorrespond(s: BackendSnapshot, h: Held, lay: Layout, inf: real, x: Point, o: nat)
    requires SnapshotSound(s) && Holds(h, ModelOf(s), lay, inf) && ListsOnce(s) && o < |s.objectives|
    requires s.policy == Single(s.objectives[o].id)
    requires UserObjectiveOf(s.origins, s.objectives[o].id).Some?
    ensures |h.native.costs| == |lay.cols| && h.native.sense == s.objectives[o].sense
    ensures h.native.offset + Dot(h.native.costs, ColumnValues(x, lay.cols))
      == s.objectives[o].constant + Activity(s.objectives[o].coefficients, x)
  {
    hide CachesOf, Dot, Activity, CellsOf, ColumnValues, NormalizeBounds;
    ObjectiveIsStored(s.objectives, s.origins, o);
    VariablesOfKeys(s.variables, s.origins);
    CellsGiveActivity(s.objectives[o].coefficients, lay.cols, h.colMap, x);
  }

  /** The caches know a user's entity exactly where the snapshot's origin names it. */
  lemma UsersCorrespond(s: BackendSnapshot, h: Held, lay: Layout, inf: real)
    requires SnapshotSound(s) && Holds(h, ModelOf(s), lay, inf)
    ensures forall i, u :: 0 <= i < |s.variables| ==>
      var v := s.variables[i].id;
      (v in h.caches.userVars && h.caches.userVars[v] == u <==> s.origins.variables[v] == FromVariable(u))
    ensures forall j, u :: 0 <= j < |s.rows| ==>
      var r := s.rows[j].id;
      (r in h.caches.userRows && h.caches.userRows[r] == u <==> s.origins.rows[r] == FromConstraint(u))
    ensures forall k, u :: 0 <= k < |s.objectives| ==>
      var o := s.objectives[k].id;
      (o in h.caches.userObjs && h.caches.userObjs[o] == u <==> s.origins.objectives[o] == FromObjective(u))
  {
    hide Shows, ToMap;
    forall i | 0 <= i < |s.variables|
      ensures forall u :: var v := s.variables[i].id;
        (v in h.caches.userVars && h.caches.userVars[v] == u <==> s.origins.variables[v] == FromVariable(u))
    {
      VariableIsStored(s.variables, s.origins, i);
    }
    forall j | 0 <= j < |s.rows|
      ensures forall u :: var r := s.rows[j].id;
        (r in h.caches.userRows && h.caches.userRows[r] == u <==> s.origins.rows[r] == FromConstraint(u))
    {
      RowIsStored(s.rows, s.origins, j);
    }
    forall k | 0 <= k < |s.objectives|
      ensures forall u :: var o := s.objectives[k].id;
        (o in h.caches.userObjs && h.caches.userObjs[o] == u <==> s.origins.objectives[o] == FromObjective(u))
    {
      ObjectiveIsStored(s.objectives, s.origins, k);
    }
  }
}
