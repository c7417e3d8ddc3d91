/**
 * When a native model with its index maps and caches represents a compiled model, and why each
 * delta op keeps the two in step.
 */
module Representing {
  import opened Common
  import opened BackendIr
  import opened Highs
  import opened IndexMaps
  import opened CompiledModels
  import opened NativeViews
  import opened Caching

  /** Everything a session holds about one compiled model. */
  datatype Held = Held(
    native: NativeModel, colMap: map<VariableId, int>, rowMap: map<RowId, int>, caches: Caches)

  /** The native model and the two index maps show `v` under the numbering `lay`. */
  ghost predicate Shows(h: Held, v: View, lay: Layout, inf: real) {
    && LaysOut(lay, v) && Closed(v)
    && Numbers(h.colMap, lay.cols) && Numbers(h.rowMap, lay.rows)
    && h.native == Project(v, lay, h.native.sense, inf)
  }

  /** The held state is the compiled model `m`, natively and in every cache. */
  ghost predicate Represents(h: Held, m: Model, lay: Layout, inf: real) {
    && WellFormed(m)
    && Shows(h, ViewOf(m), lay, inf)
    && h.caches == CachesOf(m, inf)
  }

  /** Index maps and native dimensions fit together. */
  ghost predicate Dimensioned(h: Held) {
    && |h.native.costs| == |h.native.cols|
    && (forall v :: v in h.colMap ==> 0 <= h.colMap[v] < |h.native.cols|)
    && (forall r :: r in h.rowMap ==> 0 <= h.rowMap[r] < |h.native.rows|)
    && (forall j :: 0 <= j < |h.native.rows| ==> |h.native.rows[j].coefficients| == |h.native.cols|)
  }

  ghost predicate SameVariable(a: Held, b: Held, v: VariableId)
    requires Dimensioned(a) && Dimensioned(b) && v in a.colMap && v in b.colMap
  {
    && a.native.cols[a.colMap[v]] == b.native.cols[b.colMap[v]]
    && a.native.costs[a.colMap[v]] == b.native.costs[b.colMap[v]]
  }

  ghost predicate SameRow(a: Held, b: Held, r: RowId)
    requires Dimensioned(a) && Dimensioned(b) && r in a.rowMap && r in b.rowMap && a.colMap.Keys == b.colMap.Keys
  {
    var left, right := a.native.rows[a.rowMap[r]], b.native.rows[b.rowMap[r]];
    && left.bounds == right.bounds
    && (forall v :: v in a.colMap ==> left.coefficients[a.colMap[v]] == right.coefficients[b.colMap[v]])
  }

  /**
   * Two held states agree entity by entity, whatever their numberings: bounds, integrality, active
   * costs, matrix, offset, sense while it matters, and every cache.
   */
  ghost predicate SameUpToNumbering(a: Held, b: Held) {
    && Dimensioned(a) && Dimensioned(b)
    && a.colMap.Keys == b.colMap.Keys && a.rowMap.Keys == b.rowMap.Keys
    && |a.native.cols| == |b.native.cols| && |a.native.rows| == |b.native.rows|
    && (forall v :: v in a.colMap ==> SameVariable(a, b, v))
    && (forall r :: r in a.rowMap ==> SameRow(a, b, r))
    && a.native.offset == b.native.offset
    && (a.caches.active.Some? ==> a.native.sense == b.native.sense)
    && a.caches == b.caches
  }

  /** Two states that represent the same model differ only in how they number it. */
  lemma RepresentationIsUnique(a: Held, b: Held, m: Model, la: Layout, lb: Layout, inf: real)
    requires Represents(a, m, la, inf) && Represents(b, m, lb, inf)
    ensures SameUpToNumbering(a, b)
  {
    ShowsIsDimensioned(a, ViewOf(m), la, inf);
    ShowsIsDimensioned(b, ViewOf(m), lb, inf);
    assert a.colMap.Keys == b.colMap.Keys && a.rowMap.Keys == b.rowMap.Keys;
    SameLength(la.cols, lb.cols);
    SameLength(la.rows, lb.rows);
    forall v | v in a.colMap
      ensures SameVariable(a, b, v)
    {
      ShowsVariable(a, ViewOf(m), la, inf, v);
      ShowsVariable(b, ViewOf(m), lb, inf, v);
    }
    forall r | r in a.rowMap
      ensures SameRow(a, b, r)
    {
      ShowsRow(a, ViewOf(m), la, inf, r);
      ShowsRow(b, ViewOf(m), lb, inf, r);
    }
    SurfaceIsActive(m);
  }

  lemma ShowsIsDimensioned(h: Held, v: View, lay: Layout, inf: real)
    requires Shows(h, v, lay, inf)
    ensures Dimensioned(h)
    ensures h.colMap.Keys == v.variables.Keys && h.rowMap.Keys == v.rows.Keys
  {
    NumbersIsBijection(h.colMap, lay.cols);
    NumbersIsBijection(h.rowMap, lay.rows);
  }

  lemma ShowsVariable(h: Held, v: View, lay: Layout, inf: real, x: VariableId)
    requires Shows(h, v, lay, inf) && x in h.colMap && Dimensioned(h)
    ensures x in v.variables
    ensures h.native.cols[h.colMap[x]] == ColumnOf(v.variables[x], inf)
    ensures h.native.costs[h.colMap[x]] == Cell(CostsOf(v.surface), x)
  {
    NumbersIsBijection(h.colMap, lay.cols);
  }

  lemma ShowsRow(h: Held, v: View, lay: Layout, inf: real, r: RowId)
    requires Shows(h, v, lay, inf) && r in h.rowMap && Dimensioned(h)
    ensures r in v.rows
    ensures h.native.rows[h.rowMap[r]].bounds == NormalizeBounds(v.rows[r].bounds, inf)
    ensures forall x :: x in h.colMap ==>
      h.native.rows[h.rowMap[r]].coefficients[h.colMap[x]] == Cell(v.rows[r].coefficients, x)
  {
    NumbersIsBijection(h.colMap, lay.cols);
    NumbersIsBijection(h.rowMap, lay.rows);
  }

  lemma SurfaceIsActive(m: Model)
    requires WellFormed(m)
    ensures ActiveUser(m).Some? <==> SurfaceOf(m).Some?
  {
  }

  lemma EmptyIsRepresented(inf: real)
    ensures CachesOf(NO_MODEL, inf) == Caches(map[], map[], map[], map[], map[], map[], map[], map[], None)
    ensures Represents(Held(EMPTY_MODEL, map[], map[], CachesOf(NO_MODEL, inf)), NO_MODEL, Layout([], []), inf)
  {
    assert Project(ViewOf(NO_MODEL), Layout([], []), Minimize, inf) == EMPTY_MODEL;
  }

  /** What the delta code reads off a represented state. */
  lemma RepresentsMeasures(h: Held, m: Model, lay: Layout, inf: real)
    requires Represents(h, m, lay, inf)
    ensures |h.native.cols| == |h.native.costs| == |lay.cols| && |h.native.rows| == |lay.rows|
    ensures h.colMap.Keys == m.variables.Keys && h.rowMap.Keys == m.rows.Keys
    ensures h.caches.userObjs.Keys == m.objectives.Keys
    ensures Numbers(h.colMap, lay.cols) && WellFormed(m) && h.caches == CachesOf(m, inf)
  {
    ShowsIsDimensioned(h, ViewOf(m), lay, inf);
  }

  // ---------------------------------------------------------------- native steps keep a view shown

  lemma ShowsFrom(h: Held, v: View, lay: Layout, idle: Sense, inf: real)
    requires LaysOut(lay, v) && Closed(v) && Numbers(h.colMap, lay.cols) && Numbers(h.rowMap, lay.rows)
    requires h.native == Project(v, lay, idle, inf)
    ensures Shows(h, v, lay, inf)
  {
  }

  lemma ShowsAddedColumn(h: Held, v: View, lay: Layout, inf: real, id: VariableId, d: VariableData, h': Held)
    requires Shows(h, v, lay, inf) && id !in v.variables
    requires
      var added := WithColumn(h.native, NormalizeBounds(d.bounds, inf));
      h'.native == if d.integer then WithIntegrality(added, |lay.cols|) else added
    requires h'.colMap == h.colMap[id := |lay.cols|] && h'.rowMap == h.rowMap
    ensures Shows(h', v.(variables := v.variables[id := d]), lay.(cols := lay.cols + [id]), inf)
  {
    var after, grown := v.(variables := v.variables[id := d]), lay.(cols := lay.cols + [id]);
    assert h'.native == Project(after, grown, h.native.sense, inf) && LaysOut(grown, after) by {
      AppendColumn(v, lay, id, d, h.native.sense, inf);
    }
    assert Numbers(h'.colMap, grown.cols) by {
      NumbersAppend(h.colMap, lay.cols, id);
    }
    assert Closed(after);
    ShowsFrom(h', after, grown, h.native.sense, inf);
  }

  lemma ShowsDeletedColumn(h: Held, v: View, lay: Layout, inf: real, id: VariableId, h': Held)
    requires Shows(h, v, lay, inf) && id in h.colMap
    requires h'.native == WithoutColumns(h.native, {h.colMap[id]})
    requires h'.colMap == Shifted(h.colMap - {id}, h.colMap[id]) && h'.rowMap == h.rowMap
    ensures 0 <= h.colMap[id] < |lay.cols|
    ensures
      var k := h.colMap[id];
      Shows(h', DropVariable(v, id), lay.(cols := lay.cols[..k] + lay.cols[k + 1..]), inf)
  {
    NumbersDelete(h.colMap, lay.cols, id);
    var k := h.colMap[id];
    var after, shrunk := DropVariable(v, id), lay.(cols := lay.cols[..k] + lay.cols[k + 1..]);
    assert h'.native == Project(after, shrunk, h.native.sense, inf) && LaysOut(shrunk, after) by {
      DeleteColumn(v, lay, k, {k}, h.native.sense, inf);
    }
    DroppedIsClosed(v, id);
    ShowsFrom(h', after, shrunk, h.native.sense, inf);
  }

  lemma DroppedIsClosed(v: View, id: VariableId)
    requires Closed(v)
    ensures Closed(DropVariable(v, id))
  {
  }

  lemma ShowsColumnBounds(h: Held, v: View, lay: Layout, inf: real, id: VariableId, b: Bounds, h': Held)
    requires Shows(h, v, lay, inf) && id in h.colMap && 0 <= h.colMap[id] < |h.native.cols|
    requires
      var k := h.colMap[id];
      h'.native == h.native.(cols := h.native.cols[k := h.native.cols[k].(bounds := NormalizeBounds(b, inf))])
    requires h'.colMap == h.colMap && h'.rowMap == h.rowMap
    ensures id in v.variables
    ensures Shows(h', v.(variables := v.variables[id := v.variables[id].(bounds := b)]), lay, inf)
  {
    NumbersIsBijection(h.colMap, lay.cols);
    var after := v.(variables := v.variables[id := v.variables[id].(bounds := b)]);
    assert h'.native == Project(after, lay, h.native.sense, inf) && LaysOut(lay, after) by {
      ChangeColumnBounds(v, lay, h.colMap[id], b, h.native.sense, inf);
    }
    assert Closed(after);
    ShowsFrom(h', after, lay, h.native.sense, inf);
  }

  lemma ShowsAddedRow(
      h: Held, v: View, lay: Layout, inf: real, id: RowId, d: RowData, entries: seq<(VariableId, real)>, h': Held)
    requires Shows(h, v, lay, inf) && id !in v.rows && d.coefficients == ToMap(entries)
    requires Refers(entries, h.colMap.Keys) && InRange(IndicesOf(h.colMap, entries), |h.native.cols|)
    requires h'.native == WithRow(h.native, NormalizeBounds(d.bounds, inf), IndicesOf(h.colMap, entries),
        ValuesOf(entries))
    requires h'.colMap == h.colMap && h'.rowMap == h.rowMap[id := |h.native.rows|]
    ensures Shows(h', v.(rows := v.rows[id := d]), lay.(rows := lay.rows + [id]), inf)
  {
    var after, grown := v.(rows := v.rows[id := d]), lay.(rows := lay.rows + [id]);
    assert h'.native == Project(after, grown, h.native.sense, inf) && LaysOut(grown, after) by {
      ScatterIsCells(entries, lay.cols, h.colMap);
      AppendRow(v, lay, id, d, h.native.sense, inf);
    }
    assert Numbers(h'.rowMap, grown.rows) by {
      NumbersAppend(h.rowMap, lay.rows, id);
    }
    RowKeepsClosed(v, id, d, entries);
    ShowsFrom(h', after, grown, h.native.sense, inf);
  }

  lemma RowKeepsClosed(v: View, id: RowId, d: RowData, entries: seq<(VariableId, real)>)
    requires Closed(v) && d.coefficients == ToMap(entries) && Refers(entries, v.variables.Keys)
    ensures Closed(v.(rows := v.rows[id := d]))
  {
    ToMapRefers(entries, v.variables.Keys);
  }

  lemma ShowsDeletedRow(h: Held, v: View, lay: Layout, inf: real, id: RowId, h': Held)
    requires Shows(h, v, lay, inf) && id in h.rowMap
    requires h'.native == WithoutRows(h.native, {h.rowMap[id]})
    requires h'.colMap == h.colMap && h'.rowMap == Shifted(h.rowMap - {id}, h.rowMap[id])
    ensures 0 <= h.rowMap[id] < |lay.rows|
    ensures
      var k := h.rowMap[id];
      Shows(h', v.(rows := v.rows - {id}), lay.(rows := lay.rows[..k] + lay.rows[k + 1..]), inf)
  {
    NumbersDelete(h.rowMap, lay.rows, id);
    var k := h.rowMap[id];
    var after, shrunk := v.(rows := v.rows - {id}), lay.(rows := lay.rows[..k] + lay.rows[k + 1..]);
    assert h'.native == Project(after, shrunk, h.native.sense, inf) && LaysOut(shrunk, after) by {
      DeleteRow(v, lay, k, {k}, h.native.sense, inf);
    }
    FewerRowsAreClosed(v, id);
    ShowsFrom(h', after, shrunk, h.native.sense, inf);
  }

  lemma FewerRowsAreClosed(v: View, id: RowId)
    requires Closed(v)
    ensures Closed(v.(rows := v.rows - {id}))
  {
  }

  lemma ShowsRowBounds(h: Held, v: View, lay: Layout, inf: real, id: RowId, b: Bounds, h': Held)
    requires Shows(h, v, lay, inf) && id in h.rowMap && 0 <= h.rowMap[id] < |h.native.rows|
    requires
      var k := h.rowMap[id];
      h'.native == h.native.(rows := h.native.rows[k := h.native.rows[k].(bounds := NormalizeBounds(b, inf))])
    requires h'.colMap == h.colMap && h'.rowMap == h.rowMap
    ensures id in v.rows
    ensures Shows(h', v.(rows := v.rows[id := v.rows[id].(bounds := b)]), lay, inf)
  {
    NumbersIsBijection(h.rowMap, lay.rows);
    var after := v.(rows := v.rows[id := v.rows[id].(bounds := b)]);
    assert h'.native == Project(after, lay, h.native.sense, inf) && LaysOut(lay, after) by {
      ChangeRowBounds(v, lay, h.rowMap[id], b, h.native.sense, inf);
    }
    assert Closed(after);
    ShowsFrom(h', after, lay, h.native.sense, inf);
  }

  /** An upsert of a cell, or its removal as a write of zero. */
  lemma ShowsCell(h: Held, v: View, lay: Layout, inf: real, r: RowId, x: VariableId, c: map<VariableId, real>, h': Held)
    requires Shows(h, v, lay, inf) && r in h.rowMap && x in h.colMap && r in v.rows
    requires 0 <= h.rowMap[r] < |h.native.rows| && 0 <= h.colMap[x] < |h.native.rows[h.rowMap[r]].coefficients|
    requires DiffersAt(c, v.rows[r].coefficients, x)
    requires
      var j := h.rowMap[r];
      var cells := h.native.rows[j].coefficients[h.colMap[x] := Cell(c, x)];
      h'.native == h.native.(rows := h.native.rows[j := h.native.rows[j].(coefficients := cells)])
    requires h'.colMap == h.colMap && h'.rowMap == h.rowMap
    ensures Shows(h', v.(rows := v.rows[r := v.rows[r].(coefficients := c)]), lay, inf)
  {
    var after := v.(rows := v.rows[r := v.rows[r].(coefficients := c)]);
    assert h'.native == Project(after, lay, h.native.sense, inf) && LaysOut(lay, after) by {
      NumbersIsBijection(h.rowMap, lay.rows);
      ChangeCell(v, lay, h.rowMap[r], h.colMap, x, c, h.native.sense, inf);
    }
    CellKeepsClosed(v, r, x, c);
    ShowsFrom(h', after, lay, h.native.sense, inf);
  }

  lemma CellKeepsClosed(v: View, r: RowId, x: VariableId, c: map<VariableId, real>)
    requires Closed(v) && r in v.rows && x in v.variables && DiffersAt(c, v.rows[r].coefficients, x)
    ensures Closed(v.(rows := v.rows[r := v.rows[r].(coefficients := c)]))
  {
  }

  /** Replacing the whole surface: costs, offset, and sense where an objective is active. */
  lemma ShowsSurface(h: Held, v: View, lay: Layout, inf: real, s: Option<Surface>, h': Held)
    requires LaysOut(lay, v) && Closed(v) && Numbers(h.colMap, lay.cols) && Numbers(h.rowMap, lay.rows)
    requires h.native.cols == Columns(v.variables, lay.cols, inf) && h.native.rows == Rows(v.rows, lay, inf)
    requires s.Some? ==> s.value.costs.Keys <= v.variables.Keys
    requires h'.native.cols == h.native.cols && h'.native.rows == h.native.rows
    requires h'.native.costs == CellsOf(CostsOf(s), lay.cols)
    requires h'.native.offset == if s.Some? then s.value.offset else 0.0
    requires s.Some? ==> h'.native.sense == s.value.sense
    requires h'.colMap == h.colMap && h'.rowMap == h.rowMap
    ensures Shows(h', v.(surface := s), lay, inf)
  {
  }

  // ---------------------------------------------------------------- simulation, one lemma per delta op

  lemma AddVariableSimulates(
      h: Held, m: Model, lay: Layout, inf: real, v: CompiledVariable, origins: Origins, h': Held)
    requires Represents(h, m, lay, inf) && v.id !in m.variables
    requires
      var d := NewVariable(v, origins);
      var added := WithColumn(h.native, NormalizeBounds(v.bounds, inf));
      h' == Held(
        if d.integer then WithIntegrality(added, |lay.cols|) else added,
        h.colMap[v.id := |lay.cols|], h.rowMap,
        h.caches.(varBounds := h.caches.varBounds[v.id := NormalizeBounds(v.bounds, inf)],
                  userVars := WithUser(h.caches.userVars, v.id, d.user)))
    ensures Represents(h', Apply(m, AddVariable(v), origins), lay.(cols := lay.cols + [v.id]), inf)
  {
    var d, after := NewVariable(v, origins), Apply(m, AddVariable(v), origins);
    assert ViewOf(after) == ViewOf(m).(variables := m.variables[v.id := d]);
    assert Shows(h', ViewOf(after), lay.(cols := lay.cols + [v.id]), inf) by {
      ShowsAddedColumn(h, ViewOf(m), lay, inf, v.id, d, h');
    }
    assert h'.caches == CachesOf(after, inf) by {
      CachesAddVariable(m, v.id, d, inf);
    }
    assert WellFormed(after);
  }

  lemma RemoveVariableSimulates(h: Held, m: Model, lay: Layout, inf: real, id: VariableId, origins: Origins, h': Held)
    requires Represents(h, m, lay, inf) && id in h.colMap
    requires h' == Held(
      WithoutColumns(h.native, {h.colMap[id]}),
      Shifted(h.colMap - {id}, h.colMap[id]), h.rowMap,
      h.caches.(varBounds := h.caches.varBounds - {id},
                userVars := h.caches.userVars - {id},
                costs := map o | o in h.caches.costs :: h.caches.costs[o] - {id}))
    ensures 0 <= h.colMap[id] < |lay.cols|
    ensures
      var k := h.colMap[id];
      Represents(h', Apply(m, RemoveVariable(id), origins), lay.(cols := lay.cols[..k] + lay.cols[k + 1..]), inf)
  {
    RemoveVariableView(m, id);
    ShowsDeletedColumn(h, ViewOf(m), lay, inf, id, h');
    CachesRemoveVariable(m, id, inf);
  }

  lemma RemoveVariableView(m: Model, id: VariableId)
    requires WellFormed(m)
    ensures WellFormed(WithoutVariable(m, id))
    ensures ViewOf(WithoutVariable(m, id)) == DropVariable(ViewOf(m), id)
  {
  }

  lemma BoundsAreCached(m: Model, inf: real)
    ensures CachesOf(m, inf).varBounds == VarBoundsOf(m.variables, inf)
    ensures CachesOf(m, inf).rowBounds == RowBoundsOf(m.rows, inf)
  {
  }

  lemma VariableBoundsSimulate(
      h: Held, m: Model, lay: Layout, inf: real, v: VariableId, b: Bounds, origins: Origins, h': Held)
    requires Represents(h, m, lay, inf) && v in h.colMap && 0 <= h.colMap[v] < |h.native.cols|
    requires
      var k := h.colMap[v];
      h' == h.(native := h.native.(cols := h.native.cols[k := h.native.cols[k].(bounds := NormalizeBounds(b, inf))]),
               caches := h.caches.(varBounds := h.caches.varBounds[v := NormalizeBounds(b, inf)]))
    ensures v in m.variables && Represents(h', Apply(m, SetVariableBounds(v, b), origins), lay, inf)
  {
    hide WellFormed, Shows, CachesOf, VarBoundsOf, ReferencesResolve;
    ShowsColumnBounds(h, ViewOf(m), lay, inf, v, b, h');
    CachesVariableBounds(m, v, b, inf);
    VariableBoundsKeepWellFormed(m, v, b);
    BoundsAreCached(m, inf);
    assert ViewOf(Apply(m, SetVariableBounds(v, b), origins))
      == ViewOf(m).(variables := m.variables[v := m.variables[v].(bounds := b)]);
  }

  lemma VariableBoundsKeepWellFormed(m: Model, v: VariableId, b: Bounds)
    requires WellFormed(m) && v in m.variables
    ensures WellFormed(m.(variables := m.variables[v := m.variables[v].(bounds := b)]))
  {
  }

  lemma AddRowSimulates(h: Held, m: Model, lay: Layout, inf: real, r: CompiledRow, origins: Origins, h': Held)
    requires Represents(h, m, lay, inf) && r.id !in m.rows
    requires Refers(r.coefficients, h.colMap.Keys) && InRange(IndicesOf(h.colMap, r.coefficients), |h.native.cols|)
    requires h' == Held(
      WithRow(h.native, NormalizeBounds(r.bounds, inf), IndicesOf(h.colMap, r.coefficients), ValuesOf(r.coefficients)),
      h.colMap, h.rowMap[r.id := |h.native.rows|],
      h.caches.(rowBounds := h.caches.rowBounds[r.id := NormalizeBounds(r.bounds, inf)],
                userRows := WithUser(h.caches.userRows, r.id, UserConstraintOf(origins, r.id))))
    ensures Represents(h', Apply(m, AddLinearRow(r), origins), lay.(rows := lay.rows + [r.id]), inf)
  {
    var d, after := NewRow(r, origins), Apply(m, AddLinearRow(r), origins);
    assert ViewOf(after) == ViewOf(m).(rows := m.rows[r.id := d]);
    assert Shows(h', ViewOf(after), lay.(rows := lay.rows + [r.id]), inf) by {
      ShowsAddedRow(h, ViewOf(m), lay, inf, r.id, d, r.coefficients, h');
    }
    assert h'.caches == CachesOf(after, inf) by {
      CachesAddRow(m, r.id, d, inf);
    }
    RowsResolve(after, m);
  }

  lemma ShownIsClosed(h: Held, v: View, lay: Layout, inf: real)
    ensures Shows(h, v, lay, inf) ==> Closed(v)
  {
  }

  /** A shown change of rows alone cannot break references. */
  lemma RowsResolve(after: Model, m: Model)
    requires WellFormed(m) && after == m.(rows := after.rows) && Closed(ViewOf(after))
    ensures WellFormed(after)
  {
  }

  lemma RemoveRowSimulates(h: Held, m: Model, lay: Layout, inf: real, id: RowId, origins: Origins, h': Held)
    requires Represents(h, m, lay, inf) && id in h.rowMap
    requires h' == Held(
      WithoutRows(h.native, {h.rowMap[id]}),
      h.colMap, Shifted(h.rowMap - {id}, h.rowMap[id]),
      h.caches.(rowBounds := h.caches.rowBounds - {id}, userRows := h.caches.userRows - {id}))
    ensures 0 <= h.rowMap[id] < |lay.rows|
    ensures
      var k := h.rowMap[id];
      Represents(h', Apply(m, RemoveLinearRow(id), origins), lay.(rows := lay.rows[..k] + lay.rows[k + 1..]), inf)
  {
    var after := Apply(m, RemoveLinearRow(id), origins);
    assert ViewOf(after) == ViewOf(m).(rows := m.rows - {id});
    ShowsDeletedRow(h, ViewOf(m), lay, inf, id, h');
    assert h'.caches == CachesOf(after, inf) by {
      CachesRemoveRow(m, id, inf);
    }
    RowsResolve(after, m);
  }

  lemma RowBoundsSimulate(h: Held, m: Model, lay: Layout, inf: real, r: RowId, b: Bounds, origins: Origins, h': Held)
    requires Represents(h, m, lay, inf) && r in h.rowMap && 0 <= h.rowMap[r] < |h.native.rows|
    requires
      var k := h.rowMap[r];
      h' == h.(native := h.native.(rows := h.native.rows[k := h.native.rows[k].(bounds := NormalizeBounds(b, inf))]),
               caches := h.caches.(rowBounds := h.caches.rowBounds[r := NormalizeBounds(b, inf)]))
    ensures r in m.rows && Represents(h', Apply(m, SetLinearRowBounds(r, b), origins), lay, inf)
  {
    hide Shows, CachesOf, WellFormed, Closed;
    var after := Apply(m, SetLinearRowBounds(r, b), origins);
    ShowsRowBounds(h, ViewOf(m), lay, inf, r, b, h');
    BoundsAreCached(m, inf);
    ShownIsClosed(h', ViewOf(after), lay, inf);
    assert ViewOf(after) == ViewOf(m).(rows := m.rows[r := m.rows[r].(bounds := b)]);
    assert h'.caches == CachesOf(after, inf) by {
      CachesRowBounds(m, r, b, inf);
    }
    RowsResolve(after, m);
  }

  lemma CoefficientSimulates(
      h: Held, m: Model, lay: Layout, inf: real, r: RowId, v: VariableId, c: map<VariableId, real>, h': Held)
    requires Represents(h, m, lay, inf) && r in h.rowMap && v in h.colMap && r in m.rows
    requires 0 <= h.rowMap[r] < |h.native.rows| && 0 <= h.colMap[v] < |h.native.rows[h.rowMap[r]].coefficients|
    requires DiffersAt(c, m.rows[r].coefficients, v)
    requires
      var j := h.rowMap[r];
      var cells := h.native.rows[j].coefficients[h.colMap[v] := Cell(c, v)];
      h' == h.(native := h.native.(rows := h.native.rows[j := h.native.rows[j].(coefficients := cells)]))
    ensures Represents(h', WithCoefficients(m, r, c), lay, inf)
  {
    var after := WithCoefficients(m, r, c);
    assert ViewOf(after) == ViewOf(m).(rows := m.rows[r := m.rows[r].(coefficients := c)]);
    assert Shows(h', ViewOf(after), lay, inf) by {
      ShowsCell(h, ViewOf(m), lay, inf, r, v, c, h');
    }
    assert h'.caches == CachesOf(after, inf) by {
      CachesCoefficients(m, r, c, inf);
    }
    RowsResolve(after, m);
  }

  lemma AddObjectiveSimulates(
      h: Held, m: Model, lay: Layout, inf: real, o: CompiledObjective, origins: Origins, h': Held)
    requires Represents(h, m, lay, inf)
    requires OpValid(AddObjective(o), RegistryOf(m), origins) && Compiled(AddObjective(o), m, origins)
    requires h' == h.(caches := h.caches.(
      userObjs := WithUser(h.caches.userObjs, o.id, UserObjectiveOf(origins, o.id)),
      costs := h.caches.costs[o.id := ToMap(o.coefficients)],
      senses := h.caches.senses[o.id := o.sense],
      offsets := h.caches.offsets[o.id := o.constant]))
    ensures Represents(h', Apply(m, AddObjective(o), origins), lay, inf)
  {
    ApplyKeepsWellFormed(m, AddObjective(o), origins);
    CachesAddObjective(m, o.id, NewObjective(o, origins), inf);
    assert ViewOf(Apply(m, AddObjective(o), origins)) == ViewOf(m);
  }

  lemma RemoveObjectiveKeepsWellFormed(m: Model, id: ObjectiveId, origins: Origins)
    requires WellFormed(m) && id in m.objectives
    ensures WellFormed(Apply(m, RemoveObjective(id), origins))
  {
  }

  lemma RemoveActiveSimulates(
      h: Held, m: Model, lay: Layout, inf: real, id: ObjectiveId, origins: Origins, h': Held)
    requires Represents(h, m, lay, inf) && m.policy == Single(id)
    requires h'.native == h.native.(costs := Zeros(|lay.cols|), offset := 0.0)
    requires h'.colMap == h.colMap && h'.rowMap == h.rowMap
    ensures Shows(h', ViewOf(Apply(m, RemoveObjective(id), origins)), lay, inf)
  {
    assert CellsOf(map[], lay.cols) == Zeros(|lay.cols|);
    assert ViewOf(Apply(m, RemoveObjective(id), origins)) == ViewOf(m).(surface := None);
    ShowsSurface(h, ViewOf(m), lay, inf, None, h');
  }

  /** Removing the active objective also clears the surface; removing another one does not touch it. */
  lemma RemoveObjectiveSimulates(
      h: Held, m: Model, lay: Layout, inf: real, id: ObjectiveId, origins: Origins, h': Held)
    requires Represents(h, m, lay, inf) && id in m.objectives
    requires h'.native == if h.caches.active == m.objectives[id].user
      then h.native.(costs := Zeros(|lay.cols|), offset := 0.0) else h.native
    requires h'.colMap == h.colMap && h'.rowMap == h.rowMap
    requires h'.caches == h.caches.(
      userObjs := h.caches.userObjs - {id}, costs := h.caches.costs - {id},
      senses := h.caches.senses - {id}, offsets := h.caches.offsets - {id},
      active := if h.caches.active == m.objectives[id].user then None else h.caches.active)
    ensures Represents(h', Apply(m, RemoveObjective(id), origins), lay, inf)
  {
    ActiveUserIdentifies(m, id);
    RemoveObjectiveKeepsWellFormed(m, id, origins);
    CachesRemoveObjective(m, id, inf);
    if m.policy == Single(id) {
      RemoveActiveSimulates(h, m, lay, inf, id, origins, h');
    } else {
      assert ViewOf(Apply(m, RemoveObjective(id), origins)) == ViewOf(m);
    }
  }

  /** Native costs, offset and sense after objective `o` became `d`: rewritten exactly when it is active. */
  lemma ObjectiveSimulates(h: Held, m: Model, lay: Layout, inf: real, o: ObjectiveId, d: ObjectiveData, h': Held)
    requires Represents(h, m, lay, inf) && o in m.objectives && d.user == m.objectives[o].user
    requires d.costs.Keys <= m.variables.Keys
    requires
      var shown := if h.caches.active == d.user
        then h.native.(costs := CellsOf(d.costs, lay.cols), offset := d.constant, sense := d.sense) else h.native;
      h' == h.(native := shown, caches := h.caches.(
        costs := h.caches.costs[o := d.costs], senses := h.caches.senses[o := d.sense],
        offsets := h.caches.offsets[o := d.constant]))
    ensures Represents(h', m.(objectives := m.objectives[o := d]), lay, inf)
  {
    var after := m.(objectives := m.objectives[o := d]);
    ActiveUserIdentifies(m, o);
    assert h'.caches == CachesOf(after, inf) by {
      CachesObjective(m, o, d, inf);
    }
    assert WellFormed(after);
    if m.policy == Single(o) {
      assert ViewOf(after) == ViewOf(m).(surface := Some(Surface(d.costs, d.sense, d.constant)));
      ShowsSurface(h, ViewOf(m), lay, inf, ViewOf(after).surface, h');
    } else {
      assert ViewOf(after) == ViewOf(m);
    }
  }

  function CostCache(h: Held, o: ObjectiveId): map<VariableId, real> {
    if o in h.caches.costs then h.caches.costs[o] else map[]
  }

  /** The state a freshly projected policy leaves, as `project_objective_policy` computes it. */
  ghost function PolicyShown(h: Held, policy: Policy): Held {
    var cleared := h.(native := h.native.(costs := Zeros(|h.native.cols|)));
    match policy
    case Single(o) =>
      if o in h.caches.userObjs then
        h.(native := h.native.(
             costs := CostsWritten(|h.native.cols|, h.colMap, CostCache(h, o)),
             sense := if o in h.caches.senses then h.caches.senses[o] else h.native.sense,
             offset := if o in h.caches.offsets then h.caches.offsets[o] else h.native.offset),
           caches := h.caches.(active := Some(h.caches.userObjs[o])))
      else cleared
    case _ => cleared.(native := cleared.native.(offset := 0.0), caches := h.caches.(active := None))
  }

  lemma NoCosts(cols: seq<VariableId>)
    ensures CellsOf(map[], cols) == Zeros(|cols|)
  {
  }

  /** Under a dense numbering the costs a policy shows are the cells of its objective's cached costs. */
  lemma PolicyShowsCells(h: Held, o: ObjectiveId, cols: seq<VariableId>)
    requires Numbers(h.colMap, cols) && |h.native.cols| == |cols| && o in h.caches.userObjs
    ensures PolicyShown(h, Single(o)).native.costs == CellsOf(CostCache(h, o), cols)
  {
    CostsWrittenAreCells(h.colMap, cols, CostCache(h, o));
  }

  /** `h` with any other costs, offset, sense and active objective. */
  ghost predicate SameButSurface(h: Held, stale: Held) {
    stale == h.(
      native := h.native.(costs := stale.native.costs, offset := stale.native.offset, sense := stale.native.sense),
      caches := h.caches.(active := stale.caches.active))
  }

  /** Projecting a policy shows it, from whatever surface was there before. */
  lemma PolicySimulates(h: Held, m: Model, lay: Layout, inf: real, policy: Policy, stale: Held, h': Held)
    requires Represents(h, m, lay, inf)
    requires Representable(policy) && (policy.Single? ==> policy.objective in m.objectives)
    requires SameButSurface(h, stale)
    requires h' == PolicyShown(stale, policy)
    ensures Represents(h', m.(policy := policy), lay, inf)
  {
    hide VarBoundsOf, RowBoundsOf, UserVarsOf, UserRowsOf, Zeros, CostsWritten;
    var after := m.(policy := policy);
    NoCosts(lay.cols);
    if policy.Single? {
      ObjectiveIsCached(m, inf, policy.objective);
      PolicyShowsCells(stale, policy.objective, lay.cols);
    }
    assert ViewOf(after) == ViewOf(m).(surface := SurfaceOf(after));
    ShowsSurface(h, ViewOf(m), lay, inf, SurfaceOf(after), h');
  }

  // ---------------------------------------------------------------- the code's effect on the held state, op by op

  ghost function CoefficientWritten(h: Held, r: RowId, v: VariableId, value: real): Option<Held> {
    if r !in h.rowMap || v !in h.colMap then None
    else if !(0 <= h.rowMap[r] < |h.native.rows|) then None
    else if !(0 <= h.colMap[v] < |h.native.rows[h.rowMap[r]].coefficients|) then None
    else
      var j := h.rowMap[r];
      var cells := h.native.rows[j].coefficients[h.colMap[v] := value];
      Some(h.(native := h.native.(rows := h.native.rows[j := h.native.rows[j].(coefficients := cells)])))
  }

  /** One objective is active when its user handle is the active one. */
  predicate IsActive(h: Held, o: ObjectiveId)
    requires o in h.caches.userObjs
  {
    h.caches.active == Some(h.caches.userObjs[o])
  }

  /** One cost cell of `o`: `costs` are the caches afterwards, `value` goes to the surface if `o` is active. */
  ghost function CostWritten(
      h: Held, o: ObjectiveId, v: VariableId, value: real, costs: map<ObjectiveId, map<VariableId, real>>): Option<Held>
  {
    if o !in h.caches.userObjs || v !in h.colMap then None
    else
      var cached := h.(caches := h.caches.(costs := costs));
      if !IsActive(h, o) then Some(cached)
      else if !(0 <= h.colMap[v] < |h.native.costs|) then None
      else Some(cached.(native := h.native.(costs := h.native.costs[h.colMap[v] := value])))
  }

  /** A new last column with its integrality, index and cached bounds. */
  function ColumnPlaced(h: Held, v: CompiledVariable, inf: real): Held {
    var range := NormalizeBounds(v.bounds, inf);
    var added := WithColumn(h.native, range);
    Held(
      if !v.varType.Continuous? then WithIntegrality(added, |h.native.cols|) else added,
      h.colMap[v.id := |h.native.cols|], h.rowMap,
      h.caches.(varBounds := h.caches.varBounds[v.id := range]))
  }

  predicate RowFits(h: Held, r: CompiledRow) {
    Refers(r.coefficients, h.colMap.Keys) && InRange(IndicesOf(h.colMap, r.coefficients), |h.native.cols|)
  }

  /** A new last row with its coefficients, index and cached bounds. */
  function RowPlaced(h: Held, r: CompiledRow, inf: real): Held
    requires RowFits(h, r)
  {
    var range := NormalizeBounds(r.bounds, inf);
    Held(
      WithRow(h.native, range, IndicesOf(h.colMap, r.coefficients), ValuesOf(r.coefficients)),
      h.colMap, h.rowMap[r.id := |h.native.rows|],
      h.caches.(rowBounds := h.caches.rowBounds[r.id := range]))
  }

  /**
   * The held state after the code of one op ran without a native failure; `None` when it stops
   * because an entity is missing.
   */
  ghost function HeldAfter(h: Held, op: BackendOp, origins: Origins, inf: real): Option<Held> {
    match op
    case AddVariable(v) =>
      Some(ColumnPlaced(h, v, inf).(caches := ColumnPlaced(h, v, inf).caches.(
        userVars := WithUser(h.caches.userVars, v.id, UserVariableOf(origins, v.id)))))
    case RemoveVariable(id) =>
      if id !in h.colMap then None
      else Some(Held(
        WithoutColumns(h.native, {h.colMap[id]}),
        Shifted(h.colMap - {id}, h.colMap[id]), h.rowMap,
        h.caches.(varBounds := h.caches.varBounds - {id},
                  userVars := h.caches.userVars - {id},
                  costs := map o | o in h.caches.costs :: h.caches.costs[o] - {id})))
    case SetVariableBounds(v, b) =>
      if v !in h.colMap || !(0 <= h.colMap[v] < |h.native.cols|) then None
      else
        var k, range := h.colMap[v], NormalizeBounds(b, inf);
        Some(h.(native := h.native.(cols := h.native.cols[k := h.native.cols[k].(bounds := range)]),
                caches := h.caches.(varBounds := h.caches.varBounds[v := range])))
    case AddLinearRow(r) =>
      if !RowFits(h, r) then None
      else Some(RowPlaced(h, r, inf).(caches := RowPlaced(h, r, inf).caches.(
        userRows := WithUser(h.caches.userRows, r.id, UserConstraintOf(origins, r.id)))))
    case RemoveLinearRow(id) =>
      if id !in h.rowMap then None
      else Some(Held(
        WithoutRows(h.native, {h.rowMap[id]}),
        h.colMap, Shifted(h.rowMap - {id}, h.rowMap[id]),
        h.caches.(rowBounds := h.caches.rowBounds - {id}, userRows := h.caches.userRows - {id})))
    case SetLinearRowBounds(r, b) =>
      if r !in h.rowMap || !(0 <= h.rowMap[r] < |h.native.rows|) then None
      else
        var k, range := h.rowMap[r], NormalizeBounds(b, inf);
        Some(h.(native := h.native.(rows := h.native.rows[k := h.native.rows[k].(bounds := range)]),
                caches := h.caches.(rowBounds := h.caches.rowBounds[r := range])))
    case SetLinearCoefficient(r, v, x) => CoefficientWritten(h, r, v, x)
    case RemoveLinearCoefficient(r, v) => CoefficientWritten(h, r, v, 0.0)
    case AddObjective(o) =>
      Some(h.(caches := h.caches.(
        userObjs := WithUser(h.caches.userObjs, o.id, UserObjectiveOf(origins, o.id)),
        costs := h.caches.costs[o.id := ToMap(o.coefficients)],
        senses := h.caches.senses[o.id := o.sense],
        offsets := h.caches.offsets[o.id := o.constant])))
    case RemoveObjective(id) =>
      if id !in h.caches.userObjs then None
      else
        var was := IsActive(h, id);
        Some(h.(native := if was then h.native.(costs := Zeros(|h.native.cols|), offset := 0.0) else h.native,
                caches := h.caches.(
                  userObjs := h.caches.userObjs - {id}, costs := h.caches.costs - {id},
                  senses := h.caches.senses - {id}, offsets := h.caches.offsets - {id},
                  active := if was then None else h.caches.active)))
    case SetObjectiveCoefficient(o, v, x) => CostWritten(h, o, v, x, h.caches.costs[o := CostCache(h, o)[v := x]])
    case SetObjectiveCosts(o, costs) =>
      if o !in h.caches.userObjs || !Refers(costs, h.colMap.Keys) then None
      else
        var indices := IndicesOf(h.colMap, costs);
        var values := ValuesOf(costs);
        var cached := h.(caches := h.caches.(costs := h.caches.costs[o := CostCache(h, o) + ToMap(costs)]));
        if !IsActive(h, o) then Some(cached)
        else if !InRange(indices, |h.native.costs|) then None
        else Some(cached.(native := h.native.(costs := Scatter(h.native.costs, indices, values))))
    case RemoveObjectiveCoefficient(o, v) =>
      CostWritten(h, o, v, 0.0,
        if o in h.caches.costs then h.caches.costs[o := h.caches.costs[o] - {v}] else h.caches.costs)
    case SetObjectiveConstant(o, x) =>
      if o !in h.caches.userObjs then None
      else Some(h.(native := if IsActive(h, o) then h.native.(offset := x) else h.native,
                   caches := h.caches.(offsets := h.caches.offsets[o := x])))
    case SetObjectiveSense(o, s) =>
      if o !in h.caches.userObjs then None
      else Some(h.(native := if IsActive(h, o) then h.native.(sense := s) else h.native,
                   caches := h.caches.(senses := h.caches.senses[o := s])))
    case SetObjectivePolicy(p) => Some(PolicyShown(h, p))
  }

  /** The numbering after one op: additions go last, a removal closes its gap. */
  ghost function LayoutAfter(h: Held, lay: Layout, op: BackendOp): Layout {
    match op
    case AddVariable(v) => lay.(cols := lay.cols + [v.id])
    case RemoveVariable(id) =>
      if id in h.colMap && 0 <= h.colMap[id] < |lay.cols|
      then lay.(cols := lay.cols[..h.colMap[id]] + lay.cols[h.colMap[id] + 1..]) else lay
    case AddLinearRow(r) => lay.(rows := lay.rows + [r.id])
    case RemoveLinearRow(id) =>
      if id in h.rowMap && 0 <= h.rowMap[id] < |lay.rows|
      then lay.(rows := lay.rows[..h.rowMap[id]] + lay.rows[h.rowMap[id] + 1..]) else lay
    case _ => lay
  }

  /** The step of `op` is defined and takes a represented model to its represented successor. */
  ghost predicate Simulates(h: Held, m: Model, lay: Layout, op: BackendOp, origins: Origins, inf: real) {
    var after := HeldAfter(h, op, origins, inf);
    after.Some? && Represents(after.value, Apply(m, op, origins), LayoutAfter(h, lay, op), inf)
  }

  lemma AddVariableStep(h: Held, m: Model, lay: Layout, v: CompiledVariable, origins: Origins, inf: real)
    requires Represents(h, m, lay, inf) && v.id !in m.variables
    ensures Simulates(h, m, lay, AddVariable(v), origins, inf)
  {
    RepresentsMeasures(h, m, lay, inf);
    hide Represents;
    AddVariableSimulates(h, m, lay, inf, v, origins, HeldAfter(h, AddVariable(v), origins, inf).value);
  }

  lemma RemoveVariableStep(h: Held, m: Model, lay: Layout, id: VariableId, origins: Origins, inf: real)
    requires Represents(h, m, lay, inf) && id in m.variables
    ensures Simulates(h, m, lay, RemoveVariable(id), origins, inf)
  {
    hide Represents, WellFormed, Numbers, CachesOf;
    RepresentsMeasures(h, m, lay, inf);
    RemoveVariableSimulates(h, m, lay, inf, id, origins, HeldAfter(h, RemoveVariable(id), origins, inf).value);
  }

  lemma RepresentsIsDimensioned(h: Held, m: Model, lay: Layout, inf: real)
    requires Represents(h, m, lay, inf)
    ensures Dimensioned(h)
  {
    hide WellFormed, CachesOf, Shows;
    ShowsIsDimensioned(h, ViewOf(m), lay, inf);
  }

  lemma VariableBoundsStep(h: Held, m: Model, lay: Layout, v: VariableId, b: Bounds, origins: Origins, inf: real)
    requires Represents(h, m, lay, inf) && v in m.variables
    ensures Simulates(h, m, lay, SetVariableBounds(v, b), origins, inf)
  {
    hide Represents, WellFormed, Numbers, CachesOf;
    RepresentsMeasures(h, m, lay, inf);
    RepresentsIsDimensioned(h, m, lay, inf);
    var after := HeldAfter(h, SetVariableBounds(v, b), origins, inf);
    VariableBoundsSimulate(h, m, lay, inf, v, b, origins, after.value);
  }

  lemma AddRowStep(h: Held, m: Model, lay: Layout, r: CompiledRow, origins: Origins, inf: real)
    requires Represents(h, m, lay, inf) && r.id !in m.rows && Refers(r.coefficients, m.variables.Keys)
    ensures Simulates(h, m, lay, AddLinearRow(r), origins, inf)
  {
    RepresentsMeasures(h, m, lay, inf);
    IndicesInRange(h.colMap, lay.cols, r.coefficients);
    hide Represents;
    AddRowSimulates(h, m, lay, inf, r, origins, HeldAfter(h, AddLinearRow(r), origins, inf).value);
  }

  lemma RemoveRowStep(h: Held, m: Model, lay: Layout, id: RowId, origins: Origins, inf: real)
    requires Represents(h, m, lay, inf) && id in m.rows
    ensures Simulates(h, m, lay, RemoveLinearRow(id), origins, inf)
  {
    hide Represents, WellFormed, Numbers, CachesOf;
    RepresentsMeasures(h, m, lay, inf);
    RemoveRowSimulates(h, m, lay, inf, id, origins, HeldAfter(h, RemoveLinearRow(id), origins, inf).value);
  }

  lemma RowBoundsStep(h: Held, m: Model, lay: Layout, r: RowId, b: Bounds, origins: Origins, inf: real)
    requires Represents(h, m, lay, inf) && r in m.rows
    ensures Simulates(h, m, lay, SetLinearRowBounds(r, b), origins, inf)
  {
    RepresentsMeasures(h, m, lay, inf);
    ShowsIsDimensioned(h, ViewOf(m), lay, inf);
    hide Represents;
    var after := HeldAfter(h, SetLinearRowBounds(r, b), origins, inf);
    RowBoundsSimulate(h, m, lay, inf, r, b, origins, after.value);
  }

  lemma CoefficientStep(h: Held, m: Model, lay: Layout, r: RowId, v: VariableId, c: map<VariableId, real>, inf: real)
    requires Represents(h, m, lay, inf) && r in m.rows && v in m.variables
    requires DiffersAt(c, m.rows[r].coefficients, v)
    ensures CoefficientWritten(h, r, v, Cell(c, v)).Some?
    ensures Represents(CoefficientWritten(h, r, v, Cell(c, v)).value, WithCoefficients(m, r, c), lay, inf)
  {
    RepresentsMeasures(h, m, lay, inf);
    ShowsIsDimensioned(h, ViewOf(m), lay, inf);
    hide Represents;
    var after := CoefficientWritten(h, r, v, Cell(c, v));
    assert after.Some?;
    CoefficientSimulates(h, m, lay, inf, r, v, c, after.value);
  }

  lemma AddObjectiveStep(h: Held, m: Model, lay: Layout, o: CompiledObjective, origins: Origins, inf: real)
    requires Represents(h, m, lay, inf)
    requires OpValid(AddObjective(o), RegistryOf(m), origins) && Compiled(AddObjective(o), m, origins)
    ensures Simulates(h, m, lay, AddObjective(o), origins, inf)
  {
    hide Represents;
    AddObjectiveSimulates(h, m, lay, inf, o, origins, HeldAfter(h, AddObjective(o), origins, inf).value);
  }

  lemma RemoveObjectiveStep(h: Held, m: Model, lay: Layout, id: ObjectiveId, origins: Origins, inf: real)
    requires Represents(h, m, lay, inf) && id in m.objectives
    ensures Simulates(h, m, lay, RemoveObjective(id), origins, inf)
  {
    hide Represents;
    RepresentsMeasures(h, m, lay, inf);
    RemoveObjectiveSimulates(h, m, lay, inf, id, origins, HeldAfter(h, RemoveObjective(id), origins, inf).value);
  }

  /** What an active objective's caches say about the native surface. */
  lemma ActiveIsShown(h: Held, m: Model, lay: Layout, inf: real, o: ObjectiveId)
    requires Represents(h, m, lay, inf) && o in m.objectives
    ensures o in h.caches.userObjs && m.objectives[o].user == Some(h.caches.userObjs[o])
    ensures h.caches.costs[o := m.objectives[o].costs] == h.caches.costs
    ensures h.caches.senses[o := m.objectives[o].sense] == h.caches.senses
    ensures h.caches.offsets[o := m.objectives[o].constant] == h.caches.offsets
    ensures o in h.caches.costs && CostCache(h, o) == m.objectives[o].costs
    ensures m.objectives[o].costs.Keys <= m.variables.Keys
    ensures IsActive(h, o) ==>
      && h.native.costs == CellsOf(m.objectives[o].costs, lay.cols)
      && h.native.offset == m.objectives[o].constant
      && h.native.sense == m.objectives[o].sense
  {
    hide Shows, ReferencesResolve;
    ObjectiveIsCached(m, inf, o);
    ActiveUserIdentifies(m, o);
    PolicyIsNative(h, m, lay, inf);
  }

  lemma ObjectiveIsCached(m: Model, inf: real, o: ObjectiveId)
    requires WellFormed(m) && o in m.objectives
    ensures
      var c := CachesOf(m, inf);
      && o in c.userObjs && m.objectives[o].user == Some(c.userObjs[o])
      && c.costs[o := m.objectives[o].costs] == c.costs
      && c.senses[o := m.objectives[o].sense] == c.senses
      && c.offsets[o := m.objectives[o].constant] == c.offsets
      && o in c.costs && c.costs[o] == m.objectives[o].costs && c.active == ActiveUser(m)
    ensures m.objectives[o].costs.Keys <= m.variables.Keys
  {
    hide VarBoundsOf, RowBoundsOf, UserVarsOf, UserRowsOf;
  }

  lemma PolicyIsNative(h: Held, m: Model, lay: Layout, inf: real)
    requires Represents(h, m, lay, inf)
    ensures m.policy.Single? ==>
      var o := m.policy.objective;
      && o in m.objectives
      && h.native.costs == CellsOf(m.objectives[o].costs, lay.cols)
      && h.native.offset == m.objectives[o].constant
      && h.native.sense == m.objectives[o].sense
  {
    hide CachesOf, CellsOf;
    SurfaceIsActive(m);
  }

  /** New costs of one objective: cached always, written to the native surface when it is active. */
  lemma CostCacheStep(h: Held, m: Model, lay: Layout, o: ObjectiveId, c: map<VariableId, real>, h': Held, inf: real)
    requires Represents(h, m, lay, inf) && o in m.objectives && c.Keys <= m.variables.Keys
    requires h'.native == if h.caches.active == m.objectives[o].user
      then h.native.(costs := CellsOf(c, lay.cols)) else h.native
    requires h'.colMap == h.colMap && h'.rowMap == h.rowMap
    requires h'.caches == h.caches.(costs := h.caches.costs[o := c])
    ensures Represents(h', WithCosts(m, o, c), lay, inf)
  {
    ActiveIsShown(h, m, lay, inf, o);
    hide Represents;
    ObjectiveSimulates(h, m, lay, inf, o, m.objectives[o].(costs := c), h');
  }

  /** The state in which objective `o` has costs `c`, cached and, when it is active, shown. */
  ghost function WithShownCosts(h: Held, cols: seq<VariableId>, o: ObjectiveId, c: map<VariableId, real>): Held
    requires o in h.caches.userObjs
  {
    h.(native := if IsActive(h, o) then h.native.(costs := CellsOf(c, cols)) else h.native,
       caches := h.caches.(costs := h.caches.costs[o := c]))
  }

  lemma CostWrittenShows(
      h: Held, m: Model, lay: Layout, o: ObjectiveId, v: VariableId, c: map<VariableId, real>, inf: real)
    requires Represents(h, m, lay, inf) && o in m.objectives && v in m.variables
    requires DiffersAt(c, m.objectives[o].costs, v)
    ensures o in h.caches.userObjs
    ensures CostWritten(h, o, v, Cell(c, v), h.caches.costs[o := c]) == Some(WithShownCosts(h, lay.cols, o, c))
  {
    hide Represents, WellFormed, CachesOf;
    RepresentsMeasures(h, m, lay, inf);
    ActiveIsShown(h, m, lay, inf, o);
    CellsDifferAt(c, m.objectives[o].costs, lay.cols, h.colMap, v);
  }

  lemma CostStep(h: Held, m: Model, lay: Layout, o: ObjectiveId, v: VariableId, c: map<VariableId, real>, inf: real)
    requires Represents(h, m, lay, inf) && o in m.objectives && v in m.variables
    requires DiffersAt(c, m.objectives[o].costs, v)
    ensures CostWritten(h, o, v, Cell(c, v), h.caches.costs[o := c]).Some?
    ensures Represents(CostWritten(h, o, v, Cell(c, v), h.caches.costs[o := c]).value, WithCosts(m, o, c), lay, inf)
  {
    hide Represents;
    CostWrittenShows(h, m, lay, o, v, c, inf);
    ActiveIsShown(h, m, lay, inf, o);
    CostCacheStep(h, m, lay, o, c, WithShownCosts(h, lay.cols, o, c), inf);
  }

  lemma PackedCostsShow(
      h: Held, m: Model, lay: Layout, o: ObjectiveId, costs: seq<(VariableId, real)>, origins: Origins, inf: real)
    requires Represents(h, m, lay, inf) && o in m.objectives && Refers(costs, m.variables.Keys)
    ensures o in h.caches.userObjs
    ensures HeldAfter(h, SetObjectiveCosts(o, costs), origins, inf)
      == Some(WithShownCosts(h, lay.cols, o, m.objectives[o].costs + ToMap(costs)))
  {
    hide Represents, WellFormed, CachesOf;
    RepresentsMeasures(h, m, lay, inf);
    ActiveIsShown(h, m, lay, inf, o);
    ScatterOverridesCells(m.objectives[o].costs, costs, lay.cols, h.colMap);
  }

  lemma CostsStep(
      h: Held, m: Model, lay: Layout, o: ObjectiveId, costs: seq<(VariableId, real)>, origins: Origins, inf: real)
    requires Represents(h, m, lay, inf) && o in m.objectives && Refers(costs, m.variables.Keys)
    ensures Simulates(h, m, lay, SetObjectiveCosts(o, costs), origins, inf)
  {
    hide Represents, CellsOf, CostCache;
    PackedCostsShow(h, m, lay, o, costs, origins, inf);
    ActiveIsShown(h, m, lay, inf, o);
    ToMapRefers(costs, m.variables.Keys);
    var c := m.objectives[o].costs + ToMap(costs);
    CostCacheStep(h, m, lay, o, c, WithShownCosts(h, lay.cols, o, c), inf);
  }

  lemma ConstantStep(h: Held, m: Model, lay: Layout, o: ObjectiveId, x: real, origins: Origins, inf: real)
    requires Represents(h, m, lay, inf) && o in m.objectives
    ensures Simulates(h, m, lay, SetObjectiveConstant(o, x), origins, inf)
  {
    hide Represents;
    ActiveIsShown(h, m, lay, inf, o);
    var after := HeldAfter(h, SetObjectiveConstant(o, x), origins, inf);
    ObjectiveSimulates(h, m, lay, inf, o, m.objectives[o].(constant := x), after.value);
  }

  lemma SenseStep(h: Held, m: Model, lay: Layout, o: ObjectiveId, s: Sense, origins: Origins, inf: real)
    requires Represents(h, m, lay, inf) && o in m.objectives
    ensures Simulates(h, m, lay, SetObjectiveSense(o, s), origins, inf)
  {
    hide Represents;
    ActiveIsShown(h, m, lay, inf, o);
    var after := HeldAfter(h, SetObjectiveSense(o, s), origins, inf);
    ObjectiveSimulates(h, m, lay, inf, o, m.objectives[o].(sense := s), after.value);
  }

  lemma PolicyStep(h: Held, m: Model, lay: Layout, p: Policy, origins: Origins, inf: real)
    requires Represents(h, m, lay, inf) && Representable(p) && PolicyResolves(p, m.objectives.Keys)
    ensures Simulates(h, m, lay, SetObjectivePolicy(p), origins, inf)
  {
    hide Represents;
    PolicySimulates(h, m, lay, inf, p, h, PolicyShown(h, p));
  }

  /**
   * Delta refines rebuild, one op: after every op that passes the preflight check the held state is
   * what the updated compiled model demands.
   */
  lemma OpSimulates(h: Held, m: Model, lay: Layout, op: BackendOp, origins: Origins, inf: real)
    requires Represents(h, m, lay, inf)
    requires OpValid(op, RegistryOf(m), origins) && Compiled(op, m, origins) && PolicyRepresentable(op)
    ensures Simulates(h, m, lay, op, origins, inf)
  {
    hide Represents;
    match op {
      case AddVariable(v) => AddVariableStep(h, m, lay, v, origins, inf);
      case RemoveVariable(id) => RemoveVariableStep(h, m, lay, id, origins, inf);
      case SetVariableBounds(v, b) => VariableBoundsStep(h, m, lay, v, b, origins, inf);
      case AddLinearRow(r) => AddRowStep(h, m, lay, r, origins, inf);
      case RemoveLinearRow(id) => RemoveRowStep(h, m, lay, id, origins, inf);
      case SetLinearRowBounds(r, b) => RowBoundsStep(h, m, lay, r, b, origins, inf);
      case SetLinearCoefficient(r, v, x) =>
        CellChanges(m.rows[r].coefficients, v, x);
        CoefficientStep(h, m, lay, r, v, m.rows[r].coefficients[v := x], inf);
      case RemoveLinearCoefficient(r, v) =>
        CellChanges(m.rows[r].coefficients, v, 0.0);
        CoefficientStep(h, m, lay, r, v, m.rows[r].coefficients - {v}, inf);
      case AddObjective(o) => AddObjectiveStep(h, m, lay, o, origins, inf);
      case RemoveObjective(id) => RemoveObjectiveStep(h, m, lay, id, origins, inf);
      case SetObjectiveCoefficient(o, v, x) =>
        ActiveIsShown(h, m, lay, inf, o);
        CellChanges(m.objectives[o].costs, v, x);
        CostStep(h, m, lay, o, v, m.objectives[o].costs[v := x], inf);
      case SetObjectiveCosts(o, costs) => CostsStep(h, m, lay, o, costs, origins, inf);
      case RemoveObjectiveCoefficient(o, v) =>
        ActiveIsShown(h, m, lay, inf, o);
        CellChanges(m.objectives[o].costs, v, 0.0);
        CostStep(h, m, lay, o, v, m.objectives[o].costs - {v}, inf);
      case SetObjectiveConstant(o, x) => ConstantStep(h, m, lay, o, x, origins, inf);
      case SetObjectiveSense(o, s) => SenseStep(h, m, lay, o, s, origins, inf);
      case SetObjectivePolicy(p) => PolicyStep(h, m, lay, p, origins, inf);
    }
  }

  // ---------------------------------------------------------------- whole batches

  /** The code's effect on the held state, op by op; `None` where an arm finds something missing. */
  ghost function HeldAfterAll(h: Held, ops: seq<BackendOp>, origins: Origins, inf: real): Option<Held>
    decreases |ops|
  {
    if |ops| == 0 then Some(h)
    else
      var next := HeldAfter(h, ops[0], origins, inf);
      if next.None? then None else HeldAfterAll(next.value, ops[1..], origins, inf)
  }

  lemma {:induction false} HeldAfterSnoc(h: Held, ops: seq<BackendOp>, op: BackendOp, origins: Origins, inf: real)
    ensures
      var before := HeldAfterAll(h, ops, origins, inf);
      HeldAfterAll(h, ops + [op], origins, inf)
      == if before.None? then None else HeldAfter(before.value, op, origins, inf)
    decreases |ops|
  {
    hide HeldAfter;
    if |ops| == 0 {
      assert ([] + [op])[1..] == [];
    } else {
      assert (ops + [op])[1..] == ops[1..] + [op];
      var next := HeldAfter(h, ops[0], origins, inf);
      if next.Some? { HeldAfterSnoc(next.value, ops[1..], op, origins, inf); }
    }
  }

  /** What `validate` and the compiler promise about a batch for `m`. */
  ghost predicate Issuable(m: Model, ops: seq<BackendOp>, origins: Origins) {
    && OpsValid(ops, RegistryOf(m), origins) && CompiledAll(ops, m, origins)
    && forall i :: 0 <= i < |ops| ==> PolicyRepresentable(ops[i])
  }

  /** From a state that represents `m`, a batch issued for `m` arrives at the updated model. */
  lemma {:induction false} AllSimulate(h: Held, m: Model, lay: Layout, ops: seq<BackendOp>, origins: Origins, inf: real)
    returns (lay': Layout)
    requires Represents(h, m, lay, inf) && Issuable(m, ops, origins)
    ensures
      var after := HeldAfterAll(h, ops, origins, inf);
      after.Some? && Represents(after.value, ApplyAll(m, ops, origins), lay', inf)
    decreases |ops|
  {
    hide Represents, OpValid, Compiled, PolicyRepresentable, HeldAfter, LayoutAfter, Apply, Registered, RegistryOf;
    lay' := lay;
    if |ops| != 0 {
      OpSimulates(h, m, lay, ops[0], origins, inf);
      ApplyRegisters(m, ops[0], origins);
      lay' := AllSimulate(
        HeldAfter(h, ops[0], origins, inf).value, Apply(m, ops[0], origins), LayoutAfter(h, lay, ops[0]),
        ops[1..], origins, inf);
    }
  }

  // ---------------------------------------------------------------- batches on any held state

  /** The entities a session can see in what it holds; the preflight check of a delta uses nothing else. */
  function HeldRegistry(h: Held): Registry {
    Registry(h.colMap.Keys, h.rowMap.Keys, h.caches.userObjs.Keys)
  }

  lemma RepresentsRegistry(h: Held, m: Model, lay: Layout, inf: real)
    requires Represents(h, m, lay, inf)
    ensures HeldRegistry(h) == RegistryOf(m)
  {
    hide Represents;
    RepresentsMeasures(h, m, lay, inf);
  }

  /** Every objective a batch adds stems from a user objective. */
  ghost predicate ObjectivesStem(ops: seq<BackendOp>, origins: Origins) {
    forall i :: 0 <= i < |ops| && ops[i].AddObjective? ==> UserObjectiveOf(origins, ops[i].newObjective.id).Some?
  }

  lemma {:induction false} CompiledStems(ops: seq<BackendOp>, m: Model, origins: Origins)
    requires CompiledAll(ops, m, origins)
    ensures ObjectivesStem(ops, origins)
    decreases |ops|
  {
    hide Apply, UserObjectiveOf;
    if |ops| != 0 {
      CompiledStems(ops[1..], Apply(m, ops[0], origins), origins);
      forall i | 0 <= i < |ops| && ops[i].AddObjective?
        ensures UserObjectiveOf(origins, ops[i].newObjective.id).Some?
      {
        if i > 0 { assert ops[1..][i - 1] == ops[i]; }
      }
    }
  }

  lemma CellWriteKeepsMaps(h: Held, r: RowId, v: VariableId, value: real, h': Held)
    requires CoefficientWritten(h, r, v, value) == Some(h')
    ensures h' == h.(native := h'.native)
  {
  }

  lemma CostWriteKeepsMaps(
      h: Held, o: ObjectiveId, v: VariableId, value: real, costs: map<ObjectiveId, map<VariableId, real>>, h': Held)
    requires CostWritten(h, o, v, value, costs) == Some(h')
    ensures h' == h.(native := h'.native, caches := h.caches.(costs := costs))
  {
  }

  lemma PolicyKeepsMaps(h: Held, p: Policy)
    ensures
      var h' := PolicyShown(h, p);
      && h'.colMap == h.colMap && h'.rowMap == h.rowMap && h'.caches == h.caches.(active := h'.caches.active)
  {
  }

  /** The ops on variables, rows and their coefficients. */
  predicate IsStructural(op: BackendOp) {
    || op.AddVariable? || op.RemoveVariable? || op.SetVariableBounds? || op.AddLinearRow? || op.RemoveLinearRow?
    || op.SetLinearRowBounds? || op.SetLinearCoefficient? || op.RemoveLinearCoefficient?
  }

  lemma StructuralMaps(h: Held, op: BackendOp, origins: Origins, inf: real, h': Held)
    requires HeldAfter(h, op, origins, inf) == Some(h') && IsStructural(op)
    ensures h'.colMap == match op
      case AddVariable(v) => h.colMap[v.id := |h.native.cols|]
      case RemoveVariable(id) => if id in h.colMap then Shifted(h.colMap - {id}, h.colMap[id]) else h.colMap
      case _ => h.colMap
    ensures h'.rowMap == match op
      case AddLinearRow(r) => h.rowMap[r.id := |h.native.rows|]
      case RemoveLinearRow(id) => if id in h.rowMap then Shifted(h.rowMap - {id}, h.rowMap[id]) else h.rowMap
      case _ => h.rowMap
    ensures h'.caches.userObjs == h.caches.userObjs
  {
    hide WithUser, NormalizeBounds, Shifted, CoefficientWritten, CostWritten, PolicyShown, ToMap, Scatter;
    match op {
      case SetLinearCoefficient(r, v, x) => CellWriteKeepsMaps(h, r, v, x, h');
      case RemoveLinearCoefficient(r, v) => CellWriteKeepsMaps(h, r, v, 0.0, h');
      case _ =>
    }
  }

  lemma ObjectiveMaps(h: Held, op: BackendOp, origins: Origins, inf: real, h': Held)
    requires HeldAfter(h, op, origins, inf) == Some(h') && !IsStructural(op)
    ensures h'.colMap == h.colMap && h'.rowMap == h.rowMap
    ensures h'.caches.userObjs == match op
      case AddObjective(o) => WithUser(h.caches.userObjs, o.id, UserObjectiveOf(origins, o.id))
      case RemoveObjective(id) => h.caches.userObjs - {id}
      case _ => h.caches.userObjs
  {
    hide WithUser, CoefficientWritten, CostWritten, PolicyShown, UserObjectiveOf, ToMap, Scatter, ColumnPlaced,
      RowPlaced, CostCache, Refers, InRange, Zeros, IsActive, RowFits;
    match op {
      case SetObjectiveCoefficient(o, v, x) =>
        CostWriteKeepsMaps(h, o, v, x, h.caches.costs[o := CostCache(h, o)[v := x]], h');
      case RemoveObjectiveCoefficient(o, v) =>
        var rest := if o in h.caches.costs then h.caches.costs[o := h.caches.costs[o] - {v}] else h.caches.costs;
        CostWriteKeepsMaps(h, o, v, 0.0, rest, h');
      case SetObjectivePolicy(p) => PolicyKeepsMaps(h, p);
      case _ =>
    }
  }

  /** Which entities are held after one op, and at which index. */
  lemma HeldMaps(h: Held, op: BackendOp, origins: Origins, inf: real, h': Held)
    requires HeldAfter(h, op, origins, inf) == Some(h')
    ensures h'.colMap == match op
      case AddVariable(v) => h.colMap[v.id := |h.native.cols|]
      case RemoveVariable(id) => if id in h.colMap then Shifted(h.colMap - {id}, h.colMap[id]) else h.colMap
      case _ => h.colMap
    ensures h'.rowMap == match op
      case AddLinearRow(r) => h.rowMap[r.id := |h.native.rows|]
      case RemoveLinearRow(id) => if id in h.rowMap then Shifted(h.rowMap - {id}, h.rowMap[id]) else h.rowMap
      case _ => h.rowMap
    ensures h'.caches.userObjs == match op
      case AddObjective(o) => WithUser(h.caches.userObjs, o.id, UserObjectiveOf(origins, o.id))
      case RemoveObjective(id) => h.caches.userObjs - {id}
      case _ => h.caches.userObjs
  {
    hide HeldAfter, WithUser, UserObjectiveOf;
    if IsStructural(op) {
      StructuralMaps(h, op, origins, inf, h');
    } else {
      ObjectiveMaps(h, op, origins, inf, h');
    }
  }

  /** The registry of the preflight check follows what is held, whatever that is. */
  lemma HeldRegisters(h: Held, op: BackendOp, origins: Origins, inf: real, h': Held)
    requires HeldAfter(h, op, origins, inf) == Some(h') && OpValid(op, HeldRegistry(h), origins)
    requires op.AddObjective? ==> UserObjectiveOf(origins, op.newObjective.id).Some?
    ensures HeldRegistry(h') == Registered(op, HeldRegistry(h))
  {
    hide HeldAfter;
    HeldMaps(h, op, origins, inf, h');
    var left, right := HeldRegistry(h'), Registered(op, HeldRegistry(h));
    assert left.variables == right.variables;
    assert left.rows == right.rows;
    assert left.objectives == right.objectives;
  }

  /** The ops that rewrite the objective surface as a whole. */
  predicate RewritesSurface(op: BackendOp) {
    op.SetObjectivePolicy? || op.RemoveObjective?
  }

  predicate UsesSurface(ops: seq<BackendOp>) {
    exists i :: 0 <= i < |ops| && RewritesSurface(ops[i])
  }

  /** Every indexed variable has a native column of its own. */
  ghost predicate SoundColumns(h: Held) {
    && OneToOne(h.colMap)
    && |h.native.costs| == |h.native.cols|
    && (forall v :: v in h.colMap ==> 0 <= h.colMap[v] < |h.native.cols|)
  }

  lemma RepresentedColumnsAreSound(h: Held, m: Model, lay: Layout, inf: real)
    requires Represents(h, m, lay, inf)
    ensures SoundColumns(h)
  {
    hide WellFormed, CachesOf;
    ShowsIsDimensioned(h, ViewOf(m), lay, inf);
    NumbersIsBijection(h.colMap, lay.cols);
  }

  lemma HeldDimensions(h: Held, op: BackendOp, origins: Origins, inf: real, h': Held)
    requires HeldAfter(h, op, origins, inf) == Some(h')
    ensures op.AddVariable? ==>
      |h'.native.cols| == |h.native.cols| + 1 && |h'.native.costs| == |h.native.costs| + 1
    ensures op.RemoveVariable? ==>
      && op.variable in h.colMap
      && h'.native.cols == WithoutPositions(h.native.cols, {h.colMap[op.variable]})
      && h'.native.costs == WithoutPositions(h.native.costs, {h.colMap[op.variable]})
    ensures !op.AddVariable? && !op.RemoveVariable? ==> |h'.native.cols| == |h.native.cols|
    ensures !op.AddVariable? && !op.RemoveVariable? && |h.native.costs| == |h.native.cols| ==>
      |h'.native.costs| == |h.native.costs|
  {
    hide WithUser, NormalizeBounds, ToMap, Shifted, WithoutPositions;
  }

  lemma SoundColumnsStay(h: Held, op: BackendOp, origins: Origins, inf: real, h': Held)
    requires SoundColumns(h) && HeldAfter(h, op, origins, inf) == Some(h')
    ensures SoundColumns(h')
  {
    hide HeldAfter, WithoutPositions;
    HeldMaps(h, op, origins, inf, h');
    HeldDimensions(h, op, origins, inf, h');
    if op.RemoveVariable? {
      var k := h.colMap[op.variable];
      WithoutOnePosition(h.native.cols, k, {k});
      WithoutOnePosition(h.native.costs, k, {k});
    }
  }

  // ---------------------------------------------------------------- what a failed delta leaves

  /** What is known of the held state after a native call of the arm of `op` failed. */
  ghost predicate FailedOp(h: Held, op: BackendOp, h': Held) {
    match op
    case AddVariable(_) => h'.rowMap == h.rowMap && h'.caches == h.caches
    case RemoveVariable(id) => h' == h.(native := h'.native, colMap := h.colMap - {id})
    case SetVariableBounds(_, _) => h' == h
    case AddLinearRow(_) => h' == h.(native := h'.native)
    case RemoveLinearRow(id) => h' == h.(native := h'.native, rowMap := h.rowMap - {id})
    case SetLinearRowBounds(_, _) => h' == h
    case SetLinearCoefficient(_, _, _) => h' == h.(native := h'.native)
    case RemoveLinearCoefficient(_, _) => h' == h.(native := h'.native)
    case _ => h'.colMap == h.colMap && h'.rowMap == h.rowMap
  }

  /** Some op of the batch failed after all ops before it had taken effect. */
  ghost predicate Torn(h: Held, ops: seq<BackendOp>, origins: Origins, inf: real, h': Held) {
    exists k :: 0 <= k < |ops| && FailsAt(h, ops, origins, inf, k, h')
  }

  ghost predicate FailsAt(h: Held, ops: seq<BackendOp>, origins: Origins, inf: real, k: nat, h': Held)
    requires k < |ops|
  {
    var before := HeldAfterAll(h, ops[..k], origins, inf);
    before.Some? && FailedOp(before.value, ops[k], h')
  }

  /** What a delta that ends in the failure `st` leaves: a refusal changes nothing, a native failure may tear. */
  ghost predicate Leaves(st: Status, h: Held, ops: seq<BackendOp>, origins: Origins, inf: real, h': Held) {
    if st == NATIVE_FAILURE then Torn(h, ops, origins, inf, h') else h' == h
  }

  /**
   * After a delta issued for `m` ended in `st`, a nonempty delta from the same base that passes the preflight
   * check on what is held, and whose native calls succeed, arrives at its target.
   */
  ghost predicate NextLands(
      st: Status, h: Held, m: Model, lay: Layout, failed: seq<BackendOp>, failedOrigins: Origins, h': Held,
      next: seq<BackendOp>, origins: Origins, inf: real)
  {
    && Represents(h, m, lay, inf)
    && (st == NATIVE_FAILURE ==> Issuable(m, failed, failedOrigins))
    && Leaves(st, h, failed, failedOrigins, inf, h')
    && |next| != 0 && OpsValid(next, HeldRegistry(h'), origins) && Issuable(m, next, origins)
    ==>
    var after := HeldAfterAll(h', next, origins, inf);
    after.Some? ==> exists lay' :: Represents(after.value, ApplyAll(m, next, origins), lay', inf)
  }

  /**
   * The guards of a delta look at ids and revisions only. After a failed delta the next accepted one is sure to
   * arrive at its target exactly when the failure was a refusal, by a guard or for an unsupported policy.
   */
  lemma NextDeltaIsSafeExactlyAfterARefusal(st: Status, inf: real)
    requires st.Failed?
    ensures (forall h, m, lay, failed, failedOrigins, h', next, origins ::
               NextLands(st, h, m, lay, failed, failedOrigins, h', next, origins, inf)) <==> st != NATIVE_FAILURE
  {
    if st == NATIVE_FAILURE {
      NextDeltaMisses(inf);
    } else {
      forall h, m, lay, failed, failedOrigins, h', next, origins
        ensures NextLands(st, h, m, lay, failed, failedOrigins, h', next, origins, inf)
      {
        NextDeltaLands(st, h, m, lay, failed, failedOrigins, h', next, origins, inf);
      }
    }
  }

  lemma NextDeltaLands(
      st: Status, h: Held, m: Model, lay: Layout, failed: seq<BackendOp>, failedOrigins: Origins, h': Held,
      next: seq<BackendOp>, origins: Origins, inf: real)
    requires st != NATIVE_FAILURE
    ensures NextLands(st, h, m, lay, failed, failedOrigins, h', next, origins, inf)
  {
    hide Represents, Issuable, HeldAfterAll, ApplyAll, OpsValid;
    if Represents(h, m, lay, inf) && Issuable(m, next, origins) && h' == h {
      var lay' := AllSimulate(h, m, lay, next, origins, inf);
    }
  }

  /** A bound change goes through although another variable has lost its index, and the result still lacks it. */
  lemma BoundMissesVariable(
      h: Held, m: Model, v: VariableId, w: VariableId, b: Bounds, ops: seq<BackendOp>, origins: Origins, inf: real)
    requires ops == [SetVariableBounds(w, b)] && v in m.variables && v !in h.colMap
    ensures
      var after := HeldAfterAll(h, ops, origins, inf);
      && (after.Some? <==> w in h.colMap && 0 <= h.colMap[w] < |h.native.cols|)
      && (after.Some? ==> forall lay :: !Represents(after.value, ApplyAll(m, ops, origins), lay, inf))
  {
    hide Represents;
    assert ops[1..] == [];
    var after, target := HeldAfter(h, ops[0], origins, inf), Apply(m, ops[0], origins);
    assert ApplyAll(target, ops[1..], origins) == target;
    if after.Some? {
      forall lay | Represents(after.value, target, lay, inf)
        ensures false
      {
        RepresentsMeasures(after.value, target, lay, inf);
      }
    }
  }

  /** A removal forgets the index before the native call that may fail. */
  lemma RemovalTears(h: Held, v: VariableId, ops: seq<BackendOp>, origins: Origins, inf: real, h': Held)
    requires ops == [RemoveVariable(v)]
    ensures Torn(h, ops, origins, inf, h') <==> h' == h.(native := h'.native, colMap := h.colMap - {v})
  {
    assert ops[..0] == [];
    assert FailsAt(h, ops, origins, inf, 0, h') <==> h' == h.(native := h'.native, colMap := h.colMap - {v});
  }

  lemma OneOpIsValid(ops: seq<BackendOp>, present: Registry, origins: Origins)
    requires |ops| == 1
    ensures OpsValid(ops, present, origins) <==> OpValid(ops[0], present, origins)
  {
    hide OpValid;
    assert ops[1..] == [];
  }

  lemma VariableOpIsIssuable(m: Model, ops: seq<BackendOp>, origins: Origins)
    requires |ops| == 1 && OpValid(ops[0], RegistryOf(m), origins)
    requires ops[0].RemoveVariable? || ops[0].SetVariableBounds?
    ensures Issuable(m, ops, origins)
  {
    hide OpValid;
    OneOpIsValid(ops, RegistryOf(m), origins);
    assert ops[1..] == [];
    assert CompiledAll(ops[1..], Apply(m, ops[0], origins), origins);
  }

  /** A removal that fails natively, and a bound change from the same base: what is held then lacks a variable. */
  lemma NextDeltaMisses(inf: real)
    ensures exists h, m, lay, failed, failedOrigins, h', next, origins ::
      !NextLands(NATIVE_FAILURE, h, m, lay, failed, failedOrigins, h', next, origins, inf)
  {
    hide Represents, HeldAfter, OpsValid, Issuable, HeldAfterAll, FailsAt;
    var v, w, b := VariableId(0), VariableId(1), Bounds(Finite(2.0), Finite(3.0));
    var m, lay, h := TwoVariables(v, w, inf);
    var none := Origins(map[], map[], map[]);
    var failed, next := [RemoveVariable(v)], [SetVariableBounds(w, b)];
    var h' := h.(colMap := h.colMap - {v});
    RepresentsMeasures(h, m, lay, inf);
    RepresentsIsDimensioned(h, m, lay, inf);
    RemovalTears(h, v, failed, none, inf, h');
    VariableOpIsIssuable(m, failed, none);
    VariableOpIsIssuable(m, next, none);
    OneOpIsValid(next, HeldRegistry(h'), none);
    BoundMissesVariable(h', m, v, w, b, next, none, inf);
    assert !NextLands(NATIVE_FAILURE, h, m, lay, failed, none, h', next, none, inf);
  }

  /** A represented model with one more variable. */
  lemma OneMoreVariable(h: Held, m: Model, lay: Layout, v: VariableId, inf: real)
    returns (h': Held, m': Model, lay': Layout)
    requires Represents(h, m, lay, inf) && v !in m.variables
    ensures Represents(h', m', lay', inf) && m'.variables.Keys == m.variables.Keys + {v}
  {
    hide Represents;
    var op := AddVariable(CompiledVariable(v, Bounds(Finite(0.0), Finite(1.0)), Continuous));
    var origins := Origins(map[v := FromConstruct], map[], map[]);
    OpSimulates(h, m, lay, op, origins, inf);
    h', m', lay' := HeldAfter(h, op, origins, inf).value, Apply(m, op, origins), LayoutAfter(h, lay, op);
  }

  lemma OneVariable(v: VariableId, inf: real) returns (m: Model, lay: Layout, h: Held)
    ensures Represents(h, m, lay, inf) && m.variables.Keys == {v}
  {
    hide Represents;
    EmptyIsRepresented(inf);
    h, m, lay := OneMoreVariable(
      Held(EMPTY_MODEL, map[], map[], CachesOf(NO_MODEL, inf)), NO_MODEL, Layout([], []), v, inf);
  }

  lemma TwoVariables(v: VariableId, w: VariableId, inf: real) returns (m: Model, lay: Layout, h: Held)
    requires v != w
    ensures Represents(h, m, lay, inf) && m.variables.Keys == {v, w}
  {
    hide Represents;
    m, lay, h := OneVariable(v, inf);
    h, m, lay := OneMoreVariable(h, m, lay, w, inf);
  }

  // ---------------------------------------------------------------- a rebuild in progress

  /** Columns and rows placed so far show part of a model, with no objective yet. */
  ghost predicate Partly(
      h: Held, variables: map<VariableId, VariableData>, rows: map<RowId, RowData>, lay: Layout, inf: real)
  {
    && Shows(h, View(variables, rows, None), lay, inf)
    && h.caches.varBounds == VarBoundsOf(variables, inf)
    && h.caches.rowBounds == RowBoundsOf(rows, inf)
  }

  lemma PartlyAddsColumn(
      h: Held, variables: map<VariableId, VariableData>, lay: Layout, inf: real, v: CompiledVariable, origins: Origins)
    requires Partly(h, variables, map[], lay, inf) && v.id !in variables
    ensures Partly(ColumnPlaced(h, v, inf), variables[v.id := NewVariable(v, origins)], map[],
        lay.(cols := lay.cols + [v.id]), inf)
  {
    hide Shows, NormalizeBounds;
    PartlyMeasures(h, variables, map[], lay, inf);
    var d := NewVariable(v, origins);
    ShowsAddedColumn(h, View(variables, map[], None), lay, inf, v.id, d, ColumnPlaced(h, v, inf));
    assert VarBoundsOf(variables[v.id := d], inf) ==
      VarBoundsOf(variables, inf)[v.id := NormalizeBounds(d.bounds, inf)];
  }

  lemma PartlyAddsRow(
      h: Held, variables: map<VariableId, VariableData>, rows: map<RowId, RowData>, lay: Layout, inf: real,
      r: CompiledRow, origins: Origins)
    requires Partly(h, variables, rows, lay, inf) && r.id !in rows && RowFits(h, r)
    ensures Partly(RowPlaced(h, r, inf), variables, rows[r.id := NewRow(r, origins)], lay.(rows := lay.rows + [r.id]),
        inf)
  {
    hide Shows;
    var d := NewRow(r, origins);
    ShowsAddedRow(h, View(variables, rows, None), lay, inf, r.id, d, r.coefficients, RowPlaced(h, r, inf));
    assert RowBoundsOf(rows[r.id := d], inf) == RowBoundsOf(rows, inf)[r.id := NormalizeBounds(d.bounds, inf)];
  }

  lemma EmptyIsPartly(inf: real)
    ensures forall c: Caches :: c.varBounds == map[] && c.rowBounds == map[] ==>
      Partly(Held(EMPTY_MODEL, map[], map[], c), map[], map[], Layout([], []), inf)
  {
    assert Project(View(map[], map[], None), Layout([], []), Minimize, inf) == EMPTY_MODEL;
  }

  lemma PartlyMeasures(
      h: Held, variables: map<VariableId, VariableData>, rows: map<RowId, RowData>, lay: Layout, inf: real)
    requires Partly(h, variables, rows, lay, inf)
    ensures Numbers(h.colMap, lay.cols) && |h.native.cols| == |h.native.costs| == |lay.cols|
    ensures h.native.costs == Zeros(|lay.cols|) && h.native.offset == 0.0
    ensures h.colMap.Keys == variables.Keys
  {
  }

  lemma PartlyCaches(h: Held, m: Model, lay: Layout, inf: real)
    requires Partly(h, m.variables, m.rows, lay, inf)
    requires h.caches == CachesOf(m, inf).(
      varBounds := h.caches.varBounds, rowBounds := h.caches.rowBounds, active := h.caches.active)
    ensures h.caches.(active := None) == CachesOf(m, inf).(active := None)
  {
    hide Shows;
  }

  lemma PartlyIgnoresOtherCaches(
      h: Held, variables: map<VariableId, VariableData>, rows: map<RowId, RowData>, lay: Layout, inf: real, h': Held)
    requires Partly(h, variables, rows, lay, inf)
    requires h'.native == h.native && h'.colMap == h.colMap && h'.rowMap == h.rowMap
    requires h'.caches.varBounds == h.caches.varBounds && h'.caches.rowBounds == h.caches.rowBounds
    ensures Partly(h', variables, rows, lay, inf)
    ensures h'.caches.varBounds == VarBoundsOf(variables, inf) && h'.caches.rowBounds == RowBoundsOf(rows, inf)
  {
  }

  /** A policy whose objective has a user handle finds it in every cache; any other shows nothing. */
  lemma PolicyIsCached(m: Model, inf: real)
    ensures
      var c := CachesOf(m, inf);
      if m.policy.Single? && m.policy.objective in c.userObjs then
        var o := m.policy.objective;
        && o in c.costs && o in c.senses && o in c.offsets
        && ActiveUser(m) == Some(c.userObjs[o])
        && SurfaceOf(m) == Some(Surface(c.costs[o], c.senses[o], c.offsets[o]))
      else ActiveUser(m) == None && SurfaceOf(m) == None
  {
  }

  /** Natively and in every cache what `m` demands; `m` may have objectives without a user handle. */
  ghost predicate Holds(h: Held, m: Model, lay: Layout, inf: real) {
    Shows(h, ViewOf(m), lay, inf) && h.caches == CachesOf(m, inf)
  }

  /** The last step of a rebuild: the surface of the policy, on top of cleared costs. */
  lemma RebuildCompletes(h: Held, m: Model, lay: Layout, inf: real, h': Held)
    requires Partly(h, m.variables, m.rows, lay, inf) && ReferencesResolve(m)
    requires h.caches.(active := None) == CachesOf(m, inf).(active := None)
    requires h'.colMap == h.colMap && h'.rowMap == h.rowMap
    requires h'.caches == h.caches.(active := ActiveUser(m))
    requires
      var s := SurfaceOf(m);
      h'.native == if s.Some?
        then h.native.(costs := CellsOf(s.value.costs, lay.cols), sense := s.value.sense, offset := s.value.offset)
        else h.native
    ensures Holds(h', m, lay, inf)
  {
    ShowsSurface(h, View(m.variables, m.rows, None), lay, inf, SurfaceOf(m), h');
    assert ViewOf(m) == View(m.variables, m.rows, None).(surface := SurfaceOf(m));
  }

  // ---------------------------------------------------------------- the remembered policy

  /** The policy a session remembers after a batch: that of the last policy op, if there is one. */
  function TrackedPolicy(was: Policy, ops: seq<BackendOp>): Policy {
    if |ops| == 0 then was
    else if ops[|ops| - 1].SetObjectivePolicy? then ops[|ops| - 1].policy
    else TrackedPolicy(was, ops[..|ops| - 1])
  }

  /** No op after the last policy op removes the objective that the policy names. */
  predicate Settled(was: Policy, ops: seq<BackendOp>) {
    |ops| == 0
    || ops[|ops| - 1].SetObjectivePolicy?
    || (&& Settled(was, ops[..|ops| - 1])
        && (ops[|ops| - 1].RemoveObjective? ==>
              TrackedPolicy(was, ops[..|ops| - 1]) != Single(ops[|ops| - 1].objective)))
  }

  lemma PolicyAfter(m: Model, op: BackendOp, origins: Origins)
    ensures Apply(m, op, origins).policy ==
      if op.SetObjectivePolicy? then op.policy
      else if op.RemoveObjective? && m.policy == Single(op.objective) then NoObjective
      else m.policy
  {
  }

  /** Remembering only policy ops is right exactly for settled batches. */
  lemma {:induction false} TrackingIsExactlySettled(m: Model, ops: seq<BackendOp>, origins: Origins)
    ensures ApplyAll(m, ops, origins).policy == TrackedPolicy(m.policy, ops) <==> Settled(m.policy, ops)
    ensures ApplyAll(m, ops, origins).policy in {TrackedPolicy(m.policy, ops), NoObjective}
  {
    if |ops| == 0 { return; }
    var k := |ops| - 1;
    assert ops[..k] + [ops[k]] == ops;
    ApplyAllSnoc(m, ops[..k], ops[k], origins);
    PolicyAfter(ApplyAll(m, ops[..k], origins), ops[k], origins);
    TrackingIsExactlySettled(m, ops[..k], origins);
    hide Apply, ApplyAll;
  }

  /** A batch that only removes the active objective leaves the session remembering that objective. */
  lemma UnsettledBatchIsMisremembered(o: ObjectiveId, m: Model, origins: Origins)
    requires m.policy == Single(o)
    ensures TrackedPolicy(m.policy, [RemoveObjective(o)]) == Single(o)
    ensures ApplyAll(m, [RemoveObjective(o)], origins).policy == NoObjective
  {
    TrackingIsExactlySettled(m, [RemoveObjective(o)], origins);
    assert [RemoveObjective(o)][..0] == [];
  }
}
