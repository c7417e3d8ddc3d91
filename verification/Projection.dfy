/**
 * roml-highs/src/compiler.rs: the projection of backend IR onto the native solver. The class holds
 * what the Rust functions receive as `&mut` parameters.
 */
module Projecting {
  import opened Common
  import opened BackendIr
  import opened Highs
  import opened IndexMaps
  import opened CompiledModels
  import opened NativeViews
  import opened Caching
  import opened Representing
  import opened SnapshotModels

  lemma VariableGone(h: Held, id: VariableId, origins: Origins, inf: real)
    ensures HeldAfter(h, BackendOp.RemoveVariable(id), origins, inf)
      == if id !in h.colMap then None else Some(Held(
           WithoutColumns(h.native, {h.colMap[id]}),
           Shifted(h.colMap - {id}, h.colMap[id]), h.rowMap,
           h.caches.(varBounds := h.caches.varBounds - {id},
                     userVars := h.caches.userVars - {id},
                     costs := map o | o in h.caches.costs :: h.caches.costs[o] - {id})))
  {
  }

  lemma ObjectiveGone(h: Held, id: ObjectiveId, origins: Origins, inf: real)
    ensures id in h.caches.userObjs ==>
      var was := Some(h.caches.userObjs[id]) == h.caches.active;
      HeldAfter(h, BackendOp.RemoveObjective(id), origins, inf) == Some(h.(
        native := if was then h.native.(costs := Zeros(|h.native.cols|), offset := 0.0) else h.native,
        caches := h.caches.(
          userObjs := h.caches.userObjs - {id}, costs := h.caches.costs - {id},
          senses := h.caches.senses - {id}, offsets := h.caches.offsets - {id},
          active := if was then None else h.caches.active)))
  {
  }

  lemma NoOps(h: Held, ops: seq<BackendOp>, origins: Origins, inf: real)
    ensures HeldAfterAll(h, ops[..0], origins, inf) == Some(h) && ops[0..] == ops
  {
  }

  /** One more op of a batch: what is held, its columns and the rest of the preflight check stay in step. */
  lemma OpsGoOn(
      h: Held, ops: seq<BackendOp>, k: nat, before: Held, after: Held, origins: Origins, inf: real)
    requires k < |ops| && HeldAfterAll(h, ops[..k], origins, inf) == Some(before)
    requires HeldAfter(before, ops[k], origins, inf) == Some(after)
    ensures HeldAfterAll(h, ops[..k + 1], origins, inf) == Some(after)
    ensures SoundColumns(before) ==> SoundColumns(after)
    ensures ObjectivesStem(ops, origins) && OpsValid(ops[k..], HeldRegistry(before), origins) ==>
      OpsValid(ops[k + 1..], HeldRegistry(after), origins)
  {
    hide SoundColumns, HeldAfterAll, HeldAfter, OpValid, HeldRegistry, Registered, UserObjectiveOf;
    assert ops[..k + 1] == ops[..k] + [ops[k]];
    HeldAfterSnoc(h, ops[..k], ops[k], origins, inf);
    if SoundColumns(before) { SoundColumnsStay(before, ops[k], origins, inf, after); }
    assert ops[k..][1..] == ops[k + 1..];
    if ObjectivesStem(ops, origins) && OpsValid(ops[k..], HeldRegistry(before), origins) {
      HeldRegisters(before, ops[k], origins, inf, after);
    }
  }

  lemma SetTwice<K, V>(m: map<K, V>, k: K, first: V, second: V)
    ensures m[k := first][k := second] == m[k := second]
  {
  }

  class Projection {
    const highs: HighsModel
    const colMap: IndexMap<VariableId>
    const rowMap: IndexMap<RowId>
    const inf: real
    var userVars: map<VariableId, UserVariable>
    var userRows: map<RowId, UserConstraint>
    var userObjs: map<ObjectiveId, UserObjective>
    var varBounds: map<VariableId, Range>
    var rowBounds: map<RowId, Range>
    var objCosts: map<ObjectiveId, map<VariableId, real>>
    var objSenses: map<ObjectiveId, Sense>
    var objOffsets: map<ObjectiveId, real>
    var active: Option<UserObjective>
    /** The compiled model this projection stands for while it is valid, and its numbering. */
    ghost var model: Model
    ghost var lay: Layout

    ghost const Repr: set<object> := {this, highs, colMap, rowMap}

    function CachesHeld(): Caches
      reads this
    {
      Caches(varBounds, rowBounds, userVars, userRows, userObjs, objCosts, objSenses, objOffsets, active)
    }

    function State(): Held
      reads Repr
    {
      Held(highs.m, colMap.idToIdx, rowMap.idToIdx, CachesHeld())
    }

    ghost predicate Separate() {
      highs as object != colMap && highs as object != rowMap && colMap as object != rowMap
      && this as object !in {highs, colMap, rowMap}
    }

    ghost predicate Valid()
      reads Repr
    {
      Separate() && Represents(State(), model, lay, inf)
    }

    constructor (inf: real)
      ensures Valid() && model == NO_MODEL && this.inf == inf
      ensures fresh(Repr)
    {
      this.inf := inf;
      highs := new HighsModel();
      colMap := new IndexMap<VariableId>();
      rowMap := new IndexMap<RowId>();
      userVars, userRows, userObjs := map[], map[], map[];
      varBounds, rowBounds := map[], map[];
      objCosts, objSenses, objOffsets := map[], map[], map[];
      active := None;
      model, lay := NO_MODEL, Layout([], []);
      new;
      EmptyIsRepresented(inf);
      hide Represents, CachesOf;
    }

    // -------------------------------------------------------------- objective surface

    /** `clear_all_costs`. */
    method ClearAllCosts() returns (st: Status)
      requires |highs.m.costs| == |highs.m.cols|
      modifies highs
      ensures st.Ok? || st == NATIVE_FAILURE
      ensures st.Ok? ==> highs.m == old(highs.m).(costs := Zeros(|old(highs.m.cols)|))
    {
      var n := |highs.m.cols|;
      if n > 0 {
        var ok := highs.ChangeColsCostByRange(0, n - 1, Zeros(n));
        if !ok { return NATIVE_FAILURE; }
        assert old(highs.m.costs)[..0] + Zeros(n) + old(highs.m.costs)[n..] == Zeros(n);
      } else {
        assert highs.m.costs == Zeros(0);
      }
      return Ok;
    }

    /** The loop that writes one objective's costs column by column, in any order. */
    method WriteCosts(costs: map<VariableId, real>) returns (st: Status)
      requires Separate() && OneToOne(colMap.idToIdx)
      modifies highs
      ensures st.Ok? || st == NATIVE_FAILURE
      ensures st.Ok? ==>
        highs.m == old(highs.m).(costs := AllWritten(old(highs.m.costs), colMap.idToIdx, costs, NEW_COST))
    {
      hide OneToOne;
      var todo := costs.Keys;
      ghost var was, written: map<VariableId, real> := highs.m.costs, map[];
      AllWrittenNothing(was, colMap.idToIdx, NEW_COST);
      while todo != {}
        invariant todo <= costs.Keys && written.Keys == costs.Keys - todo
        invariant forall v :: v in written ==> written[v] == costs[v]
        invariant highs.m == old(highs.m).(costs := AllWritten(was, colMap.idToIdx, written, NEW_COST))
        decreases todo
      {
        var v :| v in todo;
        var col := colMap.Get(v);
        if col.Some? {
          var ok := highs.ChangeColCost(col.value, costs[v]);
          if !ok { return NATIVE_FAILURE; }
          AllWrittenNext(was, colMap.idToIdx, written, NEW_COST, v, costs[v]);
        } else {
          AllWrittenAbsent(was, colMap.idToIdx, written, NEW_COST, v, costs[v]);
        }
        written := written[v := costs[v]];
        todo := todo - {v};
      }
      assert written == costs;
      return Ok;
    }

    /** `project_objective_policy`, shared by the delta arm and by both overlay directions. */
    method ProjectObjectivePolicy(policy: Policy) returns (st: Status)
      requires Separate() && OneToOne(colMap.idToIdx) && |highs.m.costs| == |highs.m.cols|
      modifies highs, this`active
      ensures st.Failed? ==>
        st == NATIVE_FAILURE || (st == Failed(UnsupportedPolicy, RequiresRebuild) && !Representable(policy))
      ensures st.Ok? ==> Representable(policy) && State() == PolicyShown(old(State()), policy)
    {
      hide OneToOne, AllWritten;
      st := ClearAllCosts();
      if st.Failed? { return; }
      NoCostsWritten(|highs.m.cols|, colMap.idToIdx);
      match policy {
        case Single(o) =>
          if o in userObjs {
            if o in objCosts {
              st := WriteCosts(objCosts[o]);
              if st.Failed? { return; }
            }
            if o in objSenses {
              var ok := highs.ChangeObjectiveSense(objSenses[o]);
              if !ok { return NATIVE_FAILURE; }
            }
            if o in objOffsets {
              var ok := highs.ChangeObjectiveOffset(objOffsets[o]);
              if !ok { return NATIVE_FAILURE; }
            }
            active := Some(userObjs[o]);
          }
        case NoObjective =>
          var ok := highs.ChangeObjectiveOffset(0.0);
          if !ok { return NATIVE_FAILURE; }
          active := None;
        case Weighted(_) => return UNSUPPORTED;
        case Lexicographic(_) => return UNSUPPORTED;
      }
      return Ok;
    }

    // -------------------------------------------------------------- delta ops

    /** Native indices and values of a coefficient list, unless a variable has no column. */
    method ResolveColumns(entries: seq<(VariableId, real)>)
      returns (found: bool, indices: seq<int>, values: seq<real>)
      ensures found <==> Refers(entries, colMap.idToIdx.Keys)
      ensures found ==> indices == IndicesOf(colMap.idToIdx, entries) && values == ValuesOf(entries)
      ensures |indices| == |values|
    {
      indices, values := [], [];
      var k := 0;
      while k < |entries|
        invariant 0 <= k <= |entries| && |indices| == |values| == k
        invariant Refers(entries[..k], colMap.idToIdx.Keys)
        invariant indices == IndicesOf(colMap.idToIdx, entries[..k]) && values == ValuesOf(entries[..k])
      {
        var col := colMap.Get(entries[k].0);
        if col.None? { return false, indices, values; }
        indices, values := indices + [col.value], values + [entries[k].1];
        k := k + 1;
      }
      assert entries[..|entries|] == entries;
      return true, indices, values;
    }

    /** `project_temporary_objective`: every coefficient is resolved before any cost is cleared. */
    method ProjectTemporaryObjective(o: CompiledObjective) returns (st: Status)
      requires Separate() && |highs.m.costs| == |highs.m.cols|
      modifies highs
      ensures st.Failed? ==> st == NATIVE_FAILURE || (st == MISSING && !Refers(o.coefficients, colMap.idToIdx.Keys))
      ensures st == MISSING ==> highs.m == old(highs.m)
      ensures st.Ok? ==> Refers(o.coefficients, colMap.idToIdx.Keys)
      ensures st.Ok? ==>
        var n, indices := |old(highs.m.cols)|, IndicesOf(colMap.idToIdx, o.coefficients);
        && InRange(indices, n)
        && highs.m == old(highs.m).(
             costs := Scatter(Zeros(n), indices, ValuesOf(o.coefficients)), sense := o.sense, offset := o.constant)
    {
      var found, indices, values := ResolveColumns(o.coefficients);
      if !found { return MISSING; }
      st := ClearAllCosts();
      if st.Failed? { return; }
      ghost var n := |highs.m.cols|;
      var k := 0;
      while k < |indices|
        invariant 0 <= k <= |indices| && InRange(indices[..k], n)
        invariant highs.m == old(highs.m).(costs := Scatter(Zeros(n), indices[..k], values[..k]))
      {
        assert indices[..k + 1][..k] == indices[..k] && values[..k + 1][..k] == values[..k];
        var ok := highs.ChangeColCost(indices[k], values[k]);
        if !ok { return NATIVE_FAILURE; }
        k := k + 1;
      }
      assert indices[..|indices|] == indices && values[..|indices|] == values;
      var ok := highs.ChangeObjectiveSense(o.sense);
      if !ok { return NATIVE_FAILURE; }
      ok := highs.ChangeObjectiveOffset(o.constant);
      if !ok { return NATIVE_FAILURE; }
      return Ok;
    }

    /** Appends one native column and records its index and bounds. */
    method PlaceColumn(v: CompiledVariable) returns (st: Status)
      requires Separate()
      modifies highs, colMap, this`varBounds
      ensures st.Ok? || st == NATIVE_FAILURE
      ensures st.Failed? ==> varBounds == old(varBounds)
      ensures st.Ok? ==> State() == ColumnPlaced(old(State()), v, inf)
    {
      var bounds := NormalizeBounds(v.bounds, inf);
      var col := |highs.m.cols|;
      var ok := highs.AddVar(bounds);
      if !ok { return NATIVE_FAILURE; }
      colMap.Insert(v.id, col);
      if !v.varType.Continuous? {
        ok := highs.ChangeColIntegrality(col);
        if !ok { return NATIVE_FAILURE; }
      }
      varBounds := varBounds[v.id := bounds];
      return Ok;
    }

    /** Appends one native row with its coefficients and records its index and bounds. */
    method PlaceRow(r: CompiledRow) returns (st: Status)
      requires Separate()
      modifies highs, rowMap, this`rowBounds
      ensures st.Failed? ==> st == NATIVE_FAILURE || (st == MISSING && !Refers(r.coefficients, colMap.idToIdx.Keys))
      ensures st.Failed? ==> rowMap.idToIdx == old(rowMap.idToIdx) && rowBounds == old(rowBounds)
      ensures st.Ok? ==> RowFits(old(State()), r) && State() == RowPlaced(old(State()), r, inf)
    {
      var bounds := NormalizeBounds(r.bounds, inf);
      var row := |highs.m.rows|;
      var found, indices, values := ResolveColumns(r.coefficients);
      if !found { return MISSING; }
      var ok := highs.AddRow(bounds, indices, values);
      if !ok { return NATIVE_FAILURE; }
      rowMap.Insert(r.id, row);
      rowBounds := rowBounds[r.id := bounds];
      return Ok;
    }

    method AddVariable(v: CompiledVariable, origins: Origins) returns (st: Status)
      requires Separate()
      modifies highs, colMap, this`varBounds, this`userVars
      ensures st.Ok? || st == NATIVE_FAILURE
      ensures st.Failed? ==> FailedOp(old(State()), BackendOp.AddVariable(v), State())
      ensures st.Ok? ==> HeldAfter(old(State()), BackendOp.AddVariable(v), origins, inf) == Some(State())
    {
      st := PlaceColumn(v);
      if st.Failed? { return; }
      if v.id in origins.variables && origins.variables[v.id].FromVariable? {
        userVars := userVars[v.id := origins.variables[v.id].variable];
      }
    }

    method RemoveVariable(id: VariableId, origins: Origins) returns (st: Status)
      requires Separate()
      modifies highs, colMap, this`varBounds, this`userVars, this`objCosts
      ensures st.Failed? ==> st == NATIVE_FAILURE || (st == MISSING && id !in old(colMap.idToIdx))
      ensures st.Failed? ==> FailedOp(old(State()), BackendOp.RemoveVariable(id), State())
      ensures st.Ok? ==> HeldAfter(old(State()), BackendOp.RemoveVariable(id), origins, inf) == Some(State())
    {
      hide HeldAfter, WithoutColumns;
      VariableGone(State(), id, origins, inf);
      var idx := colMap.Remove(id);
      if idx.None? { return MISSING; }
      var ok := highs.DeleteColsBySet([idx.value]);
      if !ok { return NATIVE_FAILURE; }
      assert IndexSet([idx.value]) == {idx.value};
      colMap.ReindexAfterDelete(idx.value);
      varBounds := varBounds - {id};
      userVars := userVars - {id};
      DropFromCosts(id);
      return Ok;
    }

    /** The loop that forgets a removed variable in every objective's cost cache. */
    method DropFromCosts(id: VariableId)
      modifies this`objCosts
      ensures objCosts == map o | o in old(objCosts) :: old(objCosts)[o] - {id}
    {
      var todo := objCosts.Keys;
      while todo != {}
        invariant todo <= objCosts.Keys == old(objCosts).Keys
        invariant forall o :: o in objCosts ==>
          objCosts[o] == if o in todo then old(objCosts)[o] else old(objCosts)[o] - {id}
        decreases todo
      {
        var o :| o in todo;
        objCosts := objCosts[o := objCosts[o] - {id}];
        todo := todo - {o};
      }
    }

    method SetVariableBounds(v: VariableId, b: Bounds, origins: Origins) returns (st: Status)
      requires Separate()
      modifies highs, this`varBounds
      ensures st.Failed? ==> st == NATIVE_FAILURE || (st == MISSING && v !in colMap.idToIdx)
      ensures st.Failed? ==> FailedOp(old(State()), BackendOp.SetVariableBounds(v, b), State())
      ensures st.Ok? ==> HeldAfter(old(State()), BackendOp.SetVariableBounds(v, b), origins, inf) == Some(State())
    {
      var idx := colMap.Get(v);
      if idx.None? { return MISSING; }
      var bounds := NormalizeBounds(b, inf);
      var ok := highs.ChangeColBounds(idx.value, bounds);
      if !ok { return NATIVE_FAILURE; }
      varBounds := varBounds[v := bounds];
      return Ok;
    }

    method AddLinearRow(r: CompiledRow, origins: Origins) returns (st: Status)
      requires Separate()
      modifies highs, rowMap, this`rowBounds, this`userRows
      ensures st.Failed? ==> st == NATIVE_FAILURE || (st == MISSING && !Refers(r.coefficients, colMap.idToIdx.Keys))
      ensures st.Failed? ==> FailedOp(old(State()), BackendOp.AddLinearRow(r), State())
      ensures st.Ok? ==> HeldAfter(old(State()), BackendOp.AddLinearRow(r), origins, inf) == Some(State())
    {
      st := PlaceRow(r);
      if st.Failed? { return; }
      if r.id in origins.rows && origins.rows[r.id].FromConstraint? {
        userRows := userRows[r.id := origins.rows[r.id].constraint];
      }
    }

    method RemoveLinearRow(id: RowId, origins: Origins) returns (st: Status)
      requires Separate()
      modifies highs, rowMap, this`rowBounds, this`userRows
      ensures st.Failed? ==> st == NATIVE_FAILURE || (st == MISSING && id !in old(rowMap.idToIdx))
      ensures st.Failed? ==> FailedOp(old(State()), BackendOp.RemoveLinearRow(id), State())
      ensures st.Ok? ==> HeldAfter(old(State()), BackendOp.RemoveLinearRow(id), origins, inf) == Some(State())
    {
      var idx := rowMap.Remove(id);
      if idx.None? { return MISSING; }
      var ok := highs.DeleteRowsBySet([idx.value]);
      if !ok { return NATIVE_FAILURE; }
      assert IndexSet([idx.value]) == {idx.value};
      rowMap.ReindexAfterDelete(idx.value);
      rowBounds := rowBounds - {id};
      userRows := userRows - {id};
      return Ok;
    }

    method SetLinearRowBounds(r: RowId, b: Bounds, origins: Origins) returns (st: Status)
      requires Separate()
      modifies highs, this`rowBounds
      ensures st.Failed? ==> st == NATIVE_FAILURE || (st == MISSING && r !in rowMap.idToIdx)
      ensures st.Failed? ==> FailedOp(old(State()), BackendOp.SetLinearRowBounds(r, b), State())
      ensures st.Ok? ==> HeldAfter(old(State()), BackendOp.SetLinearRowBounds(r, b), origins, inf) == Some(State())
    {
      var idx := rowMap.Get(r);
      if idx.None? { return MISSING; }
      var bounds := NormalizeBounds(b, inf);
      var ok := highs.ChangeRowBounds(idx.value, bounds);
      if !ok { return NATIVE_FAILURE; }
      rowBounds := rowBounds[r := bounds];
      return Ok;
    }

    /** The upsert of a coefficient, and its removal as a write of zero. */
    method WriteCoefficient(r: RowId, v: VariableId, value: real) returns (st: Status)
      requires Separate()
      modifies highs
      ensures st.Failed? ==> st == NATIVE_FAILURE || (st == MISSING && (r !in rowMap.idToIdx || v !in colMap.idToIdx))
      ensures st.Ok? ==> CoefficientWritten(old(State()), r, v, value) == Some(State())
    {
      var row := rowMap.Get(r);
      if row.None? { return MISSING; }
      var col := colMap.Get(v);
      if col.None? { return MISSING; }
      var ok := highs.ChangeCoeff(row.value, col.value, value);
      if !ok { return NATIVE_FAILURE; }
      return Ok;
    }

    method AddObjective(o: CompiledObjective, origins: Origins)
      requires Separate()
      modifies this`objSenses, this`objOffsets, this`objCosts, this`userObjs
      ensures HeldAfter(old(State()), BackendOp.AddObjective(o), origins, inf) == Some(State())
    {
      objSenses := objSenses[o.id := o.sense];
      objOffsets := objOffsets[o.id := o.constant];
      objCosts := objCosts[o.id := ToMap(o.coefficients)];
      if o.id in origins.objectives && origins.objectives[o.id].FromObjective? {
        userObjs := userObjs[o.id := origins.objectives[o.id].objective];
      }
    }

    method RemoveObjective(id: ObjectiveId, origins: Origins) returns (st: Status)
      requires Separate() && |highs.m.costs| == |highs.m.cols|
      modifies highs, this`objSenses, this`objOffsets, this`objCosts, this`userObjs, this`active
      ensures st.Failed? ==> st == NATIVE_FAILURE || (st == MISSING && id !in old(userObjs))
      ensures st.Ok? ==> HeldAfter(old(State()), BackendOp.RemoveObjective(id), origins, inf) == Some(State())
    {
      hide HeldAfter, Zeros;
      ghost var h := State();
      ObjectiveGone(h, id, origins, inf);
      if id !in userObjs { return MISSING; }
      var wasActive := Some(userObjs[id]) == active;
      objSenses, objCosts, objOffsets := objSenses - {id}, objCosts - {id}, objOffsets - {id};
      userObjs := userObjs - {id};
      st := Ok;
      if wasActive { st := ClearSurface(); }
    }

    /** Zero costs, zero offset, and no active objective. */
    method ClearSurface() returns (st: Status)
      requires Separate() && |highs.m.costs| == |highs.m.cols|
      modifies highs, this`active
      ensures st.Ok? || st == NATIVE_FAILURE
      ensures st.Ok? ==> active == None && highs.m == old(highs.m).(costs := Zeros(|old(highs.m).cols|), offset := 0.0)
    {
      hide Zeros;
      st := ClearAllCosts();
      if st.Failed? { return; }
      var ok := highs.ChangeObjectiveOffset(0.0);
      if !ok { return NATIVE_FAILURE; }
      active := None;
    }

    method SetObjectiveCoefficient(o: ObjectiveId, v: VariableId, value: real, origins: Origins) returns (st: Status)
      requires Separate()
      modifies highs, this`objCosts
      ensures st.Failed? ==> st == NATIVE_FAILURE || (st == MISSING && (o !in userObjs || v !in colMap.idToIdx))
      ensures st.Ok? ==>
        HeldAfter(old(State()), BackendOp.SetObjectiveCoefficient(o, v, value), origins, inf) == Some(State())
    {
      if o !in userObjs { return MISSING; }
      var col := colMap.Get(v);
      if col.None? { return MISSING; }
      objCosts := objCosts[o := (if o in objCosts then objCosts[o] else map[])[v := value]];
      if active == Some(userObjs[o]) {
        var ok := highs.ChangeColCost(col.value, value);
        if !ok { return NATIVE_FAILURE; }
      }
      return Ok;
    }

    /** One range call over contiguous columns, otherwise one set call; both are the same write. */
    method WriteBulkCosts(cols: seq<int>, values: seq<real>) returns (ok: bool)
      requires |cols| == |values| != 0
      modifies highs
      ensures ok ==> InRange(cols, |old(highs.m.costs)|)
      ensures ok ==> highs.m == old(highs.m).(costs := Scatter(old(highs.m.costs), cols, values))
    {
      var contiguous := Contiguous(cols);
      if contiguous {
        ok := highs.ChangeColsCostByRange(cols[0], cols[|cols| - 1], values);
        if ok { RangeIsScatter(old(highs.m.costs), cols[0], cols, values); }
      } else {
        ok := highs.ChangeColsCostBySet(cols, values);
      }
    }

    method SetObjectiveCosts(o: ObjectiveId, costs: seq<(VariableId, real)>, origins: Origins) returns (st: Status)
      requires Separate()
      modifies highs, this`objCosts
      ensures st.Failed? ==>
        st == NATIVE_FAILURE || (st == MISSING && (o !in userObjs || !Refers(costs, colMap.idToIdx.Keys)))
      ensures st.Ok? ==>
        HeldAfter(old(State()), BackendOp.SetObjectiveCosts(o, costs), origins, inf) == Some(State())
    {
      if o !in userObjs { return MISSING; }
      var found, cols, values := ResolveColumns(costs);
      if !found { return MISSING; }
      CacheCosts(o, costs);
      if active == Some(userObjs[o]) && |cols| != 0 {
        var ok := WriteBulkCosts(cols, values);
        if !ok { return NATIVE_FAILURE; }
      }
      return Ok;
    }

    method CacheCosts(o: ObjectiveId, costs: seq<(VariableId, real)>)
      modifies this`objCosts
      ensures objCosts == old(objCosts)[o := (if o in old(objCosts) then old(objCosts)[o] else map[]) + ToMap(costs)]
    {
      ghost var was, before := objCosts, if o in objCosts then objCosts[o] else map[];
      if o !in objCosts { objCosts := objCosts[o := map[]]; }
      assert before + ToMap(costs[..0]) == before;
      var k := 0;
      while k < |costs|
        invariant 0 <= k <= |costs| && o in objCosts
        invariant objCosts == was[o := before + ToMap(costs[..k])]
      {
        assert costs[..k + 1][..k] == costs[..k];
        OverrideNext(before, costs[..k + 1]);
        SetTwice(was, o, before + ToMap(costs[..k]), before + ToMap(costs[..k + 1]));
        objCosts := objCosts[o := objCosts[o][costs[k].0 := costs[k].1]];
        k := k + 1;
      }
      assert costs[..|costs|] == costs;
    }

    method Contiguous(cols: seq<int>) returns (b: bool)
      requires |cols| != 0
      ensures b == forall i :: 0 <= i < |cols| ==> cols[i] == cols[0] + i
    {
      var k := 1;
      while k < |cols|
        invariant 1 <= k <= |cols|
        invariant forall i :: 0 <= i < k ==> cols[i] == cols[0] + i
      {
        if cols[k] != cols[k - 1] + 1 { return false; }
        k := k + 1;
      }
      return true;
    }

    method RemoveObjectiveCoefficient(o: ObjectiveId, v: VariableId, origins: Origins) returns (st: Status)
      requires Separate()
      modifies highs, this`objCosts
      ensures st.Failed? ==> st == NATIVE_FAILURE || (st == MISSING && (o !in userObjs || v !in colMap.idToIdx))
      ensures st.Ok? ==>
        HeldAfter(old(State()), BackendOp.RemoveObjectiveCoefficient(o, v), origins, inf) == Some(State())
    {
      if o !in userObjs { return MISSING; }
      var col := colMap.Get(v);
      if col.None? { return MISSING; }
      if active == Some(userObjs[o]) {
        var ok := highs.ChangeColCost(col.value, 0.0);
        if !ok { return NATIVE_FAILURE; }
      }
      if o in objCosts { objCosts := objCosts[o := objCosts[o] - {v}]; }
      return Ok;
    }

    method SetObjectiveConstant(o: ObjectiveId, value: real, origins: Origins) returns (st: Status)
      requires Separate()
      modifies highs, this`objOffsets
      ensures st.Failed? ==> st == NATIVE_FAILURE || (st == MISSING && o !in userObjs)
      ensures st.Ok? ==>
        HeldAfter(old(State()), BackendOp.SetObjectiveConstant(o, value), origins, inf) == Some(State())
    {
      if o !in userObjs { return MISSING; }
      objOffsets := objOffsets[o := value];
      if active == Some(userObjs[o]) {
        var ok := highs.ChangeObjectiveOffset(value);
        if !ok { return NATIVE_FAILURE; }
      }
      return Ok;
    }

    method SetObjectiveSense(o: ObjectiveId, sense: Sense, origins: Origins) returns (st: Status)
      requires Separate()
      modifies highs, this`objSenses
      ensures st.Failed? ==> st == NATIVE_FAILURE || (st == MISSING && o !in userObjs)
      ensures st.Ok? ==>
        HeldAfter(old(State()), BackendOp.SetObjectiveSense(o, sense), origins, inf) == Some(State())
    {
      if o !in userObjs { return MISSING; }
      objSenses := objSenses[o := sense];
      if active == Some(userObjs[o]) {
        var ok := highs.ChangeObjectiveSense(sense);
        if !ok { return NATIVE_FAILURE; }
      }
      return Ok;
    }

    /** Both cell ops are one native write, and the policy op is the shared projection. */
    lemma DirectOps(h: Held, op: BackendOp, origins: Origins, inf: real)
      ensures op.SetLinearCoefficient? ==>
        HeldAfter(h, op, origins, inf) == CoefficientWritten(h, op.constraint, op.variable, op.value)
      ensures op.RemoveLinearCoefficient? ==>
        HeldAfter(h, op, origins, inf) == CoefficientWritten(h, op.constraint, op.variable, 0.0)
      ensures op.SetObjectivePolicy? ==> HeldAfter(h, op, origins, inf) == Some(PolicyShown(h, op.policy))
    {
    }

    /** The arms that touch objectives. */
    method RunObjectiveOp(op: BackendOp, origins: Origins) returns (st: Status)
      requires Separate() && (RewritesSurface(op) ==> SoundColumns(State()))
      requires PolicyRepresentable(op) && !IsStructural(op)
      modifies Repr
      ensures model == old(model) && lay == old(lay)
      ensures st.Failed? ==> st == NATIVE_FAILURE || st == MISSING
      ensures st == MISSING ==> !OpValid(op, HeldRegistry(old(State())), origins)
      ensures st.Failed? ==> FailedOp(old(State()), op, State())
      ensures st.Ok? ==> HeldAfter(old(State()), op, origins, inf) == Some(State())
    {
      st := Ok;
      DirectOps(State(), op, origins, inf);
      hide HeldAfter, PolicyShown;
      match op {
        case AddObjective(o) => AddObjective(o, origins);
        case RemoveObjective(id) => st := RemoveObjective(id, origins);
        case SetObjectiveCoefficient(o, v, x) => st := SetObjectiveCoefficient(o, v, x, origins);
        case SetObjectiveCosts(o, costs) => st := SetObjectiveCosts(o, costs, origins);
        case RemoveObjectiveCoefficient(o, v) => st := RemoveObjectiveCoefficient(o, v, origins);
        case SetObjectiveConstant(o, x) => st := SetObjectiveConstant(o, x, origins);
        case SetObjectiveSense(o, s) => st := SetObjectiveSense(o, s, origins);
        case SetObjectivePolicy(p) => st := ProjectObjectivePolicy(p);
      }
    }

    /**
     * One arm of the delta loop, on whatever is held. It stops for a missing entity only where the preflight check
     * would have refused the op; a native failure leaves what `FailedOp` says.
     */
    method RunOp(op: BackendOp, origins: Origins) returns (st: Status)
      requires Separate() && (RewritesSurface(op) ==> SoundColumns(State())) && PolicyRepresentable(op)
      modifies Repr
      ensures model == old(model) && lay == old(lay)
      ensures st.Failed? ==> st == NATIVE_FAILURE || st == MISSING
      ensures st == MISSING ==> !OpValid(op, HeldRegistry(old(State())), origins)
      ensures st.Failed? ==> FailedOp(old(State()), op, State())
      ensures st.Ok? ==> HeldAfter(old(State()), op, origins, inf) == Some(State())
    {
      hide HeldAfter, SoundColumns, PolicyRepresentable, OpValid, FailedOp;
      if op.AddVariable? || op.RemoveVariable? || op.SetVariableBounds? {
        st := RunVariableOp(op, origins);
      } else if IsStructural(op) {
        st := RunRowOp(op, origins);
      } else {
        st := RunObjectiveOp(op, origins);
      }
    }

    method RunVariableOp(op: BackendOp, origins: Origins) returns (st: Status)
      requires Separate() && (op.AddVariable? || op.RemoveVariable? || op.SetVariableBounds?)
      modifies Repr
      ensures model == old(model) && lay == old(lay)
      ensures st.Failed? ==> st == NATIVE_FAILURE || st == MISSING
      ensures st == MISSING ==> !OpValid(op, HeldRegistry(old(State())), origins)
      ensures st.Failed? ==> FailedOp(old(State()), op, State())
      ensures st.Ok? ==> HeldAfter(old(State()), op, origins, inf) == Some(State())
    {
      hide HeldAfter, FailedOp;
      match op {
        case AddVariable(v) => st := AddVariable(v, origins);
        case RemoveVariable(id) => st := RemoveVariable(id, origins);
        case SetVariableBounds(v, b) => st := SetVariableBounds(v, b, origins);
      }
    }

    method RunRowOp(op: BackendOp, origins: Origins) returns (st: Status)
      requires Separate()
      requires op.AddLinearRow? || op.RemoveLinearRow? || op.SetLinearRowBounds? || op.SetLinearCoefficient?
        || op.RemoveLinearCoefficient?
      modifies Repr
      ensures model == old(model) && lay == old(lay)
      ensures st.Failed? ==> st == NATIVE_FAILURE || st == MISSING
      ensures st == MISSING ==> !OpValid(op, HeldRegistry(old(State())), origins)
      ensures st.Failed? ==> FailedOp(old(State()), op, State())
      ensures st.Ok? ==> HeldAfter(old(State()), op, origins, inf) == Some(State())
    {
      hide HeldAfter, CoefficientWritten;
      DirectOps(State(), op, origins, inf);
      match op {
        case AddLinearRow(r) => st := AddLinearRow(r, origins);
        case RemoveLinearRow(id) => st := RemoveLinearRow(id, origins);
        case SetLinearRowBounds(r, b) => st := SetLinearRowBounds(r, b, origins);
        case SetLinearCoefficient(r, v, x) => st := WriteCoefficient(r, v, x);
        case RemoveLinearCoefficient(r, v) => st := WriteCoefficient(r, v, 0.0);
      }
    }

    /** The op loop of `apply_backend_delta`, once every policy op is known to be supported. */
    method RunOps(ops: seq<BackendOp>, origins: Origins) returns (st: Status)
      requires Separate() && (UsesSurface(ops) ==> SoundColumns(State()))
      requires forall i :: 0 <= i < |ops| ==> PolicyRepresentable(ops[i])
      modifies Repr
      ensures model == old(model) && lay == old(lay)
      ensures st.Failed? ==> st == NATIVE_FAILURE || st == MISSING
      ensures OpsValid(ops, HeldRegistry(old(State())), origins) && ObjectivesStem(ops, origins) ==> st != MISSING
      ensures st.Failed? ==> Torn(old(State()), ops, origins, inf, State())
      ensures st.Ok? ==> HeldAfterAll(old(State()), ops, origins, inf) == Some(State())
    {
      hide SoundColumns, HeldAfterAll, HeldAfter, OpValid, HeldRegistry, Registered, FailedOp, UserObjectiveOf,
        PolicyRepresentable, RewritesSurface;
      ghost var h := State();
      ghost var checked := OpsValid(ops, HeldRegistry(h), origins) && ObjectivesStem(ops, origins);
      NoOps(h, ops, origins, inf);
      var k := 0;
      while k < |ops|
        invariant 0 <= k <= |ops| && model == old(model) && lay == old(lay)
        invariant HeldAfterAll(h, ops[..k], origins, inf) == Some(State())
        invariant UsesSurface(ops) ==> SoundColumns(State())
        invariant checked ==> OpsValid(ops[k..], HeldRegistry(State()), origins)
      {
        ghost var before := State();
        st := RunOp(ops[k], origins);
        if st.Failed? {
          assert FailsAt(h, ops, origins, inf, k, State());
          return;
        }
        OpsGoOn(h, ops, k, before, State(), origins, inf);
        k := k + 1;
      }
      assert ops[..k] == ops;
      return Ok;
    }

    /**
     * `apply_backend_delta`, on whatever is held: an unsupported policy op is refused before anything changes;
     * otherwise the ops run in order until one fails. A projection that represents a model then represents the
     * updated one.
     */
    method ApplyBackendDelta(ops: seq<BackendOp>, origins: Origins) returns (st: Status)
      requires Separate() && (UsesSurface(ops) ==> SoundColumns(State()))
      modifies Repr
      ensures st.Failed? ==> st == NATIVE_FAILURE || st == MISSING || st == UNSUPPORTED
      ensures st.Failed? ==> model == old(model) && lay == old(lay)
      ensures st == UNSUPPORTED <==> exists i :: 0 <= i < |ops| && !PolicyRepresentable(ops[i])
      ensures st == UNSUPPORTED ==> State() == old(State())
      ensures OpsValid(ops, HeldRegistry(old(State())), origins) && ObjectivesStem(ops, origins) ==> st != MISSING
      ensures st.Failed? && st != UNSUPPORTED ==> Torn(old(State()), ops, origins, inf, State())
      ensures st.Ok? ==> HeldAfterAll(old(State()), ops, origins, inf) == Some(State())
      ensures
        var checked := OpsValid(ops, RegistryOf(old(model)), origins) && CompiledAll(ops, old(model), origins);
        st.Ok? && old(Valid()) && checked ==> Valid() && model == ApplyAll(old(model), ops, origins)
    {
      hide Represents, SoundColumns, OpsValid, CompiledAll, ApplyAll, HeldAfterAll, HeldRegistry, RegistryOf, Torn,
        ObjectivesStem, UsesSurface;
      var k := 0;
      while k < |ops|
        invariant 0 <= k <= |ops|
        invariant forall i :: 0 <= i < k ==> PolicyRepresentable(ops[i])
      {
        if ops[k].SetObjectivePolicy? && (ops[k].policy.Weighted? || ops[k].policy.Lexicographic?) {
          return UNSUPPORTED;
        }
        k := k + 1;
      }
      st := RunOps(ops, origins);
      if st.Failed? { return; }
      ghost var after := State();
      if old(Valid()) && OpsValid(ops, RegistryOf(old(model)), origins) && CompiledAll(ops, old(model), origins) {
        lay := AllSimulate(old(State()), model, lay, ops, origins, inf);
        model := ApplyAll(model, ops, origins);
        assert State() == after;
      }
    }

    // -------------------------------------------------------------- full rebuild

    method RebuildColumns(vs: seq<CompiledVariable>, origins: Origins) returns (st: Status)
      requires Separate() && VariablesFresh(vs, origins)
      requires lay == Layout([], []) && Partly(State(), map[], map[], lay, inf)
      modifies highs, colMap, this`varBounds, this`lay
      ensures st.Ok? || st == NATIVE_FAILURE
      ensures st.Ok? ==> Partly(State(), VariablesOf(vs, origins), map[], lay, inf)
    {
      hide Partly, Separate;
      assert VariablesOf(vs[..0], origins) == map[];
      var k := 0;
      while k < |vs|
        invariant 0 <= k <= |vs|
        invariant Partly(State(), VariablesOf(vs[..k], origins), map[], lay, inf)
      {
        PartlyAddsColumn(State(), VariablesOf(vs[..k], origins), lay, inf, vs[k], origins);
        VariablesOfNext(vs, k, origins);
        st := PlaceColumn(vs[k]);
        if st.Failed? { return; }
        lay := lay.(cols := lay.cols + [vs[k].id]);
        k := k + 1;
      }
      assert vs[..|vs|] == vs;
      return Ok;
    }

    method RebuildRows(rs: seq<CompiledRow>, origins: Origins, ghost variables: map<VariableId, VariableData>)
      returns (st: Status)
      requires Separate() && RowsFresh(rs, origins)
      requires Partly(State(), variables, map[], lay, inf) && colMap.idToIdx.Keys == variables.Keys
      modifies highs, rowMap, this`rowBounds, this`lay
      ensures st.Failed? ==>
        || st == NATIVE_FAILURE
        || (st == INVALID && exists i :: 0 <= i < |rs| && !Refers(rs[i].coefficients, variables.Keys))
      ensures st.Ok? ==> Partly(State(), variables, RowsOf(rs, origins), lay, inf)
      ensures lay.cols == old(lay).cols
    {
      hide Partly, Separate, Refers;
      assert RowsOf(rs[..0], origins) == map[];
      var k := 0;
      while k < |rs|
        invariant 0 <= k <= |rs| && lay.cols == old(lay).cols
        invariant Partly(State(), variables, RowsOf(rs[..k], origins), lay, inf)
      {
        ghost var before := State();
        st := PlaceRow(rs[k]);
        if st == MISSING { return INVALID; }
        if st.Failed? { return; }
        PartlyAddsRow(before, variables, RowsOf(rs[..k], origins), lay, inf, rs[k], origins);
        RowsOfNext(rs, k, origins);
        lay := lay.(rows := lay.rows + [rs[k].id]);
        k := k + 1;
      }
      assert rs[..|rs|] == rs;
      return Ok;
    }

    /** Per-objective caches and the objective handles, from the snapshot's origins. */
    method RebuildObjectives(os: seq<CompiledObjective>, origins: Origins) returns (st: Status)
      requires ObjectivesFresh(os, origins)
      requires objCosts == map[] && objSenses == map[] && objOffsets == map[] && userObjs == map[]
      modifies this`objCosts, this`objSenses, this`objOffsets, this`userObjs
      ensures st.Failed? ==> st == INVALID && exists i :: 0 <= i < |os| && os[i].id !in origins.objectives
      ensures st.Ok? ==>
        var objectives := ObjectivesOf(os, origins);
        && objCosts == CostCachesOf(objectives) && objSenses == SensesOf(objectives)
        && objOffsets == OffsetsOf(objectives) && userObjs == UserObjsOf(objectives)
    {
      assert ObjectivesOf(os[..0], origins) == map[];
      var k := 0;
      while k < |os|
        invariant 0 <= k <= |os|
        invariant objCosts == CostCachesOf(ObjectivesOf(os[..k], origins))
        invariant objSenses == SensesOf(ObjectivesOf(os[..k], origins))
        invariant objOffsets == OffsetsOf(ObjectivesOf(os[..k], origins))
        invariant userObjs == UserObjsOf(ObjectivesOf(os[..k], origins))
      {
        var o := os[k];
        ObjectivesOfNext(os, k, origins);
        ObjectiveCachesGrow(ObjectivesOf(os[..k], origins), o.id, NewObjective(o, origins));
        objSenses := objSenses[o.id := o.sense];
        objOffsets := objOffsets[o.id := o.constant];
        objCosts := objCosts[o.id := ToMap(o.coefficients)];
        if o.id !in origins.objectives { return INVALID; }
        if origins.objectives[o.id].FromObjective? {
          userObjs := userObjs[o.id := origins.objectives[o.id].objective];
        }
        k := k + 1;
      }
      assert os[..|os|] == os;
      return Ok;
    }

    method RebuildVariableUsers(vs: seq<CompiledVariable>, origins: Origins) returns (st: Status)
      requires VariablesFresh(vs, origins) && userVars == map[]
      modifies this`userVars
      ensures st.Failed? ==> st == INVALID && exists i :: 0 <= i < |vs| && vs[i].id !in origins.variables
      ensures st.Ok? ==> userVars == UserVarsOf(VariablesOf(vs, origins))
    {
      assert VariablesOf(vs[..0], origins) == map[];
      var k := 0;
      while k < |vs|
        invariant 0 <= k <= |vs|
        invariant userVars == UserVarsOf(VariablesOf(vs[..k], origins))
      {
        var v := vs[k];
        VariablesOfNext(vs, k, origins);
        UserVarsGrow(VariablesOf(vs[..k], origins), v.id, NewVariable(v, origins));
        if v.id !in origins.variables { return INVALID; }
        if origins.variables[v.id].FromVariable? {
          userVars := userVars[v.id := origins.variables[v.id].variable];
        }
        k := k + 1;
      }
      assert vs[..|vs|] == vs;
      return Ok;
    }

    method RebuildRowUsers(rs: seq<CompiledRow>, origins: Origins) returns (st: Status)
      requires RowsFresh(rs, origins) && userRows == map[]
      modifies this`userRows
      ensures st.Failed? ==> st == INVALID && exists i :: 0 <= i < |rs| && rs[i].id !in origins.rows
      ensures st.Ok? ==> userRows == UserRowsOf(RowsOf(rs, origins))
    {
      assert RowsOf(rs[..0], origins) == map[];
      var k := 0;
      while k < |rs|
        invariant 0 <= k <= |rs|
        invariant userRows == UserRowsOf(RowsOf(rs[..k], origins))
      {
        var r := rs[k];
        RowsOfNext(rs, k, origins);
        UserRowsGrow(RowsOf(rs[..k], origins), r.id, NewRow(r, origins));
        if r.id !in origins.rows { return INVALID; }
        if origins.rows[r.id].FromConstraint? {
          userRows := userRows[r.id := origins.rows[r.id].constraint];
        }
        k := k + 1;
      }
      assert rs[..|rs|] == rs;
      return Ok;
    }

    /** The last step: the surface of the snapshot's policy. */
    method RebuildSurface(policy: Policy) returns (st: Status)
      requires Separate() && Representable(policy) && active == None
      requires Numbers(colMap.idToIdx, lay.cols) && |highs.m.cols| == |highs.m.costs| == |lay.cols|
      requires policy.Single? && policy.objective in userObjs ==>
        policy.objective in objCosts && policy.objective in objSenses && policy.objective in objOffsets
      modifies highs, this`active
      ensures st.Ok? || st == NATIVE_FAILURE
      ensures st.Ok? && policy.Single? && policy.objective in userObjs ==>
        && active == Some(userObjs[policy.objective])
        && highs.m == old(highs.m).(costs := CellsOf(objCosts[policy.objective], lay.cols),
             sense := objSenses[policy.objective], offset := objOffsets[policy.objective])
      ensures st.Ok? && !(policy.Single? && policy.objective in userObjs) ==>
        active == None && highs.m == old(highs.m).(costs := Zeros(|lay.cols|))
    {
      st := ClearAllCosts();
      if st.Failed? { return; }
      if policy.Single? && policy.objective in userObjs {
        active := Some(userObjs[policy.objective]);
        NumbersIsBijection(colMap.idToIdx, lay.cols);
        st := WriteCosts(objCosts[policy.objective]);
        if st.Failed? { return; }
        var ok := highs.ChangeObjectiveSense(objSenses[policy.objective]);
        if !ok { return NATIVE_FAILURE; }
        ok := highs.ChangeObjectiveOffset(objOffsets[policy.objective]);
        if !ok { return NATIVE_FAILURE; }
        CostsWrittenAreCells(colMap.idToIdx, lay.cols, objCosts[policy.objective]);
      }
      return Ok;
    }

    /** Clears the native model and every cache. */
    method Reset() returns (st: Status)
      requires Separate()
      modifies Repr
      ensures model == old(model)
      ensures st.Ok? || st == NATIVE_FAILURE
      ensures st.Ok? ==> lay == Layout([], []) && Partly(State(), map[], map[], lay, inf)
      ensures st.Ok? ==> CachesHeld() == Caches(map[], map[], map[], map[], map[], map[], map[], map[], None)
      ensures st.Ok? ==> colMap.idToIdx == map[]
    {
      hide Partly;
      var ok := highs.Clear();
      if !ok { return NATIVE_FAILURE; }
      colMap.Reset();
      rowMap.Reset();
      ForgetCaches();
      lay := Layout([], []);
      EmptyIsPartly(inf);
      return Ok;
    }

    method ForgetCaches()
      modifies this`userVars, this`userRows, this`userObjs, this`varBounds, this`rowBounds, this`objCosts,
        this`objSenses, this`objOffsets, this`active
      ensures CachesHeld() == Caches(map[], map[], map[], map[], map[], map[], map[], map[], None)
    {
      userVars, userRows, userObjs := map[], map[], map[];
      varBounds, rowBounds := map[], map[];
      objCosts, objSenses, objOffsets := map[], map[], map[];
      active := None;
    }

    /** Columns and rows of a snapshot, on a cleared projection. */
    method RebuildNative(s: BackendSnapshot) returns (st: Status)
      requires Separate() && SnapshotSound(s)
      requires lay == Layout([], []) && Partly(State(), map[], map[], lay, inf)
      modifies highs, colMap, rowMap, this`varBounds, this`rowBounds, this`lay
      ensures st.Ok? || st == NATIVE_FAILURE
      ensures st.Ok? ==> Partly(State(), ModelOf(s).variables, ModelOf(s).rows, lay, inf)
    {
      ghost var variables := VariablesOf(s.variables, s.origins);
      UniqueIdsAreFresh(s);
      SoundSnapshotRefers(s);
      hide SnapshotSound, VariablesFresh, RowsFresh, Numbers;
      st := RebuildColumns(s.variables, s.origins);
      if st.Failed? { return; }
      PartlyMeasures(State(), variables, map[], lay, inf);
      hide Partly;
      st := RebuildRows(s.rows, s.origins, variables);
    }

    /** Objective caches and all user maps of a snapshot. */
    method RebuildCaches(s: BackendSnapshot) returns (st: Status)
      requires SnapshotSound(s)
      requires objCosts == map[] && objSenses == map[] && objOffsets == map[]
      requires userObjs == map[] && userVars == map[] && userRows == map[]
      modifies this`objCosts, this`objSenses, this`objOffsets, this`userObjs, this`userVars, this`userRows
      ensures st.Ok?
      ensures CachesHeld() == CachesOf(ModelOf(s), inf).(varBounds := varBounds, rowBounds := rowBounds,
          active := active)
    {
      UniqueIdsAreFresh(s);
      SoundSnapshotRefers(s);
      hide SnapshotSound, VariablesFresh, RowsFresh, ObjectivesFresh;
      st := RebuildObjectives(s.objectives, s.origins);
      if st.Failed? { return; }
      st := RebuildVariableUsers(s.variables, s.origins);
      if st.Failed? { return; }
      st := RebuildRowUsers(s.rows, s.origins);
    }

    /**
     * `rebuild_from_backend_snapshot`: an unsupported policy is refused before anything changes;
     * otherwise everything held is replaced. On success the projection holds what the snapshot says,
     * whatever state it was in before.
     */
    method RebuildFromSnapshot(s: BackendSnapshot) returns (st: Status)
      requires Separate() && SnapshotSound(s)
      modifies Repr
      ensures st.Ok? || st == NATIVE_FAILURE || st == UNSUPPORTED
      ensures st == UNSUPPORTED <==> !Representable(s.policy)
      ensures st == UNSUPPORTED ==> State() == old(State()) && model == old(model) && lay == old(lay)
      ensures st.Ok? ==> Holds(State(), ModelOf(s), lay, inf) && model == ModelOf(s)
      ensures st.Ok? && ObjectivesAreUsers(ModelOf(s)) ==> Valid()
    {
      if s.policy.Weighted? || s.policy.Lexicographic? { return UNSUPPORTED; }
      ghost var m := ModelOf(s);
      if ObjectivesAreUsers(m) { SoundSnapshotIsWellFormed(s); }
      SoundSnapshotResolves(s);
      hide Partly, SnapshotSound, ModelOf, Shows, CachesOf, Numbers, ObjectivesAreUsers;
      st := Reset();
      if st.Failed? { return; }
      st := RebuildOnCleared(s);
      model := m;
    }

    /** The rebuild after everything was cleared. */
    method RebuildOnCleared(s: BackendSnapshot) returns (st: Status)
      requires Separate() && SnapshotSound(s) && ReferencesResolve(ModelOf(s)) && Representable(s.policy)
      requires lay == Layout([], []) && Partly(State(), map[], map[], lay, inf)
      requires CachesHeld() == Caches(map[], map[], map[], map[], map[], map[], map[], map[], None)
      modifies Repr
      ensures st.Ok? || st == NATIVE_FAILURE
      ensures st.Ok? ==> Holds(State(), ModelOf(s), lay, inf)
    {
      hide Partly, SnapshotSound, ModelOf, Holds, CachesOf, Numbers, ReferencesResolve, ActiveUser, SurfaceOf, Zeros;
      ghost var m := ModelOf(s);
      SnapshotPolicy(s);
      PolicyIsCached(m, inf);
      st := RebuildNative(s);
      if st.Failed? { return; }
      ghost var placed := State();
      st := RebuildCaches(s);
      if st.Failed? { return; }
      ghost var before := State();
      PartlyIgnoresOtherCaches(placed, m.variables, m.rows, lay, inf, before);
      PartlyMeasures(before, m.variables, m.rows, lay, inf);
      PartlyCaches(before, m, lay, inf);
      st := RebuildSurface(s.policy);
      if st.Failed? { return; }
      RebuildCompletes(before, m, lay, inf, State());
    }
  }

  /**
   * Delta refines rebuild, whole batches: a projection rebuilt from `s` and then taken through a batch
   * agrees with one rebuilt from any snapshot of the updated model, entity by entity and cache by cache.
   */
  method DeltaRefinesRebuild(
      a: Projection, b: Projection, s: BackendSnapshot, ops: seq<BackendOp>, origins: Origins, updated: BackendSnapshot)
    returns (rebuilt: Status, applied: Status, again: Status)
    requires a.Separate() && b.Separate() && a.Repr !! b.Repr && a.inf == b.inf
    requires SnapshotSound(s) && ObjectivesAreUsers(ModelOf(s))
    requires OpsValid(ops, RegistryOf(ModelOf(s)), origins) && CompiledAll(ops, ModelOf(s), origins)
    requires SnapshotSound(updated) && ModelOf(updated) == ApplyAll(ModelOf(s), ops, origins)
    modifies a.Repr, b.Repr
    ensures rebuilt.Ok? && applied.Ok? && again.Ok? ==> SameUpToNumbering(a.State(), b.State())
  {
    hide SnapshotSound, ModelOf, Represents, OpsValid, CompiledAll, ApplyAll, PolicyRepresentable;
    applied, again := INVALID, INVALID;
    rebuilt := a.RebuildFromSnapshot(s);
    if rebuilt.Failed? { return; }
    RepresentedColumnsAreSound(a.State(), a.model, a.lay, a.inf);
    applied := a.ApplyBackendDelta(ops, origins);
    if applied.Failed? { return; }
    RepresentsMeasures(a.State(), a.model, a.lay, a.inf);
    ghost var held := a.State();
    again := b.RebuildFromSnapshot(updated);
    if again.Failed? { return; }
    RepresentationIsUnique(held, b.State(), a.model, a.lay, b.lay, a.inf);
  }
}
