/** The id-keyed caches a HiGHS session keeps beside the native model, as a function of the compiled model. */
module Caching {
  import opened Common
  import opened BackendIr
  import opened Highs
  import opened CompiledModels
  import opened NativeViews

  datatype Caches = Caches(
    varBounds: map<VariableId, Range>,
    rowBounds: map<RowId, Range>,
    userVars: map<VariableId, UserVariable>,
    userRows: map<RowId, UserConstraint>,
    userObjs: map<ObjectiveId, UserObjective>,
    costs: map<ObjectiveId, map<VariableId, real>>,
    senses: map<ObjectiveId, Sense>,
    offsets: map<ObjectiveId, real>,
    active: Option<UserObjective>)

  function VarBoundsOf(variables: map<VariableId, VariableData>, inf: real): map<VariableId, Range> {
    map v | v in variables :: NormalizeBounds(variables[v].bounds, inf)
  }

  function RowBoundsOf(rows: map<RowId, RowData>, inf: real): map<RowId, Range> {
    map r | r in rows :: NormalizeBounds(rows[r].bounds, inf)
  }

  function UserVarsOf(variables: map<VariableId, VariableData>): map<VariableId, UserVariable> {
    map v | v in variables && variables[v].user.Some? :: variables[v].user.value
  }

  function UserRowsOf(rows: map<RowId, RowData>): map<RowId, UserConstraint> {
    map r | r in rows && rows[r].user.Some? :: rows[r].user.value
  }

  function UserObjsOf(objectives: map<ObjectiveId, ObjectiveData>): map<ObjectiveId, UserObjective> {
    map o | o in objectives && objectives[o].user.Some? :: objectives[o].user.value
  }

  function CostCachesOf(objectives: map<ObjectiveId, ObjectiveData>): map<ObjectiveId, map<VariableId, real>> {
    map o | o in objectives :: objectives[o].costs
  }

  function SensesOf(objectives: map<ObjectiveId, ObjectiveData>): map<ObjectiveId, Sense> {
    map o | o in objectives :: objectives[o].sense
  }

  function OffsetsOf(objectives: map<ObjectiveId, ObjectiveData>): map<ObjectiveId, real> {
    map o | o in objectives :: objectives[o].constant
  }

  function CachesOf(m: Model, inf: real): Caches {
    Caches(
      VarBoundsOf(m.variables, inf), RowBoundsOf(m.rows, inf),
      UserVarsOf(m.variables), UserRowsOf(m.rows), UserObjsOf(m.objectives),
      CostCachesOf(m.objectives), SensesOf(m.objectives), OffsetsOf(m.objectives),
      ActiveUser(m))
  }

  function WithUser<Id, User>(users: map<Id, User>, id: Id, user: Option<User>): map<Id, User> {
    if user.Some? then users[id := user.value] else users
  }

  lemma CachesAddVariable(m: Model, id: VariableId, d: VariableData, inf: real)
    requires id !in m.variables
    ensures CachesOf(m.(variables := m.variables[id := d]), inf) == CachesOf(m, inf).(
      varBounds := VarBoundsOf(m.variables, inf)[id := NormalizeBounds(d.bounds, inf)],
      userVars := WithUser(UserVarsOf(m.variables), id, d.user))
  {
    var after := m.variables[id := d];
    assert VarBoundsOf(after, inf) == VarBoundsOf(m.variables, inf)[id := NormalizeBounds(d.bounds, inf)];
    assert UserVarsOf(after) == WithUser(UserVarsOf(m.variables), id, d.user);
  }

  lemma CachesRemoveVariable(m: Model, id: VariableId, inf: real)
    ensures CachesOf(WithoutVariable(m, id), inf) == CachesOf(m, inf).(
      varBounds := VarBoundsOf(m.variables, inf) - {id},
      userVars := UserVarsOf(m.variables) - {id},
      costs := map o | o in CostCachesOf(m.objectives) :: CostCachesOf(m.objectives)[o] - {id})
  {
    RowCachesIgnoreVariables(m, id, inf);
    ObjectiveCachesRemoveVariable(m, id);
    hide RowBoundsOf, UserRowsOf, CostCachesOf, SensesOf, OffsetsOf, UserObjsOf;
    var after := WithoutVariable(m, id);
    assert VarBoundsOf(after.variables, inf) == VarBoundsOf(m.variables, inf) - {id};
    assert UserVarsOf(after.variables) == UserVarsOf(m.variables) - {id};
  }

  lemma RowCachesIgnoreVariables(m: Model, id: VariableId, inf: real)
    ensures RowBoundsOf(WithoutVariable(m, id).rows, inf) == RowBoundsOf(m.rows, inf)
    ensures UserRowsOf(WithoutVariable(m, id).rows) == UserRowsOf(m.rows)
  {
  }

  lemma ObjectiveCachesRemoveVariable(m: Model, id: VariableId)
    ensures
      var after, caches := WithoutVariable(m, id).objectives, CostCachesOf(m.objectives);
      && CostCachesOf(after) == (map o | o in caches :: caches[o] - {id})
      && SensesOf(after) == SensesOf(m.objectives) && OffsetsOf(after) == OffsetsOf(m.objectives)
      && UserObjsOf(after) == UserObjsOf(m.objectives)
    ensures ActiveUser(WithoutVariable(m, id)) == ActiveUser(m)
  {
  }

  lemma CachesVariableBounds(m: Model, id: VariableId, b: Bounds, inf: real)
    requires id in m.variables
    ensures CachesOf(m.(variables := m.variables[id := m.variables[id].(bounds := b)]), inf)
      == CachesOf(m, inf).(varBounds := VarBoundsOf(m.variables, inf)[id := NormalizeBounds(b, inf)])
  {
    var after := m.variables[id := m.variables[id].(bounds := b)];
    assert VarBoundsOf(after, inf) == VarBoundsOf(m.variables, inf)[id := NormalizeBounds(b, inf)];
    assert UserVarsOf(after) == UserVarsOf(m.variables);
  }

  lemma CachesAddRow(m: Model, id: RowId, d: RowData, inf: real)
    requires id !in m.rows
    ensures CachesOf(m.(rows := m.rows[id := d]), inf) == CachesOf(m, inf).(
      rowBounds := RowBoundsOf(m.rows, inf)[id := NormalizeBounds(d.bounds, inf)],
      userRows := WithUser(UserRowsOf(m.rows), id, d.user))
  {
    var after := m.rows[id := d];
    assert RowBoundsOf(after, inf) == RowBoundsOf(m.rows, inf)[id := NormalizeBounds(d.bounds, inf)];
    assert UserRowsOf(after) == WithUser(UserRowsOf(m.rows), id, d.user);
  }

  lemma CachesRemoveRow(m: Model, id: RowId, inf: real)
    ensures CachesOf(m.(rows := m.rows - {id}), inf) == CachesOf(m, inf).(
      rowBounds := RowBoundsOf(m.rows, inf) - {id}, userRows := UserRowsOf(m.rows) - {id})
  {
    assert RowBoundsOf(m.rows - {id}, inf) == RowBoundsOf(m.rows, inf) - {id};
    assert UserRowsOf(m.rows - {id}) == UserRowsOf(m.rows) - {id};
  }

  lemma CachesRowBounds(m: Model, id: RowId, b: Bounds, inf: real)
    requires id in m.rows
    ensures CachesOf(m.(rows := m.rows[id := m.rows[id].(bounds := b)]), inf)
      == CachesOf(m, inf).(rowBounds := RowBoundsOf(m.rows, inf)[id := NormalizeBounds(b, inf)])
  {
    var after := m.rows[id := m.rows[id].(bounds := b)];
    assert RowBoundsOf(after, inf) == RowBoundsOf(m.rows, inf)[id := NormalizeBounds(b, inf)];
    assert UserRowsOf(after) == UserRowsOf(m.rows);
  }

  lemma CachesCoefficients(m: Model, id: RowId, c: map<VariableId, real>, inf: real)
    requires id in m.rows
    ensures CachesOf(WithCoefficients(m, id, c), inf) == CachesOf(m, inf)
  {
    var after := WithCoefficients(m, id, c).rows;
    assert RowBoundsOf(after, inf) == RowBoundsOf(m.rows, inf);
    assert UserRowsOf(after) == UserRowsOf(m.rows);
  }

  lemma CachesAddObjective(m: Model, id: ObjectiveId, d: ObjectiveData, inf: real)
    requires id !in m.objectives && (m.policy.Single? ==> m.policy.objective in m.objectives)
    ensures CachesOf(m.(objectives := m.objectives[id := d]), inf) == CachesOf(m, inf).(
      userObjs := WithUser(UserObjsOf(m.objectives), id, d.user),
      costs := CostCachesOf(m.objectives)[id := d.costs],
      senses := SensesOf(m.objectives)[id := d.sense],
      offsets := OffsetsOf(m.objectives)[id := d.constant])
  {
    var after := m.objectives[id := d];
    assert UserObjsOf(after) == WithUser(UserObjsOf(m.objectives), id, d.user);
    assert CostCachesOf(after) == CostCachesOf(m.objectives)[id := d.costs];
    assert SensesOf(after) == SensesOf(m.objectives)[id := d.sense];
    assert OffsetsOf(after) == OffsetsOf(m.objectives)[id := d.constant];
  }

  lemma CachesRemoveObjective(m: Model, id: ObjectiveId, inf: real)
    ensures
      var after := m.(objectives := m.objectives - {id},
        policy := if m.policy == Single(id) then NoObjective else m.policy);
      CachesOf(after, inf) == CachesOf(m, inf).(
        userObjs := UserObjsOf(m.objectives) - {id},
        costs := CostCachesOf(m.objectives) - {id},
        senses := SensesOf(m.objectives) - {id},
        offsets := OffsetsOf(m.objectives) - {id},
        active := if m.policy == Single(id) then None else ActiveUser(m))
  {
    var after := m.objectives - {id};
    assert UserObjsOf(after) == UserObjsOf(m.objectives) - {id};
    assert CostCachesOf(after) == CostCachesOf(m.objectives) - {id};
    assert SensesOf(after) == SensesOf(m.objectives) - {id};
    assert OffsetsOf(after) == OffsetsOf(m.objectives) - {id};
  }

  /** Any change of one objective that keeps its user handle. */
  lemma CachesObjective(m: Model, id: ObjectiveId, d: ObjectiveData, inf: real)
    requires id in m.objectives && d.user == m.objectives[id].user
    ensures CachesOf(m.(objectives := m.objectives[id := d]), inf) == CachesOf(m, inf).(
      costs := CostCachesOf(m.objectives)[id := d.costs],
      senses := SensesOf(m.objectives)[id := d.sense],
      offsets := OffsetsOf(m.objectives)[id := d.constant])
  {
    var after := m.objectives[id := d];
    assert UserObjsOf(after) == UserObjsOf(m.objectives);
    assert CostCachesOf(after) == CostCachesOf(m.objectives)[id := d.costs];
    assert SensesOf(after) == SensesOf(m.objectives)[id := d.sense];
    assert OffsetsOf(after) == OffsetsOf(m.objectives)[id := d.constant];
  }

  /** With handles of their own, comparing handles is comparing objectives. */
  lemma ActiveUserIdentifies(m: Model, o: ObjectiveId)
    requires WellFormed(m) && o in m.objectives
    ensures m.objectives[o].user == ActiveUser(m) <==> m.policy == Single(o)
  {
  }

  lemma ObjectiveCachesGrow(objectives: map<ObjectiveId, ObjectiveData>, id: ObjectiveId, d: ObjectiveData)
    requires id !in objectives
    ensures UserObjsOf(objectives[id := d]) == WithUser(UserObjsOf(objectives), id, d.user)
    ensures CostCachesOf(objectives[id := d]) == CostCachesOf(objectives)[id := d.costs]
    ensures SensesOf(objectives[id := d]) == SensesOf(objectives)[id := d.sense]
    ensures OffsetsOf(objectives[id := d]) == OffsetsOf(objectives)[id := d.constant]
  {
  }

  lemma UserVarsGrow(variables: map<VariableId, VariableData>, id: VariableId, d: VariableData)
    requires id !in variables
    ensures UserVarsOf(variables[id := d]) == WithUser(UserVarsOf(variables), id, d.user)
  {
  }

  lemma UserRowsGrow(rows: map<RowId, RowData>, id: RowId, d: RowData)
    requires id !in rows
    ensures UserRowsOf(rows[id := d]) == WithUser(UserRowsOf(rows), id, d.user)
  {
  }
}
