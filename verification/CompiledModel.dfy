/**
 * The compiled model a backend is meant to hold, keyed by stable ids, the meaning of one delta
 * op on it, and the native model that a given numbering of its ids stands for.
 */
module CompiledModels {
  import opened Common
  import opened BackendIr

  datatype VariableData = VariableData(bounds: Bounds, integer: bool, user: Option<UserVariable>)
  datatype RowData = RowData(bounds: Bounds, coefficients: map<VariableId, real>, user: Option<UserConstraint>)
  datatype ObjectiveData = ObjectiveData(
    sense: Sense, constant: real, costs: map<VariableId, real>, user: Option<UserObjective>)
  datatype Model = Model(
    variables: map<VariableId, VariableData>,
    rows: map<RowId, RowData>,
    objectives: map<ObjectiveId, ObjectiveData>,
    policy: Policy)

  const NO_MODEL := Model(map[], map[], map[], NoObjective)

  /** What the single-objective native surface shows while an objective is active. */
  datatype Surface = Surface(costs: map<VariableId, real>, sense: Sense, offset: real)
  /** The part of a model that the native side represents. */
  datatype View = View(
    variables: map<VariableId, VariableData>, rows: map<RowId, RowData>, surface: Option<Surface>)
  /** The order in which native columns and rows were created. */
  datatype Layout = Layout(cols: seq<VariableId>, rows: seq<RowId>)

  // ---------------------------------------------------------------- coefficients

  /** A sparse coefficient list as a map; a later entry overrides an earlier one. */
  function ToMap(entries: seq<(VariableId, real)>): map<VariableId, real> {
    if |entries| == 0 then map[]
    else
      var k := |entries| - 1;
      ToMap(entries[..k])[entries[k].0 := entries[k].1]
  }

  lemma {:induction false} ToMapRefers(entries: seq<(VariableId, real)>, present: set<VariableId>)
    requires Refers(entries, present)
    ensures ToMap(entries).Keys <= present
  {
    if |entries| != 0 {
      ToMapRefers(entries[..|entries| - 1], present);
    }
  }

  function Cell(coefficients: map<VariableId, real>, v: VariableId): real {
    if v in coefficients then coefficients[v] else 0.0
  }

  // ---------------------------------------------------------------- meaning of the delta ops

  function UserVariableOf(origins: Origins, id: VariableId): Option<UserVariable> {
    if id in origins.variables && origins.variables[id].FromVariable?
    then Some(origins.variables[id].variable) else None
  }

  function UserConstraintOf(origins: Origins, id: RowId): Option<UserConstraint> {
    if id in origins.rows && origins.rows[id].FromConstraint? then Some(origins.rows[id].constraint) else None
  }

  function UserObjectiveOf(origins: Origins, id: ObjectiveId): Option<UserObjective> {
    if id in origins.objectives && origins.objectives[id].FromObjective?
    then Some(origins.objectives[id].objective) else None
  }

  function NewVariable(v: CompiledVariable, origins: Origins): VariableData {
    VariableData(v.bounds, !v.varType.Continuous?, UserVariableOf(origins, v.id))
  }

  function NewRow(r: CompiledRow, origins: Origins): RowData {
    RowData(r.bounds, ToMap(r.coefficients), UserConstraintOf(origins, r.id))
  }

  function NewObjective(o: CompiledObjective, origins: Origins): ObjectiveData {
    ObjectiveData(o.sense, o.constant, ToMap(o.coefficients), UserObjectiveOf(origins, o.id))
  }

  function WithoutVariable(m: Model, id: VariableId): Model {
    m.(variables := m.variables - {id},
       rows := map r | r in m.rows :: m.rows[r].(coefficients := m.rows[r].coefficients - {id}),
       objectives := map o | o in m.objectives :: m.objectives[o].(costs := m.objectives[o].costs - {id}))
  }

  function WithCosts(m: Model, o: ObjectiveId, costs: map<VariableId, real>): Model
    requires o in m.objectives
  {
    m.(objectives := m.objectives[o := m.objectives[o].(costs := costs)])
  }

  function WithCoefficients(m: Model, r: RowId, coefficients: map<VariableId, real>): Model
    requires r in m.rows
  {
    m.(rows := m.rows[r := m.rows[r].(coefficients := coefficients)])
  }

  /** The compiled model after one op; an op on an absent entity means nothing. */
  function Apply(m: Model, op: BackendOp, origins: Origins): Model {
    match op
    case AddVariable(v) => m.(variables := m.variables[v.id := NewVariable(v, origins)])
    case RemoveVariable(id) => WithoutVariable(m, id)
    case SetVariableBounds(v, b) =>
      if v !in m.variables then m else m.(variables := m.variables[v := m.variables[v].(bounds := b)])
    case AddLinearRow(r) => m.(rows := m.rows[r.id := NewRow(r, origins)])
    case RemoveLinearRow(id) => m.(rows := m.rows - {id})
    case SetLinearRowBounds(r, b) =>
      if r !in m.rows then m else m.(rows := m.rows[r := m.rows[r].(bounds := b)])
    case SetLinearCoefficient(r, v, x) =>
      if r !in m.rows then m else WithCoefficients(m, r, m.rows[r].coefficients[v := x])
    case RemoveLinearCoefficient(r, v) =>
      if r !in m.rows then m else WithCoefficients(m, r, m.rows[r].coefficients - {v})
    case AddObjective(o) => m.(objectives := m.objectives[o.id := NewObjective(o, origins)])
    case RemoveObjective(id) =>
      m.(objectives := m.objectives - {id}, policy := if m.policy == Single(id) then NoObjective else m.policy)
    case SetObjectiveCoefficient(o, v, x) =>
      if o !in m.objectives then m else WithCosts(m, o, m.objectives[o].costs[v := x])
    case SetObjectiveCosts(o, costs) =>
      if o !in m.objectives then m else WithCosts(m, o, m.objectives[o].costs + ToMap(costs))
    case RemoveObjectiveCoefficient(o, v) =>
      if o !in m.objectives then m else WithCosts(m, o, m.objectives[o].costs - {v})
    case SetObjectiveConstant(o, x) =>
      if o !in m.objectives then m else m.(objectives := m.objectives[o := m.objectives[o].(constant := x)])
    case SetObjectiveSense(o, s) =>
      if o !in m.objectives then m else m.(objectives := m.objectives[o := m.objectives[o].(sense := s)])
    case SetObjectivePolicy(p) => m.(policy := p)
  }

  function ApplyAll(m: Model, ops: seq<BackendOp>, origins: Origins): Model
    decreases |ops|
  {
    if |ops| == 0 then m else ApplyAll(Apply(m, ops[0], origins), ops[1..], origins)
  }

  lemma {:induction false} ApplyAllSnoc(m: Model, ops: seq<BackendOp>, op: BackendOp, origins: Origins)
    ensures ApplyAll(m, ops + [op], origins) == Apply(ApplyAll(m, ops, origins), op, origins)
    decreases |ops|
  {
    if |ops| == 0 {
      assert ([] + [op])[1..] == [];
    } else {
      assert (ops + [op])[1..] == ops[1..] + [op];
      ApplyAllSnoc(Apply(m, ops[0], origins), ops[1..], op, origins);
    }
  }

  /** The scalar ops that a packed cost block stands for. */
  function Unpacked(o: ObjectiveId, costs: seq<(VariableId, real)>): seq<BackendOp> {
    if |costs| == 0 then []
    else Unpacked(o, costs[..|costs| - 1]) + [SetObjectiveCoefficient(o, costs[|costs| - 1].0, costs[|costs| - 1].1)]
  }

  /** A packed cost block means the same as its scalar ops in order. */
  lemma {:induction false} PackedCostsAreScalarCosts(
      m: Model, o: ObjectiveId, costs: seq<(VariableId, real)>, origins: Origins)
    ensures ApplyAll(m, Unpacked(o, costs), origins) == Apply(m, SetObjectiveCosts(o, costs), origins)
  {
    if |costs| == 0 {
      if o in m.objectives {
        assert m.objectives[o].costs + map[] == m.objectives[o].costs;
        assert m.objectives[o := m.objectives[o]] == m.objectives;
      }
    } else {
      var k := |costs| - 1;
      PackedCostsAreScalarCosts(m, o, costs[..k], origins);
      ApplyAllSnoc(m, Unpacked(o, costs[..k]), SetObjectiveCoefficient(o, costs[k].0, costs[k].1), origins);
      if o in m.objectives {
        var base := m.objectives[o].costs;
        OverrideNext(base, costs);
        WithCostsTwice(m, o, base + ToMap(costs[..k]), base + ToMap(costs));
      }
    }
  }

  lemma OverrideNext(base: map<VariableId, real>, costs: seq<(VariableId, real)>)
    requires |costs| != 0
    ensures
      var k := |costs| - 1;
      (base + ToMap(costs[..k]))[costs[k].0 := costs[k].1] == base + ToMap(costs)
  {
  }

  lemma WithCostsTwice(m: Model, o: ObjectiveId, first: map<VariableId, real>, second: map<VariableId, real>)
    requires o in m.objectives
    ensures WithCosts(WithCosts(m, o, first), o, second) == WithCosts(m, o, second)
  {
    assert WithCosts(WithCosts(m, o, first), o, second).objectives == WithCosts(m, o, second).objectives;
  }

  // ---------------------------------------------------------------- well-formed models

  ghost predicate ReferencesResolve(m: Model) {
    && (forall r, v {:trigger v in m.rows[r].coefficients} ::
          r in m.rows && v in m.rows[r].coefficients ==> v in m.variables)
    && (forall o, v {:trigger v in m.objectives[o].costs} ::
          o in m.objectives && v in m.objectives[o].costs ==> v in m.variables)
  }

  /** Every objective has a user handle of its own. */
  ghost predicate ObjectivesAreUsers(m: Model) {
    && (forall o :: o in m.objectives ==> m.objectives[o].user.Some?)
    && (forall o, p :: o in m.objectives && p in m.objectives && m.objectives[o].user == m.objectives[p].user ==>
        o == p)
  }

  ghost predicate WellFormed(m: Model) {
    && ReferencesResolve(m)
    && ObjectivesAreUsers(m)
    && Representable(m.policy)
    && (m.policy.Single? ==> m.policy.objective in m.objectives)
  }

  function RegistryOf(m: Model): Registry {
    Registry(m.variables.Keys, m.rows.Keys, m.objectives.Keys)
  }

  /**
   * What the compiler guarantees beyond `validate`: an added objective stems from a user objective
   * that no live objective uses.
   */
  ghost predicate Compiled(op: BackendOp, m: Model, origins: Origins) {
    op.AddObjective? ==>
      && UserObjectiveOf(origins, op.newObjective.id).Some?
      && (forall p :: p in m.objectives ==> m.objectives[p].user != UserObjectiveOf(origins, op.newObjective.id))
  }

  /** The delta's policy ops stay within what the native surface can show. */
  predicate PolicyRepresentable(op: BackendOp) {
    op.SetObjectivePolicy? ==> Representable(op.policy)
  }

  /** The same along a whole batch. */
  ghost predicate CompiledAll(ops: seq<BackendOp>, m: Model, origins: Origins)
    decreases |ops|
  {
    |ops| == 0 || (Compiled(ops[0], m, origins) && CompiledAll(ops[1..], Apply(m, ops[0], origins), origins))
  }

  /** The preflight registry follows the model. */
  lemma ApplyRegisters(m: Model, op: BackendOp, origins: Origins)
    requires OpValid(op, RegistryOf(m), origins)
    ensures RegistryOf(Apply(m, op, origins)) == Registered(op, RegistryOf(m))
  {
    var left, right := RegistryOf(Apply(m, op, origins)), Registered(op, RegistryOf(m));
    assert left.variables == right.variables;
    assert left.rows == right.rows;
    assert left.objectives == right.objectives;
  }

  /** The preflight check plus the compiler's guarantee keep a model well-formed. */
  lemma ApplyKeepsWellFormed(m: Model, op: BackendOp, origins: Origins)
    requires WellFormed(m) && OpValid(op, RegistryOf(m), origins) && Compiled(op, m, origins)
    requires PolicyRepresentable(op)
    ensures WellFormed(Apply(m, op, origins))
  {
    hide WellFormed;
    match op {
      case AddVariable(_) => VariableOpKeeps(m, op, origins);
      case RemoveVariable(_) => VariableOpKeeps(m, op, origins);
      case SetVariableBounds(_, _) => VariableOpKeeps(m, op, origins);
      case AddLinearRow(_) => RowOpKeeps(m, op, origins);
      case RemoveLinearRow(_) => RowOpKeeps(m, op, origins);
      case SetLinearRowBounds(_, _) => RowOpKeeps(m, op, origins);
      case SetLinearCoefficient(_, _, _) => RowOpKeeps(m, op, origins);
      case RemoveLinearCoefficient(_, _) => RowOpKeeps(m, op, origins);
      case AddObjective(_) => ObjectiveEntryKeeps(m, op, origins);
      case RemoveObjective(_) => ObjectiveEntryKeeps(m, op, origins);
      case _ => ObjectiveDataKeeps(m, op, origins);
    }
  }

  lemma VariableOpKeeps(m: Model, op: BackendOp, origins: Origins)
    requires WellFormed(m) && OpValid(op, RegistryOf(m), origins)
    requires op.AddVariable? || op.RemoveVariable? || op.SetVariableBounds?
    ensures WellFormed(Apply(m, op, origins))
  {
  }

  lemma RowOpKeeps(m: Model, op: BackendOp, origins: Origins)
    requires WellFormed(m) && OpValid(op, RegistryOf(m), origins)
    requires op.AddLinearRow? || op.RemoveLinearRow? || op.SetLinearRowBounds? || op.SetLinearCoefficient?
      || op.RemoveLinearCoefficient?
    ensures WellFormed(Apply(m, op, origins))
  {
    if op.AddLinearRow? { ToMapRefers(op.row.coefficients, m.variables.Keys); }
  }

  lemma ObjectiveEntryKeeps(m: Model, op: BackendOp, origins: Origins)
    requires WellFormed(m) && OpValid(op, RegistryOf(m), origins) && Compiled(op, m, origins)
    requires op.AddObjective? || op.RemoveObjective?
    ensures WellFormed(Apply(m, op, origins))
  {
    if op.AddObjective? {
      ToMapRefers(op.newObjective.coefficients, m.variables.Keys);
      AddObjectiveKeepsUsers(m, op.newObjective.id, NewObjective(op.newObjective, origins));
    }
  }

  lemma ObjectiveDataKeeps(m: Model, op: BackendOp, origins: Origins)
    requires WellFormed(m) && OpValid(op, RegistryOf(m), origins) && PolicyRepresentable(op)
    requires op.SetObjectiveCoefficient? || op.SetObjectiveCosts? || op.RemoveObjectiveCoefficient?
      || op.SetObjectiveConstant? || op.SetObjectiveSense? || op.SetObjectivePolicy?
    ensures WellFormed(Apply(m, op, origins))
  {
    hide WellFormed, ToMap;
    CostsResolve(m);
    match op {
      case SetObjectiveCoefficient(o, v, x) => NewCostsKeep(m, o, m.objectives[o].costs[v := x]);
      case SetObjectiveCosts(o, costs) =>
        ToMapRefers(costs, m.variables.Keys);
        NewCostsKeep(m, o, m.objectives[o].costs + ToMap(costs));
      case RemoveObjectiveCoefficient(o, v) => NewCostsKeep(m, o, m.objectives[o].costs - {v});
      case SetObjectiveConstant(o, x) => NewDataKeeps(m, o, m.objectives[o].(constant := x));
      case SetObjectiveSense(o, s) => NewDataKeeps(m, o, m.objectives[o].(sense := s));
      case SetObjectivePolicy(p) => NewPolicyKeeps(m, p);
    }
  }

  lemma CostsResolve(m: Model)
    requires WellFormed(m)
    ensures forall o :: o in m.objectives ==> m.objectives[o].costs.Keys <= m.variables.Keys
  {
  }

  lemma NewDataKeeps(m: Model, o: ObjectiveId, d: ObjectiveData)
    requires WellFormed(m) && o in m.objectives && d.user == m.objectives[o].user && d.costs.Keys <= m.variables.Keys
    ensures WellFormed(m.(objectives := m.objectives[o := d]))
  {
  }

  lemma NewCostsKeep(m: Model, o: ObjectiveId, costs: map<VariableId, real>)
    requires WellFormed(m) && o in m.objectives && costs.Keys <= m.variables.Keys
    ensures WellFormed(WithCosts(m, o, costs))
  {
    hide WellFormed;
    NewDataKeeps(m, o, m.objectives[o].(costs := costs));
  }

  lemma NewPolicyKeeps(m: Model, p: Policy)
    requires WellFormed(m) && Representable(p) && PolicyResolves(p, m.objectives.Keys)
    ensures WellFormed(m.(policy := p))
  {
  }

  lemma AddObjectiveKeepsUsers(m: Model, id: ObjectiveId, data: ObjectiveData)
    requires ObjectivesAreUsers(m) && data.user.Some?
    requires forall p :: p in m.objectives ==> m.objectives[p].user != data.user
    ensures ObjectivesAreUsers(m.(objectives := m.objectives[id := data]))
  {
  }

  lemma {:induction false} ApplyAllKeepsWellFormed(m: Model, ops: seq<BackendOp>, origins: Origins)
    requires WellFormed(m) && OpsValid(ops, RegistryOf(m), origins) && CompiledAll(ops, m, origins)
    requires forall i :: 0 <= i < |ops| ==> PolicyRepresentable(ops[i])
    ensures WellFormed(ApplyAll(m, ops, origins))
    decreases |ops|
  {
    if |ops| != 0 {
      ApplyKeepsWellFormed(m, ops[0], origins);
      ApplyRegisters(m, ops[0], origins);
      ApplyAllKeepsWellFormed(Apply(m, ops[0], origins), ops[1..], origins);
    }
  }
}
