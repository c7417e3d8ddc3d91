/**
 * src/compiler/backend_ir.rs and src/solver/overlay.rs: the solver-neutral input of a
 * backend session. Ids are wrapped so that variables, rows and objectives cannot be mixed.
 */
module BackendIr {

  datatype VariableId = VariableId(index: nat)
  datatype RowId = RowId(index: nat)
  datatype ObjectiveId = ObjectiveId(index: nat)

  datatype UserVariable = UserVariable(handle: nat)
  datatype UserConstraint = UserConstraint(handle: nat)
  datatype UserObjective = UserObjective(handle: nat)

  type CompilationId = nat
  type OverlayId = nat
  type Revision = nat

  datatype Extended = NegInfinity | Finite(value: real) | PosInfinity
  datatype Bounds = Bounds(lower: Extended, upper: Extended)
  datatype VarType = Continuous | Integer | Binary
  datatype Sense = Minimize | Maximize

  datatype Policy =
    | NoObjective
    | Single(objective: ObjectiveId)
    | Weighted(items: seq<ObjectiveId>)
    | Lexicographic(levels: seq<ObjectiveId>)

  datatype Role = ViolationVariable | Bridge | OtherRole

  datatype Origin =
    | FromVariable(variable: UserVariable)
    | FromConstraint(constraint: UserConstraint)
    | FromObjective(objective: UserObjective)
    | FromConstruct
    | FromOverlay(overlay: OverlayId, role: Role)

  datatype Origins = Origins(
    variables: map<VariableId, Origin>, rows: map<RowId, Origin>, objectives: map<ObjectiveId, Origin>)

  datatype CompiledVariable = CompiledVariable(id: VariableId, bounds: Bounds, varType: VarType)
  datatype CompiledRow = CompiledRow(id: RowId, bounds: Bounds, coefficients: seq<(VariableId, real)>)
  datatype CompiledObjective = CompiledObjective(
    id: ObjectiveId, sense: Sense, coefficients: seq<(VariableId, real)>, constant: real)

  datatype BackendSnapshot = BackendSnapshot(
    compilation: CompilationId,
    revision: Revision,
    variables: seq<CompiledVariable>,
    rows: seq<CompiledRow>,
    objectives: seq<CompiledObjective>,
    policy: Policy,
    origins: Origins)

  datatype BackendOp =
    | AddVariable(added: CompiledVariable)
    | RemoveVariable(variable: VariableId)
    | SetVariableBounds(variable: VariableId, bounds: Bounds)
    | AddLinearRow(row: CompiledRow)
    | RemoveLinearRow(constraint: RowId)
    | SetLinearRowBounds(constraint: RowId, bounds: Bounds)
    | SetLinearCoefficient(constraint: RowId, variable: VariableId, value: real)
    | RemoveLinearCoefficient(constraint: RowId, variable: VariableId)
    | AddObjective(newObjective: CompiledObjective)
    | RemoveObjective(objective: ObjectiveId)
    | SetObjectiveCoefficient(objective: ObjectiveId, variable: VariableId, value: real)
    | SetObjectiveCosts(objective: ObjectiveId, costs: seq<(VariableId, real)>)
    | RemoveObjectiveCoefficient(objective: ObjectiveId, variable: VariableId)
    | SetObjectiveConstant(objective: ObjectiveId, value: real)
    | SetObjectiveSense(objective: ObjectiveId, sense: Sense)
    | SetObjectivePolicy(policy: Policy)

  datatype BackendDelta = BackendDelta(
    fromCompilation: CompilationId,
    toCompilation: CompilationId,
    fromRevision: Revision,
    toRevision: Revision,
    operations: seq<BackendOp>,
    originAdditions: Origins)

  datatype OverlayOp =
    | AddTemporaryVariable(added: CompiledVariable)
    | AddTemporaryObjective(newObjective: CompiledObjective)
    | SetTemporaryVariableBounds(variable: VariableId, bounds: Bounds)
    | SetTemporaryObjectiveCoefficient(objective: ObjectiveId, variable: VariableId, value: real)
    | SetTemporaryRowBounds(constraint: RowId, bounds: Bounds)
    | AddTemporaryRow(row: CompiledRow)
    | RemoveTemporaryRow(constraint: RowId)
    | OverridePolicy(policy: Policy)

  datatype CompiledOverlay = CompiledOverlay(
    base: CompilationId,
    compilation: CompilationId,
    overlay: OverlayId,
    operations: seq<OverlayOp>,
    originAdditions: Origins)

  /** The entities a batch or an overlay may refer to. */
  datatype Registry = Registry(variables: set<VariableId>, rows: set<RowId>, objectives: set<ObjectiveId>)

  predicate Refers(coefficients: seq<(VariableId, real)>, variables: set<VariableId>) {
    forall i :: 0 <= i < |coefficients| ==> coefficients[i].0 in variables
  }

  predicate PolicyResolves(policy: Policy, objectives: set<ObjectiveId>) {
    match policy
    case NoObjective => true
    case Single(id) => id in objectives
    case Weighted(items) => forall id :: id in items ==> id in objectives
    case Lexicographic(levels) => forall id :: id in levels ==> id in objectives
  }

  /** `x` lies between two bounds, either of which may be open. */
  predicate Within(b: Bounds, x: real) {
    && (match b.lower case NegInfinity => true case Finite(l) => l <= x case PosInfinity => false)
    && (match b.upper case PosInfinity => true case Finite(u) => x <= u case NegInfinity => false)
  }

  /** The value of a linear form at the point `x`. */
  function Activity(coefficients: seq<(VariableId, real)>, x: VariableId -> real): real {
    if |coefficients| == 0 then 0.0
    else
      var k := |coefficients| - 1;
      Activity(coefficients[..k], x) + coefficients[k].1 * x(coefficients[k].0)
  }

  predicate Representable(policy: Policy) {
    policy.NoObjective? || policy.Single?
  }

  /** One id family is unique and dense: it is a permutation of `0..n`. */
  predicate DenseFamily(ids: seq<nat>) {
    && (forall i, j :: 0 <= i < j < |ids| ==> ids[i] != ids[j])
    && (forall i :: 0 <= i < |ids| ==> ids[i] < |ids|)
  }

  predicate IdsDense(s: BackendSnapshot) {
    && DenseFamily(seq(|s.variables|, i requires 0 <= i < |s.variables| => s.variables[i].id.index))
    && DenseFamily(seq(|s.rows|, i requires 0 <= i < |s.rows| => s.rows[i].id.index))
    && DenseFamily(seq(|s.objectives|, i requires 0 <= i < |s.objectives| => s.objectives[i].id.index))
  }

  /** No id is listed twice within its family. */
  predicate IdsUnique(s: BackendSnapshot) {
    && (forall i, j :: 0 <= i < j < |s.variables| ==> s.variables[i].id != s.variables[j].id)
    && (forall i, j :: 0 <= i < j < |s.rows| ==> s.rows[i].id != s.rows[j].id)
    && (forall i, j :: 0 <= i < j < |s.objectives| ==> s.objectives[i].id != s.objectives[j].id)
  }

  predicate OriginsComplete(s: BackendSnapshot) {
    && (forall i :: 0 <= i < |s.variables| ==> s.variables[i].id in s.origins.variables)
    && (forall i :: 0 <= i < |s.rows| ==> s.rows[i].id in s.origins.rows)
    && (forall i :: 0 <= i < |s.objectives| ==> s.objectives[i].id in s.origins.objectives)
  }

  function VariableIds(s: BackendSnapshot): set<VariableId> {
    set i | 0 <= i < |s.variables| :: s.variables[i].id
  }

  function ObjectiveIds(s: BackendSnapshot): set<ObjectiveId> {
    set i | 0 <= i < |s.objectives| :: s.objectives[i].id
  }

  predicate RowsRefer(s: BackendSnapshot) {
    forall i :: 0 <= i < |s.rows| ==> Refers(s.rows[i].coefficients, VariableIds(s))
  }

  predicate ObjectivesRefer(s: BackendSnapshot) {
    forall i :: 0 <= i < |s.objectives| ==> Refers(s.objectives[i].coefficients, VariableIds(s))
  }

  /** Everything the rebuild itself relies on; ids may have gaps. */
  predicate SnapshotSound(s: BackendSnapshot) {
    && IdsUnique(s)
    && OriginsComplete(s)
    && RowsRefer(s)
    && ObjectivesRefer(s)
    && PolicyResolves(s.policy, ObjectiveIds(s))
  }

  /** `BackendSnapshot::validate`. */
  predicate SnapshotValid(s: BackendSnapshot) {
    && IdsDense(s)
    && OriginsComplete(s)
    && RowsRefer(s)
    && ObjectivesRefer(s)
    && PolicyResolves(s.policy, ObjectiveIds(s))
  }

  lemma ValidIsSound(s: BackendSnapshot)
    requires SnapshotValid(s)
    ensures SnapshotSound(s)
  {
    hide OriginsComplete, RowsRefer, ObjectivesRefer, PolicyResolves;
    var vs := seq(|s.variables|, i requires 0 <= i < |s.variables| => s.variables[i].id.index);
    var rs := seq(|s.rows|, i requires 0 <= i < |s.rows| => s.rows[i].id.index);
    var os := seq(|s.objectives|, i requires 0 <= i < |s.objectives| => s.objectives[i].id.index);
    assert forall i :: 0 <= i < |s.variables| ==> s.variables[i].id.index == vs[i];
    assert forall i :: 0 <= i < |s.rows| ==> s.rows[i].id.index == rs[i];
    assert forall i :: 0 <= i < |s.objectives| ==> s.objectives[i].id.index == os[i];
  }

  /** What `BackendDeltaBatch::validate` asks of one op, against the entities present so far. */
  predicate OpValid(op: BackendOp, present: Registry, origins: Origins) {
    match op
    case AddVariable(v) => v.id !in present.variables && v.id in origins.variables
    case RemoveVariable(id) => id in present.variables
    case SetVariableBounds(v, _) => v in present.variables
    case AddLinearRow(r) =>
      r.id !in present.rows && r.id in origins.rows && Refers(r.coefficients, present.variables)
    case RemoveLinearRow(id) => id in present.rows
    case SetLinearRowBounds(r, _) => r in present.rows
    case SetLinearCoefficient(r, v, _) => r in present.rows && v in present.variables
    case RemoveLinearCoefficient(r, v) => r in present.rows && v in present.variables
    case AddObjective(o) =>
      o.id !in present.objectives && o.id in origins.objectives && Refers(o.coefficients, present.variables)
    case RemoveObjective(id) => id in present.objectives
    case SetObjectiveCoefficient(o, v, _) => o in present.objectives && v in present.variables
    case SetObjectiveCosts(o, costs) => o in present.objectives && Refers(costs, present.variables)
    case RemoveObjectiveCoefficient(o, v) => o in present.objectives && v in present.variables
    case SetObjectiveConstant(o, _) => o in present.objectives
    case SetObjectiveSense(o, _) => o in present.objectives
    case SetObjectivePolicy(p) => PolicyResolves(p, present.objectives)
  }

  /** The registry after one accepted op. */
  function Registered(op: BackendOp, present: Registry): Registry {
    match op
    case AddVariable(v) => present.(variables := present.variables + {v.id})
    case RemoveVariable(id) => present.(variables := present.variables - {id})
    case AddLinearRow(r) => present.(rows := present.rows + {r.id})
    case RemoveLinearRow(id) => present.(rows := present.rows - {id})
    case AddObjective(o) => present.(objectives := present.objectives + {o.id})
    case RemoveObjective(id) => present.(objectives := present.objectives - {id})
    case _ => present
  }

  predicate OpsValid(ops: seq<BackendOp>, present: Registry, origins: Origins) {
    |ops| == 0 || (OpValid(ops[0], present, origins) && OpsValid(ops[1..], Registered(ops[0], present), origins))
  }

  /** `BackendDeltaBatch::validate`. */
  predicate DeltaValid(b: BackendDelta, present: Registry) {
    && b.fromCompilation != b.toCompilation
    && b.fromRevision < b.toRevision
    && OpsValid(b.operations, present, b.originAdditions)
  }

  predicate OverlayOpValid(op: OverlayOp, present: Registry, overlay: OverlayId, origins: Origins) {
    match op
    case AddTemporaryVariable(v) =>
      && v.id !in present.variables
      && v.id in origins.variables && origins.variables[v.id] == FromOverlay(overlay, ViolationVariable)
    case AddTemporaryObjective(o) =>
      && o.id !in present.objectives
      && o.id in origins.objectives && origins.objectives[o.id] == FromOverlay(overlay, Bridge)
      && Refers(o.coefficients, present.variables)
    case SetTemporaryVariableBounds(v, _) => v in present.variables
    case SetTemporaryObjectiveCoefficient(o, v, _) => o in present.objectives && v in present.variables
    case SetTemporaryRowBounds(r, _) => r in present.rows
    case AddTemporaryRow(r) =>
      && r.id !in present.rows
      && r.id in origins.rows && origins.rows[r.id].FromOverlay? && origins.rows[r.id].overlay == overlay
      && Refers(r.coefficients, present.variables)
    case RemoveTemporaryRow(_) => false
    case OverridePolicy(p) => PolicyResolves(p, present.objectives)
  }

  function OverlayRegistered(op: OverlayOp, present: Registry): Registry {
    match op
    case AddTemporaryVariable(v) => present.(variables := present.variables + {v.id})
    case AddTemporaryObjective(o) => present.(objectives := present.objectives + {o.id})
    case AddTemporaryRow(r) => present.(rows := present.rows + {r.id})
    case _ => present
  }

  predicate OverlayOpsValid(ops: seq<OverlayOp>, present: Registry, overlay: OverlayId, origins: Origins) {
    |ops| == 0
    || (&& OverlayOpValid(ops[0], present, overlay, origins)
        && OverlayOpsValid(ops[1..], OverlayRegistered(ops[0], present), overlay, origins))
  }

  /** `CompiledOverlay::validate`. */
  predicate OverlayValid(o: CompiledOverlay, present: Registry) {
    o.compilation != o.base && OverlayOpsValid(o.operations, present, o.overlay, o.originAdditions)
  }

  datatype HealthEffect = Unharmed | Recoverable | RequiresRebuild | Terminal
  datatype Cause = NativeCall | MissingEntity | UnsupportedPolicy | InvalidInput | StaleCompilation | WrongRevision
  /** The outcome of a fallible step; `Failed` is the source's `BackendError`. */
  datatype Status = Ok | Failed(cause: Cause, effect: HealthEffect)

  const NATIVE_FAILURE := Failed(NativeCall, Recoverable)
  const INVALID := Failed(InvalidInput, RequiresRebuild)
  const MISSING := Failed(MissingEntity, RequiresRebuild)
  const UNSUPPORTED := Failed(UnsupportedPolicy, RequiresRebuild)
}
