/**
 * src/compiler/backend_ir.rs and src/solver/overlay.rs: what the two preflight checks accept, said by the ids an op
 * names, adds and removes instead of arm by arm.
 */
module Validations {
  import opened Common
  import opened BackendIr

  const NOTHING := Registry({}, {}, {})

  function VariablesIn(coefficients: seq<(VariableId, real)>): set<VariableId> {
    set i | 0 <= i < |coefficients| :: coefficients[i].0
  }

  function ObjectivesIn(policy: Policy): set<ObjectiveId> {
    match policy
    case NoObjective => {}
    case Single(o) => {o}
    case Weighted(items) => set o | o in items
    case Lexicographic(levels) => set o | o in levels
  }

  /** Everything an op names except the entity it adds. */
  function Named(op: BackendOp): Registry {
    match op
    case AddVariable(_) => NOTHING
    case RemoveVariable(v) => Registry({v}, {}, {})
    case SetVariableBounds(v, _) => Registry({v}, {}, {})
    case AddLinearRow(r) => Registry(VariablesIn(r.coefficients), {}, {})
    case RemoveLinearRow(r) => Registry({}, {r}, {})
    case SetLinearRowBounds(r, _) => Registry({}, {r}, {})
    case SetLinearCoefficient(r, v, _) => Registry({v}, {r}, {})
    case RemoveLinearCoefficient(r, v) => Registry({v}, {r}, {})
    case AddObjective(o) => Registry(VariablesIn(o.coefficients), {}, {})
    case RemoveObjective(o) => Registry({}, {}, {o})
    case SetObjectiveCoefficient(o, v, _) => Registry({v}, {}, {o})
    case SetObjectiveCosts(o, costs) => Registry(VariablesIn(costs), {}, {o})
    case RemoveObjectiveCoefficient(o, v) => Registry({v}, {}, {o})
    case SetObjectiveConstant(o, _) => Registry({}, {}, {o})
    case SetObjectiveSense(o, _) => Registry({}, {}, {o})
    case SetObjectivePolicy(p) => Registry({}, {}, ObjectivesIn(p))
  }

  /** The entity an op adds. */
  function Added(op: BackendOp): Registry {
    match op
    case AddVariable(v) => Registry({v.id}, {}, {})
    case AddLinearRow(r) => Registry({}, {r.id}, {})
    case AddObjective(o) => Registry({}, {}, {o.id})
    case _ => NOTHING
  }

  /** The entity an op removes. */
  function Dropped(op: BackendOp): Registry {
    match op
    case RemoveVariable(v) => Registry({v}, {}, {})
    case RemoveLinearRow(r) => Registry({}, {r}, {})
    case RemoveObjective(o) => Registry({}, {}, {o})
    case _ => NOTHING
  }

  predicate Covers(present: Registry, named: Registry) {
    && named.variables <= present.variables
    && named.rows <= present.rows
    && named.objectives <= present.objectives
  }

  predicate Disjoint(a: Registry, b: Registry) {
    a.variables !! b.variables && a.rows !! b.rows && a.objectives !! b.objectives
  }

  predicate HaveOrigins(added: Registry, origins: Origins) {
    && added.variables <= origins.variables.Keys
    && added.rows <= origins.rows.Keys
    && added.objectives <= origins.objectives.Keys
  }

  /** What is there after the first `k` ops: what an op removes goes, what it adds comes. */
  function After(ops: seq<BackendOp>, k: nat, present: Registry): Registry
    requires k <= |ops|
  {
    if k == 0 then present
    else
      var before, op := After(ops, k - 1, present), ops[k - 1];
      Registry(
        before.variables - Dropped(op).variables + Added(op).variables,
        before.rows - Dropped(op).rows + Added(op).rows,
        before.objectives - Dropped(op).objectives + Added(op).objectives)
  }

  /** The names of the op at `k` are there by then, and what it adds is not and has an origin. */
  predicate Resolves(ops: seq<BackendOp>, k: nat, present: Registry, origins: Origins)
    requires k < |ops|
  {
    && Covers(After(ops, k, present), Named(ops[k]))
    && Disjoint(After(ops, k, present), Added(ops[k]))
    && HaveOrigins(Added(ops[k]), origins)
  }

  lemma RefersToAll(coefficients: seq<(VariableId, real)>, present: set<VariableId>)
    ensures Refers(coefficients, present) <==> VariablesIn(coefficients) <= present
  {
    forall i | Refers(coefficients, present) && 0 <= i < |coefficients|
      ensures coefficients[i].0 in present
    {
    }
    forall i | VariablesIn(coefficients) <= present && 0 <= i < |coefficients|
      ensures coefficients[i].0 in present
    {
      assert coefficients[i].0 in VariablesIn(coefficients);
    }
  }

  lemma OpResolves(op: BackendOp, present: Registry, origins: Origins)
    ensures OpValid(op, present, origins) <==>
      Covers(present, Named(op)) && Disjoint(present, Added(op)) && HaveOrigins(Added(op), origins)
  {
    hide Refers, VariablesIn;
    match op {
      case AddLinearRow(r) => RefersToAll(r.coefficients, present.variables);
      case AddObjective(o) => RefersToAll(o.coefficients, present.variables);
      case SetObjectiveCosts(_, costs) => RefersToAll(costs, present.variables);
      case _ =>
    }
  }

  lemma {:induction false} AfterTail(ops: seq<BackendOp>, k: nat, present: Registry)
    requires k < |ops|
    ensures After(ops, k + 1, present) == After(ops[1..], k, Registered(ops[0], present))
  {
    if k != 0 {
      AfterTail(ops, k - 1, present);
    }
  }

  lemma {:induction false} OpsResolve(ops: seq<BackendOp>, present: Registry, origins: Origins)
    ensures OpsValid(ops, present, origins) <==> forall k :: 0 <= k < |ops| ==> Resolves(ops, k, present, origins)
    decreases |ops|
  {
    hide OpValid, Covers, Disjoint, HaveOrigins, Named, Added, After;
    if |ops| != 0 {
      var rest, next := ops[1..], Registered(ops[0], present);
      OpResolves(ops[0], present, origins);
      OpsResolve(rest, next, origins);
      AfterNothing(ops, present);
      assert Resolves(ops, 0, present, origins) <==> OpValid(ops[0], present, origins);
      forall k | 0 <= k < |rest|
        ensures Resolves(rest, k, next, origins) <==> Resolves(ops, k + 1, present, origins)
      {
        AfterTail(ops, k, present);
      }
      forall k | 0 < k < |ops|
        ensures Resolves(ops, k, present, origins) <==> Resolves(rest, k - 1, next, origins)
      {
        AfterTail(ops, k - 1, present);
      }
    }
  }

  lemma AfterNothing(ops: seq<BackendOp>, present: Registry)
    ensures After(ops, 0, present) == present
  {
  }

  /**
   * The preflight check of a batch accepts exactly the batches that lead to a new id and a later revision and in
   * which every op finds what it names, given the ops before it, and adds only what is new and has an origin.
   */
  lemma DeltaIsValidExactly(b: BackendDelta, present: Registry)
    ensures DeltaValid(b, present) <==>
      && b.fromCompilation != b.toCompilation
      && b.fromRevision < b.toRevision
      && forall k :: 0 <= k < |b.operations| ==> Resolves(b.operations, k, present, b.originAdditions)
  {
    OpsResolve(b.operations, present, b.originAdditions);
  }

  // ---------------------------------------------------------------- overlays

  function OverlayNamed(op: OverlayOp): Registry {
    match op
    case AddTemporaryVariable(_) => NOTHING
    case AddTemporaryObjective(o) => Registry(VariablesIn(o.coefficients), {}, {})
    case SetTemporaryVariableBounds(v, _) => Registry({v}, {}, {})
    case SetTemporaryObjectiveCoefficient(o, v, _) => Registry({v}, {}, {o})
    case SetTemporaryRowBounds(r, _) => Registry({}, {r}, {})
    case AddTemporaryRow(r) => Registry(VariablesIn(r.coefficients), {}, {})
    case RemoveTemporaryRow(r) => Registry({}, {r}, {})
    case OverridePolicy(p) => Registry({}, {}, ObjectivesIn(p))
  }

  function OverlayAdded(op: OverlayOp): Registry {
    match op
    case AddTemporaryVariable(v) => Registry({v.id}, {}, {})
    case AddTemporaryObjective(o) => Registry({}, {}, {o.id})
    case AddTemporaryRow(r) => Registry({}, {r.id}, {})
    case _ => NOTHING
  }

  /**
   * The overlay's own additions: variables as violation variables, objectives as bridges, rows in any role.
   */
  function OwnAdditions(origins: Origins, overlay: OverlayId): Registry {
    Registry(
      set v | v in origins.variables && origins.variables[v] == FromOverlay(overlay, ViolationVariable),
      set r | r in origins.rows && origins.rows[r].FromOverlay?
        && origins.rows[r].overlay == overlay,
      set o | o in origins.objectives && origins.objectives[o] == FromOverlay(overlay, Bridge))
  }

  /** What is there after the first `k` ops; an overlay removes nothing. */
  function OverlayAfter(ops: seq<OverlayOp>, k: nat, present: Registry): Registry
    requires k <= |ops|
  {
    if k == 0 then present
    else
      var before, added := OverlayAfter(ops, k - 1, present), OverlayAdded(ops[k - 1]);
      Registry(
        before.variables + added.variables, before.rows + added.rows, before.objectives + added.objectives)
  }

  /** The same of an overlay op; removing a temporary row is for rollback alone. */
  predicate OverlayResolves(ops: seq<OverlayOp>, k: nat, present: Registry, overlay: OverlayId, origins: Origins)
    requires k < |ops|
  {
    && !ops[k].RemoveTemporaryRow?
    && Covers(OverlayAfter(ops, k, present), OverlayNamed(ops[k]))
    && Disjoint(OverlayAfter(ops, k, present), OverlayAdded(ops[k]))
    && Covers(OwnAdditions(origins, overlay), OverlayAdded(ops[k]))
  }

  lemma OverlayOpResolves(op: OverlayOp, present: Registry, overlay: OverlayId, origins: Origins)
    ensures OverlayOpValid(op, present, overlay, origins) <==>
      && !op.RemoveTemporaryRow? && Covers(present, OverlayNamed(op)) && Disjoint(present, OverlayAdded(op))
      && Covers(OwnAdditions(origins, overlay), OverlayAdded(op))
  {
    hide Refers, VariablesIn;
    match op {
      case AddTemporaryRow(r) => RefersToAll(r.coefficients, present.variables);
      case AddTemporaryObjective(o) => RefersToAll(o.coefficients, present.variables);
      case _ =>
    }
  }

  lemma {:induction false} OverlayAfterTail(ops: seq<OverlayOp>, k: nat, present: Registry)
    requires k < |ops|
    ensures OverlayAfter(ops, k + 1, present) == OverlayAfter(ops[1..], k, OverlayRegistered(ops[0], present))
  {
    if k != 0 {
      OverlayAfterTail(ops, k - 1, present);
    }
  }

  lemma OverlayAfterNothing(ops: seq<OverlayOp>, present: Registry)
    ensures OverlayAfter(ops, 0, present) == present
  {
  }

  lemma {:induction false} OverlayOpsResolve(
      ops: seq<OverlayOp>, present: Registry, overlay: OverlayId, origins: Origins)
    ensures OverlayOpsValid(ops, present, overlay, origins) <==>
      forall k :: 0 <= k < |ops| ==> OverlayResolves(ops, k, present, overlay, origins)
    decreases |ops|
  {
    hide OverlayOpValid, Covers, Disjoint, OwnAdditions, OverlayNamed, OverlayAdded, OverlayAfter;
    if |ops| != 0 {
      var rest, next := ops[1..], OverlayRegistered(ops[0], present);
      OverlayOpResolves(ops[0], present, overlay, origins);
      OverlayOpsResolve(rest, next, overlay, origins);
      OverlayAfterNothing(ops, present);
      assert OverlayResolves(ops, 0, present, overlay, origins) <==> OverlayOpValid(ops[0], present, overlay, origins);
      forall k | 0 <= k < |rest|
        ensures OverlayResolves(rest, k, next, overlay, origins)
          <==> OverlayResolves(ops, k + 1, present, overlay, origins)
      {
        OverlayAfterTail(ops, k, present);
      }
      forall k | 0 < k < |ops|
        ensures OverlayResolves(ops, k, present, overlay, origins)
          <==> OverlayResolves(rest, k - 1, next, overlay, origins)
      {
        OverlayAfterTail(ops, k - 1, present);
      }
    }
  }

  /** The same of the preflight check of an overlay, whose additions must moreover be marked as its own. */
  lemma OverlayIsValidExactly(o: CompiledOverlay, present: Registry)
    ensures OverlayValid(o, present) <==>
      && o.compilation != o.base
      && forall k :: 0 <= k < |o.operations| ==>
           OverlayResolves(o.operations, k, present, o.overlay, o.originAdditions)
  {
    OverlayOpsResolve(o.operations, present, o.overlay, o.originAdditions);
  }

  // ---------------------------------------------------------------- snapshots

  function UpTo(n: nat): (r: set<nat>)
    ensures |r| == n && forall i: nat :: i in r <==> i < n
  {
    if n == 0 then {} else UpTo(n - 1) + {n - 1}
  }

  function Members(ids: seq<nat>): set<nat> {
    set id | id in ids
  }

  /** A family is unique and dense exactly when its ids are `0..n`, each of them once, in any order. */
  lemma DenseIsAllIds(ids: seq<nat>)
    ensures DenseFamily(ids) <==> Members(ids) == UpTo(|ids|)
  {
    if DenseFamily(ids) {
      CountsElements(ids);
      SubsetOfSameSize(Members(ids), UpTo(|ids|));
    } else if Members(ids) == UpTo(|ids|) {
      assert forall i :: 0 <= i < |ids| ==> ids[i] in Members(ids);
      var i, j :| 0 <= i < j < |ids| && ids[i] == ids[j];
      FewerWhenRepeated(ids, i, j);
    }
  }

  lemma SubsetOfSameSize(a: set<nat>, b: set<nat>)
    requires a <= b && |a| == |b|
    ensures a == b
  {
    if x :| x in b && x !in a {
      SubsetIsSmaller(a, b - {x});
    }
  }

  lemma {:induction false} SubsetIsSmaller(a: set<nat>, b: set<nat>)
    requires a <= b
    ensures |a| <= |b|
  {
    if a != {} {
      var x :| x in a;
      SubsetIsSmaller(a - {x}, b - {x});
    }
  }

  lemma {:induction false} AtMostLength(ids: seq<nat>)
    ensures |Members(ids)| <= |ids|
  {
    if |ids| != 0 {
      var k := |ids| - 1;
      AtMostLength(ids[..k]);
      assert Members(ids) == Members(ids[..k]) + {ids[k]};
    }
  }

  lemma FewerWhenRepeated(ids: seq<nat>, i: nat, j: nat)
    requires i < j < |ids| && ids[i] == ids[j]
    ensures |Members(ids)| < |ids|
  {
    var rest := ids[..j] + ids[j + 1..];
    AtMostLength(rest);
    forall id | id in ids
      ensures id in rest
    {
      var k :| 0 <= k < |ids| && ids[k] == id;
      assert rest[if k < j then k else if k == j then i else k - 1] == id;
    }
    assert Members(ids) == Members(rest);
  }

  /** What a snapshot lists, and what its rows, objectives and policy name. */
  function Listed(s: BackendSnapshot): Registry {
    Registry(VariableIds(s), set j | 0 <= j < |s.rows| :: s.rows[j].id, ObjectiveIds(s))
  }

  predicate NamesOnlyListed(s: BackendSnapshot) {
    && (forall j :: 0 <= j < |s.rows| ==> VariablesIn(s.rows[j].coefficients) <= Listed(s).variables)
    && (forall k :: 0 <= k < |s.objectives| ==> VariablesIn(s.objectives[k].coefficients) <= Listed(s).variables)
    && ObjectivesIn(s.policy) <= Listed(s).objectives
  }

  function Indices(s: BackendSnapshot): (seq<nat>, seq<nat>, seq<nat>) {
    (seq(|s.variables|, i requires 0 <= i < |s.variables| => s.variables[i].id.index),
     seq(|s.rows|, i requires 0 <= i < |s.rows| => s.rows[i].id.index),
     seq(|s.objectives|, i requires 0 <= i < |s.objectives| => s.objectives[i].id.index))
  }

  /**
   * The preflight check of a snapshot accepts exactly those whose families number their entities from zero without a
   * gap, that give every entity an origin, and that name only what they list.
   */
  lemma SnapshotIsValidExactly(s: BackendSnapshot)
    ensures SnapshotValid(s) <==>
      && Members(Indices(s).0) == UpTo(|s.variables|)
      && Members(Indices(s).1) == UpTo(|s.rows|)
      && Members(Indices(s).2) == UpTo(|s.objectives|)
      && HaveOrigins(Listed(s), s.origins)
      && NamesOnlyListed(s)
  {
    hide DenseFamily, Members, Refers, VariablesIn;
    DenseIsAllIds(Indices(s).0);
    DenseIsAllIds(Indices(s).1);
    DenseIsAllIds(Indices(s).2);
    OriginsAreComplete(s);
    forall j | 0 <= j < |s.rows|
      ensures Refers(s.rows[j].coefficients, VariableIds(s))
        <==> VariablesIn(s.rows[j].coefficients) <= VariableIds(s)
    {
      RefersToAll(s.rows[j].coefficients, VariableIds(s));
    }
    forall k | 0 <= k < |s.objectives|
      ensures Refers(s.objectives[k].coefficients, VariableIds(s))
        <==> VariablesIn(s.objectives[k].coefficients) <= VariableIds(s)
    {
      RefersToAll(s.objectives[k].coefficients, VariableIds(s));
    }
    PolicyNames(s.policy, ObjectiveIds(s));
  }

  lemma PolicyNames(p: Policy, objectives: set<ObjectiveId>)
    ensures PolicyResolves(p, objectives) <==> ObjectivesIn(p) <= objectives
  {
  }

  lemma OriginsAreComplete(s: BackendSnapshot)
    ensures OriginsComplete(s) <==> HaveOrigins(Listed(s), s.origins)
  {
    if HaveOrigins(Listed(s), s.origins) {
      assert forall i :: 0 <= i < |s.variables| ==> s.variables[i].id in Listed(s).variables;
      assert forall i :: 0 <= i < |s.rows| ==> s.rows[i].id in Listed(s).rows;
      assert forall i :: 0 <= i < |s.objectives| ==> s.objectives[i].id in Listed(s).objectives;
    }
  }
}
