/**
 * src/compiler/backend_ir.rs and src/solver/overlay.rs: what the ops mean to whoever solves the model. Each op is
 * told by the points it admits and by the values of the objectives there.
 */
module OpMeanings {
  import opened Common
  import opened BackendIr
  import opened Highs
  import opened IndexMaps
  import opened CompiledModels
  import opened NativeViews
  import opened Caching
  import opened Representing
  import opened Overlaying
  import opened Meanings

  // ---------------------------------------------------------------- a model at a point

  predicate VariableOk(d: VariableData, value: real) {
    Within(d.bounds, value) && (d.integer ==> IsWhole(value))
  }

  predicate RowOk(d: RowData, cols: seq<VariableId>, x: Point) {
    Within(d.bounds, Sum(d.coefficients, cols, x))
  }

  /** All variables and rows but those named accept the point. */
  ghost predicate AllowsBut(
      m: Model, cols: seq<VariableId>, x: Point, variables: set<VariableId>, rows: set<RowId>)
  {
    && (forall v :: v in m.variables && v !in variables ==> VariableOk(m.variables[v], x(v)))
    && (forall r :: r in m.rows && r !in rows ==> RowOk(m.rows[r], cols, x))
  }

  ghost predicate Allows(m: Model, cols: seq<VariableId>, x: Point) {
    AllowsBut(m, cols, x, {}, {})
  }

  function Value(d: ObjectiveData, cols: seq<VariableId>, x: Point): real {
    d.constant + Sum(d.costs, cols, x)
  }

  ghost predicate Enumerates(cols: seq<VariableId>, m: Model) {
    Distinct(cols) && forall v :: v in m.variables ==> v in cols
  }

  /** The point with one value set to zero. */
  function Zeroed(x: Point, v: VariableId): Point {
    w => if w == v then 0.0 else x(w)
  }

  // ---------------------------------------------------------------- sums

  lemma {:induction false} DotOfEqualTerms(a: seq<real>, b: seq<real>, c: seq<real>, d: seq<real>)
    requires |a| == |b| == |c| == |d| && forall i :: 0 <= i < |a| ==> a[i] * b[i] == c[i] * d[i]
    ensures Dot(a, b) == Dot(c, d)
  {
    if |a| != 0 {
      var k := |a| - 1;
      DotOfEqualTerms(a[..k], b[..k], c[..k], d[..k]);
    }
  }

  lemma SumZeroed(c: map<VariableId, real>, cols: seq<VariableId>, x: Point, v: VariableId)
    ensures Sum(c - {v}, cols, x) == Sum(c, cols, Zeroed(x, v))
  {
    DotOfEqualTerms(CellsOf(c - {v}, cols), ColumnValues(x, cols), CellsOf(c, cols), ColumnValues(Zeroed(x, v), cols));
  }

  lemma SumRemoved(c: map<VariableId, real>, cols: seq<VariableId>, x: Point, v: VariableId)
    requires Distinct(cols) && v in cols
    ensures Sum(c - {v}, cols, x) == Sum(c, cols, x) - Cell(c, v) * x(v)
  {
    SumUpserted(c, cols, x, v, 0.0);
    assert CellsOf(c - {v}, cols) == CellsOf(c[v := 0.0], cols);
  }

  // ---------------------------------------------------------------- variables

  /** Objectives keep their values, and the policy stays. */
  ghost predicate ObjectivesStay(n: Model, m: Model, cols: seq<VariableId>, x: Point, y: Point) {
    && n.objectives.Keys == m.objectives.Keys && n.policy == m.policy
    && (forall o :: o in m.objectives ==>
          && n.objectives[o].sense == m.objectives[o].sense && n.objectives[o].user == m.objectives[o].user
          && Value(n.objectives[o], cols, x) == Value(m.objectives[o], cols, y))
  }

  /** An added variable adds its own condition and nothing else. */
  lemma AddVariableMeans(m: Model, v: CompiledVariable, origins: Origins, cols: seq<VariableId>, x: Point)
    requires v.id !in m.variables
    ensures
      var n := Apply(m, AddVariable(v), origins);
      && (Allows(n, cols, x) <==> Allows(m, cols, x) && VariableAllows(v, x))
      && ObjectivesStay(n, m, cols, x, x)
  {
    hide Within, IsWhole, RowOk, Sum;
    var n := Apply(m, AddVariable(v), origins);
    assert VariableOk(n.variables[v.id], x(v.id)) <==> VariableAllows(v, x);
    forall w | w in m.variables
      ensures n.variables[w] == m.variables[w]
    {
    }
  }

  /** A removed variable takes its condition along, and the rest sees it at zero. */
  lemma RemoveVariableMeans(m: Model, v: VariableId, origins: Origins, cols: seq<VariableId>, x: Point)
    ensures
      var n := Apply(m, RemoveVariable(v), origins);
      && (Allows(n, cols, x) <==> AllowsBut(m, cols, Zeroed(x, v), {v}, {}))
      && ObjectivesStay(n, m, cols, x, Zeroed(x, v))
  {
    hide Within, IsWhole, Sum;
    var n := Apply(m, RemoveVariable(v), origins);
    forall r | r in m.rows
      ensures RowOk(n.rows[r], cols, x) <==> RowOk(m.rows[r], cols, Zeroed(x, v))
    {
      SumZeroed(m.rows[r].coefficients, cols, x, v);
    }
    forall o | o in m.objectives
      ensures Value(n.objectives[o], cols, x) == Value(m.objectives[o], cols, Zeroed(x, v))
    {
      SumZeroed(m.objectives[o].costs, cols, x, v);
    }
    hide RowOk, Value, Zeroed;
    assert n.rows.Keys == m.rows.Keys && n.objectives.Keys == m.objectives.Keys;
    ZeroedElsewhere(x, v);
  }

  lemma ZeroedElsewhere(x: Point, v: VariableId)
    ensures forall w :: w != v ==> Zeroed(x, v)(w) == x(w)
  {
  }

  /** New bounds replace the old ones of that variable; integrality stays. */
  lemma VariableBoundsMean(
      m: Model, v: VariableId, b: Bounds, origins: Origins, cols: seq<VariableId>, x: Point)
    requires v in m.variables
    ensures
      var n := Apply(m, SetVariableBounds(v, b), origins);
      && (Allows(n, cols, x) <==>
            AllowsBut(m, cols, x, {v}, {}) && Within(b, x(v)) && (m.variables[v].integer ==> IsWhole(x(v))))
      && ObjectivesStay(n, m, cols, x, x)
  {
    hide Within, IsWhole, RowOk, Sum;
    var n := Apply(m, SetVariableBounds(v, b), origins);
    assert VariableOk(n.variables[v], x(v)) <==> Within(b, x(v)) && (m.variables[v].integer ==> IsWhole(x(v)));
  }

  // ---------------------------------------------------------------- rows

  /** Where one row is new, the model is the rest of it and that row. */
  lemma OneRowMore(m: Model, n: Model, r: RowId, cols: seq<VariableId>, x: Point)
    requires r in n.rows && n.variables == m.variables && n.rows == m.rows[r := n.rows[r]]
    ensures Allows(n, cols, x) <==> AllowsBut(m, cols, x, {}, {r}) && RowOk(n.rows[r], cols, x)
  {
    hide Within, IsWhole, RowOk, VariableOk;
  }

  /** An added row adds its own condition and nothing else. */
  lemma AddRowMeans(m: Model, r: CompiledRow, origins: Origins, cols: seq<VariableId>, x: Point)
    requires r.id !in m.rows && Enumerates(cols, m) && Refers(r.coefficients, m.variables.Keys)
    requires NamesOnce(r.coefficients)
    ensures
      var n := Apply(m, AddLinearRow(r), origins);
      && (Allows(n, cols, x) <==> Allows(m, cols, x) && Within(r.bounds, Activity(r.coefficients, x)))
      && n.objectives == m.objectives && n.policy == m.policy
  {
    hide Within, IsWhole, Sum, VariableOk;
    var n := Apply(m, AddLinearRow(r), origins);
    SumOfList(r.coefficients, cols, x);
    OneRowMore(m, n, r.id, cols, x);
    assert Allows(m, cols, x) <==> AllowsBut(m, cols, x, {}, {r.id});
  }

  /** A removed row takes its condition along. */
  lemma RemoveRowMeans(m: Model, r: RowId, origins: Origins, cols: seq<VariableId>, x: Point)
    ensures
      var n := Apply(m, RemoveLinearRow(r), origins);
      && (Allows(n, cols, x) <==> AllowsBut(m, cols, x, {}, {r}))
      && n.objectives == m.objectives && n.policy == m.policy
  {
  }

  /** New row bounds replace the old ones; the row's form stays. */
  lemma RowBoundsMean(m: Model, r: RowId, b: Bounds, origins: Origins, cols: seq<VariableId>, x: Point)
    requires r in m.rows
    ensures
      var n := Apply(m, SetLinearRowBounds(r, b), origins);
      && (Allows(n, cols, x) <==> AllowsBut(m, cols, x, {}, {r}) && Within(b, Sum(m.rows[r].coefficients, cols, x)))
      && n.objectives == m.objectives && n.policy == m.policy
  {
    hide Within, IsWhole, Sum, VariableOk;
    OneRowMore(m, Apply(m, SetLinearRowBounds(r, b), origins), r, cols, x);
  }

  lemma WithinEqual(b: Bounds, x: real, y: real)
    requires x == y
    ensures Within(b, x) <==> Within(b, y)
  {
  }

  /** A written coefficient moves its row by the difference to the old one, times the variable. */
  lemma CoefficientMeans(
      m: Model, r: RowId, v: VariableId, y: real, origins: Origins, cols: seq<VariableId>, x: Point)
    requires r in m.rows && v in m.variables && Enumerates(cols, m)
    ensures
      var n, c := Apply(m, SetLinearCoefficient(r, v, y), origins), m.rows[r].coefficients;
      && (Allows(n, cols, x) <==>
            && AllowsBut(m, cols, x, {}, {r})
            && Within(m.rows[r].bounds, Sum(c, cols, x) + (y - Cell(c, v)) * x(v)))
      && n.objectives == m.objectives && n.policy == m.policy
  {
    hide Within, IsWhole, Sum, VariableOk, AllowsBut, Cell, Distinct;
    var n := Apply(m, SetLinearCoefficient(r, v, y), origins);
    assert n.rows[r] == m.rows[r].(coefficients := m.rows[r].coefficients[v := y]);
    SumUpserted(m.rows[r].coefficients, cols, x, v, y);
    OneRowMore(m, n, r, cols, x);
    WithinEqual(m.rows[r].bounds, Sum(n.rows[r].coefficients, cols, x),
      Sum(m.rows[r].coefficients, cols, x) + (y - Cell(m.rows[r].coefficients, v)) * x(v));
  }

  /** A removed coefficient takes its own part out of the row. */
  lemma RemovedCoefficientMeans(
      m: Model, r: RowId, v: VariableId, origins: Origins, cols: seq<VariableId>, x: Point)
    requires r in m.rows && v in m.variables && Enumerates(cols, m)
    ensures
      var n, c := Apply(m, RemoveLinearCoefficient(r, v), origins), m.rows[r].coefficients;
      && (Allows(n, cols, x) <==>
            AllowsBut(m, cols, x, {}, {r}) && Within(m.rows[r].bounds, Sum(c, cols, x) - Cell(c, v) * x(v)))
      && n.objectives == m.objectives && n.policy == m.policy
  {
    hide Within, IsWhole, Sum, VariableOk, AllowsBut, Cell, Distinct;
    var n := Apply(m, RemoveLinearCoefficient(r, v), origins);
    assert n.rows[r] == m.rows[r].(coefficients := m.rows[r].coefficients - {v});
    SumRemoved(m.rows[r].coefficients, cols, x, v);
    OneRowMore(m, n, r, cols, x);
    WithinEqual(m.rows[r].bounds, Sum(n.rows[r].coefficients, cols, x),
      Sum(m.rows[r].coefficients, cols, x) - Cell(m.rows[r].coefficients, v) * x(v));
  }

  // ---------------------------------------------------------------- objectives

  /** Only the objective `o` differs, and it is there afterwards. */
  ghost predicate OnlyObjective(n: Model, m: Model, o: ObjectiveId) {
    && n.variables == m.variables && n.rows == m.rows && n.policy == m.policy
    && o in n.objectives && n.objectives == m.objectives[o := n.objectives[o]]
  }

  lemma AddObjectiveMeans(m: Model, o: CompiledObjective, origins: Origins, cols: seq<VariableId>, x: Point)
    requires Enumerates(cols, m) && Refers(o.coefficients, m.variables.Keys) && NamesOnce(o.coefficients)
    ensures
      var n := Apply(m, AddObjective(o), origins);
      && OnlyObjective(n, m, o.id) && n.objectives[o.id].sense == o.sense
      && Value(n.objectives[o.id], cols, x) == o.constant + Activity(o.coefficients, x)
  {
    SumOfList(o.coefficients, cols, x);
  }

  /** A removed objective is gone, and the policy with it where it was the selected one. */
  lemma RemoveObjectiveMeans(m: Model, o: ObjectiveId, origins: Origins)
    ensures
      var n := Apply(m, RemoveObjective(o), origins);
      && n.variables == m.variables && n.rows == m.rows && o !in n.objectives
      && (forall p :: p in m.objectives && p != o ==> p in n.objectives && n.objectives[p] == m.objectives[p])
      && n.objectives.Keys <= m.objectives.Keys
      && (n.policy.Single? ==> n.policy.objective != o)
      && (m.policy != Single(o) ==> n.policy == m.policy) && (m.policy == Single(o) ==> n.policy.NoObjective?)
  {
  }

  /** What the ops on one objective do to its value, its sense staying unless it is the one set. */
  lemma ObjectiveOpMeans(m: Model, op: BackendOp, o: ObjectiveId, origins: Origins, cols: seq<VariableId>, x: Point)
    requires o in m.objectives && Enumerates(cols, m)
    ensures
      var n, d := Apply(m, op, origins), m.objectives[o];
      match op
      case SetObjectiveCoefficient(p, v, y) => p == o && v in m.variables ==>
        && OnlyObjective(n, m, o) && n.objectives[o].sense == d.sense
        && Value(n.objectives[o], cols, x) == Value(d, cols, x) + (y - Cell(d.costs, v)) * x(v)
      case SetObjectiveCosts(p, costs) => p == o && Refers(costs, m.variables.Keys) && NamesOnce(costs) ==>
        && OnlyObjective(n, m, o) && n.objectives[o].sense == d.sense
        && Value(n.objectives[o], cols, x) == Value(d, cols, x) + Activity(costs, x) - Replaced(costs, d.costs, x)
      case RemoveObjectiveCoefficient(p, v) => p == o && v in m.variables ==>
        && OnlyObjective(n, m, o) && n.objectives[o].sense == d.sense
        && Value(n.objectives[o], cols, x) == Value(d, cols, x) - Cell(d.costs, v) * x(v)
      case SetObjectiveConstant(p, y) => p == o ==>
        && OnlyObjective(n, m, o) && n.objectives[o].sense == d.sense
        && Value(n.objectives[o], cols, x) == Value(d, cols, x) + y - d.constant
      case SetObjectiveSense(p, s) => p == o ==>
        && OnlyObjective(n, m, o) && n.objectives[o].sense == s
        && Value(n.objectives[o], cols, x) == Value(d, cols, x)
      case SetObjectivePolicy(p) => n == m.(policy := p)
      case _ => true
  {
    hide Sum;
    var c := m.objectives[o].costs;
    match op {
      case SetObjectiveCoefficient(_, v, y) =>
        if v in m.variables { SumUpserted(c, cols, x, v, y); }
      case SetObjectiveCosts(_, costs) =>
        if Refers(costs, m.variables.Keys) && NamesOnce(costs) { SumOverridden(c, costs, cols, x); }
      case RemoveObjectiveCoefficient(_, v) =>
        if v in m.variables { SumRemoved(c, cols, x, v); }
      case _ =>
    }
  }

  // ---------------------------------------------------------------- overlays

  /** The delta op that a temporary op is, for as long as the overlay lasts. */
  function Lasting(op: OverlayOp): Option<BackendOp> {
    match op
    case AddTemporaryVariable(v) => Some(AddVariable(v))
    case AddTemporaryObjective(o) => Some(AddObjective(o))
    case SetTemporaryVariableBounds(v, b) => Some(SetVariableBounds(v, b))
    case SetTemporaryObjectiveCoefficient(o, v, x) => Some(SetObjectiveCoefficient(o, v, x))
    case SetTemporaryRowBounds(r, b) => Some(SetLinearRowBounds(r, b))
    case AddTemporaryRow(r) => Some(AddLinearRow(r))
    case RemoveTemporaryRow(_) => None
    case OverridePolicy(p) => Some(SetObjectivePolicy(p))
  }

  /** While it lasts an accepted temporary op means what that delta op means; what it adds belongs to no user. */
  lemma OverlayOpsAreDeltaOps(m: Model, op: OverlayOp, present: Registry, overlay: OverlayId, origins: Origins)
    requires OverlayOpValid(op, present, overlay, origins)
    ensures Lasting(op).Some? && Laid(m, op) == Apply(m, Lasting(op).value, origins)
  {
  }

  // ---------------------------------------------------------------- the native model

  /** Values and row activities stay below the finite stand-in for infinity. */
  ghost predicate Bounded(m: Model, cols: seq<VariableId>, x: Point, inf: real) {
    && (forall v :: v in m.variables ==> -inf < x(v) < inf)
    && (forall r :: r in m.rows ==> -inf < Sum(m.rows[r].coefficients, cols, x) < inf)
  }

  /** The native model entity by entity. */
  lemma NativeEntities(h: Held, m: Model, lay: Layout, inf: real)
    requires Represents(h, m, lay, inf)
    ensures Rectangular(h.native) && |h.native.cols| == |lay.cols| && |h.native.rows| == |lay.rows|
    ensures forall k :: 0 <= k < |lay.cols| ==>
      lay.cols[k] in m.variables && h.native.cols[k] == ColumnOf(m.variables[lay.cols[k]], inf)
    ensures forall k :: 0 <= k < |lay.rows| ==>
      lay.rows[k] in m.rows && h.native.rows[k] == RowOf(m.rows[lay.rows[k]], lay.cols, inf)
    ensures forall v :: v in m.variables ==> v in lay.cols
    ensures forall r :: r in m.rows ==> r in lay.rows
  {
    hide WellFormed, ColumnOf, CachesOf, SurfaceOf, NormalizeBounds;
  }

  lemma ColumnMeans(d: VariableData, inf: real, value: real)
    requires -inf < value < inf
    ensures
      var c := ColumnOf(d, inf);
      Admits(c.bounds, value) && (c.integer ==> IsWhole(value)) <==> VariableOk(d, value)
  {
    hide Within, Admits, NormalizeBounds, IsWhole;
    RangeMeans(d.bounds, inf, value);
  }

  lemma RowMeans(d: RowData, cols: seq<VariableId>, inf: real, x: Point)
    requires -inf < Sum(d.coefficients, cols, x) < inf
    ensures
      var row := RowOf(d, cols, inf);
      && |row.coefficients| == |cols|
      && (Admits(row.bounds, Dot(row.coefficients, ColumnValues(x, cols))) <==> RowOk(d, cols, x))
  {
    hide Within, Admits, NormalizeBounds, Dot;
    RangeMeans(d.bounds, inf, Sum(d.coefficients, cols, x));
  }

  /**
   * Whatever represents a model, after a rebuild or any deltas, accepts exactly the model's points.
   */
  lemma NativeMeansModel(h: Held, m: Model, lay: Layout, inf: real, x: Point)
    requires Represents(h, m, lay, inf) && Bounded(m, lay.cols, x, inf)
    ensures Rectangular(h.native) && |h.native.cols| == |lay.cols|
    ensures NativeAllows(h.native, ColumnValues(x, lay.cols)) <==> Allows(m, lay.cols, x)
  {
    hide Represents, Dot, ColumnOf, RowOf, IsWhole, Admits, Rectangular, VariableOk, RowOk, Sum;
    NativeEntities(h, m, lay, inf);
    var values := ColumnValues(x, lay.cols);
    forall k | 0 <= k < |lay.cols|
      ensures Admits(h.native.cols[k].bounds, values[k]) && (h.native.cols[k].integer ==> IsWhole(values[k]))
        <==> VariableOk(m.variables[lay.cols[k]], x(lay.cols[k]))
    {
      ColumnMeans(m.variables[lay.cols[k]], inf, values[k]);
    }
    forall k | 0 <= k < |lay.rows|
      ensures |h.native.rows[k].coefficients| == |values|
      ensures Admits(h.native.rows[k].bounds, Dot(h.native.rows[k].coefficients, values))
        <==> RowOk(m.rows[lay.rows[k]], lay.cols, x)
    {
      RowMeans(m.rows[lay.rows[k]], lay.cols, inf, x);
    }
    AllowsInOrder(m, lay, x);
  }

  /** The model's points, told along a layout that lists its entities. */
  lemma AllowsInOrder(m: Model, lay: Layout, x: Point)
    requires forall k :: 0 <= k < |lay.cols| ==> lay.cols[k] in m.variables
    requires forall k :: 0 <= k < |lay.rows| ==> lay.rows[k] in m.rows
    requires forall v :: v in m.variables ==> v in lay.cols
    requires forall r :: r in m.rows ==> r in lay.rows
    ensures Allows(m, lay.cols, x) <==>
      && (forall k :: 0 <= k < |lay.cols| ==> VariableOk(m.variables[lay.cols[k]], x(lay.cols[k])))
      && (forall k :: 0 <= k < |lay.rows| ==> RowOk(m.rows[lay.rows[k]], lay.cols, x))
  {
    hide VariableOk, RowOk;
  }

  /** The shown objective is the selected one, in sense and in value at every point; without one it is zero. */
  lemma NativeMeansObjective(h: Held, m: Model, lay: Layout, inf: real, x: Point)
    requires Represents(h, m, lay, inf)
    ensures |h.native.costs| == |lay.cols|
    ensures m.policy.Single? ==>
      && m.policy.objective in m.objectives
      && var d := m.objectives[m.policy.objective];
         && h.native.sense == d.sense
         && h.native.offset + Dot(h.native.costs, ColumnValues(x, lay.cols)) == Value(d, lay.cols, x)
    ensures m.policy.NoObjective? ==>
      h.native.offset + Dot(h.native.costs, ColumnValues(x, lay.cols)) == 0.0
  {
    hide CachesOf, Dot, CellsOf, Columns, Rows, LaysOut, Closed, Numbers;
    if m.policy.NoObjective? { DotOfZeros(h.native.costs, ColumnValues(x, lay.cols)); }
  }
}
