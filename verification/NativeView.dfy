/**
 * The native model that a view of a compiled model stands for under a numbering of its ids,
 * and what each native call does to it. The lemmas are the simulation steps of the projection.
 */
module NativeViews {
  import opened Common
  import opened BackendIr
  import opened Highs
  import opened IndexMaps
  import opened CompiledModels

  /** Replaces the two infinities by the solver's finite stand-in `inf`. */
  function NormalizeBound(b: Extended, inf: real): real {
    match b
    case NegInfinity => -inf
    case PosInfinity => inf
    case Finite(x) => x
  }

  function NormalizeBounds(b: Bounds, inf: real): Range {
    Range(NormalizeBound(b.lower, inf), NormalizeBound(b.upper, inf))
  }

  /** The surface a policy shows: only an objective with a user handle can be active. */
  function SurfaceOf(m: Model): Option<Surface> {
    if m.policy.Single? && m.policy.objective in m.objectives && m.objectives[m.policy.objective].user.Some?
    then
      var o := m.objectives[m.policy.objective];
      Some(Surface(o.costs, o.sense, o.constant))
    else None
  }

  function ActiveUser(m: Model): Option<UserObjective> {
    if m.policy.Single? && m.policy.objective in m.objectives then m.objectives[m.policy.objective].user else None
  }

  function ViewOf(m: Model): View {
    View(m.variables, m.rows, SurfaceOf(m))
  }

  /** `lay` lists every variable and every row of the view once. */
  ghost predicate LaysOut(lay: Layout, v: View) {
    && Distinct(lay.cols) && Distinct(lay.rows)
    && (forall x :: x in lay.cols <==> x in v.variables)
    && (forall r :: r in lay.rows <==> r in v.rows)
  }

  /** Coefficients and costs mention only variables of the view. */
  ghost predicate Closed(v: View) {
    && (forall r, x {:trigger x in v.rows[r].coefficients} ::
          r in v.rows && x in v.rows[r].coefficients ==> x in v.variables)
    && (v.surface.Some? ==> v.surface.value.costs.Keys <= v.variables.Keys)
  }

  function ColumnOf(d: VariableData, inf: real): Column {
    Column(NormalizeBounds(d.bounds, inf), d.integer)
  }

  function CellsOf(coefficients: map<VariableId, real>, cols: seq<VariableId>): (r: seq<real>)
    ensures |r| == |cols| && forall i :: 0 <= i < |cols| ==> r[i] == Cell(coefficients, cols[i])
  {
    seq(|cols|, i requires 0 <= i < |cols| => Cell(coefficients, cols[i]))
  }

  function RowOf(d: RowData, cols: seq<VariableId>, inf: real): Row {
    Row(NormalizeBounds(d.bounds, inf), CellsOf(d.coefficients, cols))
  }

  ghost function Columns(variables: map<VariableId, VariableData>, cols: seq<VariableId>, inf: real): (r: seq<Column>)
    requires forall i :: 0 <= i < |cols| ==> cols[i] in variables
    ensures |r| == |cols| && forall i :: 0 <= i < |cols| ==> r[i] == ColumnOf(variables[cols[i]], inf)
  {
    seq(|cols|, i requires 0 <= i < |cols| => ColumnOf(variables[cols[i]], inf))
  }

  ghost function Rows(rows: map<RowId, RowData>, lay: Layout, inf: real): (r: seq<Row>)
    requires forall j :: 0 <= j < |lay.rows| ==> lay.rows[j] in rows
    ensures |r| == |lay.rows| && forall j :: 0 <= j < |lay.rows| ==> r[j] == RowOf(rows[lay.rows[j]], lay.cols, inf)
  {
    seq(|lay.rows|, j requires 0 <= j < |lay.rows| => RowOf(rows[lay.rows[j]], lay.cols, inf))
  }

  function CostsOf(s: Option<Surface>): map<VariableId, real> {
    if s.Some? then s.value.costs else map[]
  }

  /**
   * The native model of `v` numbered by `lay`. While no objective is active the native sense means
   * nothing and is whatever was left behind, here `idle`.
   */
  ghost function Project(v: View, lay: Layout, idle: Sense, inf: real): NativeModel
    requires LaysOut(lay, v)
  {
    NativeModel(
      Columns(v.variables, lay.cols, inf),
      Rows(v.rows, lay, inf),
      CellsOf(CostsOf(v.surface), lay.cols),
      if v.surface.Some? then v.surface.value.offset else 0.0,
      if v.surface.Some? then v.surface.value.sense else idle)
  }

  // ---------------------------------------------------------------- one lemma per structural native call

  function WithIntegrality(n: NativeModel, col: int): NativeModel
    requires 0 <= col < |n.cols|
  {
    n.(cols := n.cols[col := n.cols[col].(integer := true)])
  }

  lemma CellsWith(c: map<VariableId, real>, cols: seq<VariableId>, id: VariableId)
    requires id !in c
    ensures CellsOf(c, cols + [id]) == CellsOf(c, cols) + [0.0]
  {
  }

  lemma RowsWithColumn(v: View, lay: Layout, id: VariableId, inf: real)
    requires LaysOut(lay, v) && Closed(v) && id !in v.variables
    ensures
      var p, q := Rows(v.rows, lay, inf), Rows(v.rows, lay.(cols := lay.cols + [id]), inf);
      q == seq(|p|, j requires 0 <= j < |p| => p[j].(coefficients := p[j].coefficients + [0.0]))
  {
    forall j | 0 <= j < |lay.rows|
      ensures id !in v.rows[lay.rows[j]].coefficients
    {
      assert lay.rows[j] in v.rows;
    }
    forall j | 0 <= j < |lay.rows| {
      CellsWith(v.rows[lay.rows[j]].coefficients, lay.cols, id);
    }
  }

  lemma LaysOutWith(v: View, lay: Layout, id: VariableId, d: VariableData)
    requires LaysOut(lay, v) && id !in v.variables
    ensures LaysOut(lay.(cols := lay.cols + [id]), v.(variables := v.variables[id := d]))
  {
  }

  lemma ColumnsWith(
      variables: map<VariableId, VariableData>, cols: seq<VariableId>, id: VariableId, d: VariableData, inf: real)
    requires id !in variables && forall i :: 0 <= i < |cols| ==> cols[i] in variables
    ensures Columns(variables[id := d], cols + [id], inf) == Columns(variables, cols, inf) + [ColumnOf(d, inf)]
  {
  }

  lemma CostsAreOfVariables(v: View, id: VariableId)
    requires Closed(v) && id !in v.variables
    ensures id !in CostsOf(v.surface)
  {
  }

  /** Appending a column shows a new variable that no row and no cost mentions yet. */
  lemma AppendColumn(v: View, lay: Layout, id: VariableId, d: VariableData, idle: Sense, inf: real)
    requires LaysOut(lay, v) && Closed(v) && id !in v.variables
    ensures
      var after := v.(variables := v.variables[id := d]);
      var added := WithColumn(Project(v, lay, idle, inf), NormalizeBounds(d.bounds, inf));
      && LaysOut(lay.(cols := lay.cols + [id]), after)
      && Project(after, lay.(cols := lay.cols + [id]), idle, inf)
         == if d.integer then WithIntegrality(added, |lay.cols|) else added
  {
    LaysOutWith(v, lay, id, d);
    CostsAreOfVariables(v, id);
    CellsWith(CostsOf(v.surface), lay.cols, id);
    RowsWithColumn(v, lay, id, inf);
    assert forall i :: 0 <= i < |lay.cols| ==> lay.cols[i] in v.variables;
    ColumnsWith(v.variables, lay.cols, id, d, inf);
    hide LaysOut, Closed, CellsOf, NormalizeBounds;
    var cols := Columns(v.variables, lay.cols, inf);
    assert (cols + [Column(NormalizeBounds(d.bounds, inf), false)])[|lay.cols| := ColumnOf(d, inf)]
      == cols + [ColumnOf(d, inf)];
  }

  function DropVariable(v: View, id: VariableId): View {
    View(
      v.variables - {id},
      map r | r in v.rows :: v.rows[r].(coefficients := v.rows[r].coefficients - {id}),
      if v.surface.Some? then Some(v.surface.value.(costs := v.surface.value.costs - {id})) else None)
  }

  lemma RowsWithoutColumn(v: View, lay: Layout, k: nat, drop: set<int>, inf: real)
    requires LaysOut(lay, v) && k < |lay.cols| && drop == {k}
    ensures
      var p := Rows(v.rows, lay, inf);
      var shrunk := lay.(cols := lay.cols[..k] + lay.cols[k + 1..]);
      Rows(DropVariable(v, lay.cols[k]).rows, shrunk, inf)
      == seq(|p|, j requires 0 <= j < |p| => p[j].(coefficients := WithoutPositions(p[j].coefficients, drop)))
  {
    forall j | 0 <= j < |lay.rows| {
      CellsWithout(v.rows[lay.rows[j]].coefficients, lay.cols, k, drop);
    }
  }

  lemma ColumnsWithout(
      variables: map<VariableId, VariableData>, cols: seq<VariableId>, k: nat, drop: set<int>, inf: real)
    requires Distinct(cols) && k < |cols| && drop == {k}
    requires forall i :: 0 <= i < |cols| ==> cols[i] in variables
    ensures
      var left := cols[..k] + cols[k + 1..];
      && (forall i :: 0 <= i < |left| ==> left[i] in variables - {cols[k]})
      && Columns(variables - {cols[k]}, left, inf) == WithoutPositions(Columns(variables, cols, inf), drop)
  {
    ClosesGap(cols, k);
    GapMembers(cols, k);
    WithoutOnePosition(Columns(variables, cols, inf), k, drop);
  }

  lemma LaysOutWithout(v: View, lay: Layout, k: nat)
    requires LaysOut(lay, v) && k < |lay.cols|
    ensures LaysOut(lay.(cols := lay.cols[..k] + lay.cols[k + 1..]), DropVariable(v, lay.cols[k]))
  {
    ClosesGap(lay.cols, k);
    GapMembers(lay.cols, k);
  }

  /** Deleting a native column and closing the gap shows the model without that variable. */
  lemma DeleteColumn(v: View, lay: Layout, k: nat, drop: set<int>, idle: Sense, inf: real)
    requires LaysOut(lay, v) && k < |lay.cols| && drop == {k}
    ensures
      var after, shrunk := DropVariable(v, lay.cols[k]), lay.(cols := lay.cols[..k] + lay.cols[k + 1..]);
      && LaysOut(shrunk, after)
      && Project(after, shrunk, idle, inf) == WithoutColumns(Project(v, lay, idle, inf), drop)
  {
    LaysOutWithout(v, lay, k);
    var after, shrunk := DropVariable(v, lay.cols[k]), lay.(cols := lay.cols[..k] + lay.cols[k + 1..]);
    var p, q := Project(v, lay, idle, inf), Project(after, shrunk, idle, inf);
    assert q.cols == WithoutPositions(p.cols, drop) by {
      ColumnsWithout(v.variables, lay.cols, k, drop, inf);
    }
    assert q.costs == WithoutPositions(p.costs, drop) by {
      CellsWithout(CostsOf(v.surface), lay.cols, k, drop);
      assert CostsOf(after.surface) == CostsOf(v.surface) - {lay.cols[k]};
    }
    assert q.rows == WithoutColumns(p, drop).rows by {
      RowsWithoutColumn(v, lay, k, drop, inf);
    }
  }

  lemma CellsWithout(c: map<VariableId, real>, cols: seq<VariableId>, k: nat, drop: set<int>)
    requires Distinct(cols) && k < |cols| && drop == {k}
    ensures CellsOf(c - {cols[k]}, cols[..k] + cols[k + 1..]) == WithoutPositions(CellsOf(c, cols), drop)
  {
    WithoutOnePosition(CellsOf(c, cols), k, drop);
  }

  lemma ChangeColumnBounds(v: View, lay: Layout, k: nat, b: Bounds, idle: Sense, inf: real)
    requires LaysOut(lay, v) && k < |lay.cols|
    ensures
      var id := lay.cols[k];
      var after := v.(variables := v.variables[id := v.variables[id].(bounds := b)]);
      var p := Project(v, lay, idle, inf);
      && LaysOut(lay, after)
      && Project(after, lay, idle, inf) == p.(cols := p.cols[k := p.cols[k].(bounds := NormalizeBounds(b, inf))])
  {
    var id := lay.cols[k];
    var after := v.(variables := v.variables[id := v.variables[id].(bounds := b)]);
    var p := Project(v, lay, idle, inf);
    assert Project(after, lay, idle, inf).cols == p.cols[k := p.cols[k].(bounds := NormalizeBounds(b, inf))];
  }

  /** The native columns and the values of a coefficient list. */
  function IndicesOf(colMap: map<VariableId, int>, entries: seq<(VariableId, real)>): (r: seq<int>)
    requires Refers(entries, colMap.Keys)
    ensures |r| == |entries| && forall i :: 0 <= i < |r| ==> r[i] == colMap[entries[i].0]
  {
    seq(|entries|, i requires 0 <= i < |entries| => colMap[entries[i].0])
  }

  function ValuesOf(entries: seq<(VariableId, real)>): (r: seq<real>)
    ensures |r| == |entries| && forall i :: 0 <= i < |r| ==> r[i] == entries[i].1
  {
    seq(|entries|, i requires 0 <= i < |entries| => entries[i].1)
  }

  lemma IndicesInRange(colMap: map<VariableId, int>, cols: seq<VariableId>, entries: seq<(VariableId, real)>)
    requires Numbers(colMap, cols) && Refers(entries, colMap.Keys)
    ensures InRange(IndicesOf(colMap, entries), |cols|)
  {
    NumbersIsBijection(colMap, cols);
  }

  /** Writing a row's entries at the columns of its ids yields its cells in column order. */
  lemma {:induction false} ScatterIsCells(
      entries: seq<(VariableId, real)>, cols: seq<VariableId>, colMap: map<VariableId, int>)
    requires Numbers(colMap, cols) && Refers(entries, colMap.Keys)
    ensures InRange(IndicesOf(colMap, entries), |cols|)
    ensures Scatter(Zeros(|cols|), IndicesOf(colMap, entries), ValuesOf(entries)) == CellsOf(ToMap(entries), cols)
  {
    assert CellsOf(map[], cols) == Zeros(|cols|);
    ScatterOverridesCells(map[], entries, cols, colMap);
    assert map[] + ToMap(entries) == ToMap(entries);
  }

  lemma AppendRow(v: View, lay: Layout, id: RowId, d: RowData, idle: Sense, inf: real)
    requires LaysOut(lay, v) && id !in v.rows
    ensures
      var after, grown := v.(rows := v.rows[id := d]), lay.(rows := lay.rows + [id]);
      var p := Project(v, lay, idle, inf);
      && LaysOut(grown, after)
      && Project(after, grown, idle, inf)
         == p.(rows := p.rows + [Row(NormalizeBounds(d.bounds, inf), CellsOf(d.coefficients, lay.cols))])
  {
    var after, grown := v.(rows := v.rows[id := d]), lay.(rows := lay.rows + [id]);
    var p := Project(v, lay, idle, inf);
    assert Project(after, grown, idle, inf).rows
      == p.rows + [Row(NormalizeBounds(d.bounds, inf), CellsOf(d.coefficients, lay.cols))];
  }

  lemma RowsWithout(rows: map<RowId, RowData>, lay: Layout, k: nat, drop: set<int>, inf: real)
    requires Distinct(lay.rows) && k < |lay.rows| && drop == {k}
    requires forall j :: 0 <= j < |lay.rows| ==> lay.rows[j] in rows
    ensures
      var shrunk := lay.(rows := lay.rows[..k] + lay.rows[k + 1..]);
      && (forall j :: 0 <= j < |shrunk.rows| ==> shrunk.rows[j] in rows - {lay.rows[k]})
      && Rows(rows - {lay.rows[k]}, shrunk, inf) == WithoutPositions(Rows(rows, lay, inf), drop)
  {
    ClosesGap(lay.rows, k);
    GapMembers(lay.rows, k);
    WithoutOnePosition(Rows(rows, lay, inf), k, drop);
  }

  lemma DeleteRow(v: View, lay: Layout, k: nat, drop: set<int>, idle: Sense, inf: real)
    requires LaysOut(lay, v) && k < |lay.rows| && drop == {k}
    ensures
      var after := v.(rows := v.rows - {lay.rows[k]});
      var shrunk := lay.(rows := lay.rows[..k] + lay.rows[k + 1..]);
      && LaysOut(shrunk, after)
      && Project(after, shrunk, idle, inf) == WithoutRows(Project(v, lay, idle, inf), drop)
  {
    ClosesGap(lay.rows, k);
    GapMembers(lay.rows, k);
    RowsWithout(v.rows, lay, k, drop, inf);
  }

  lemma ChangeRowBounds(v: View, lay: Layout, k: nat, b: Bounds, idle: Sense, inf: real)
    requires LaysOut(lay, v) && k < |lay.rows|
    ensures
      var id := lay.rows[k];
      var after := v.(rows := v.rows[id := v.rows[id].(bounds := b)]);
      var p := Project(v, lay, idle, inf);
      && LaysOut(lay, after)
      && Project(after, lay, idle, inf) == p.(rows := p.rows[k := p.rows[k].(bounds := NormalizeBounds(b, inf))])
  {
    var id := lay.rows[k];
    var after := v.(rows := v.rows[id := v.rows[id].(bounds := b)]);
    var p := Project(v, lay, idle, inf);
    assert Project(after, lay, idle, inf).rows == p.rows[k := p.rows[k].(bounds := NormalizeBounds(b, inf))];
  }

  /** Two cell maps agree except at `v`, where the new one may hold anything. */
  ghost predicate DiffersAt(c: map<VariableId, real>, was: map<VariableId, real>, v: VariableId) {
    c.Keys <= was.Keys + {v} && forall x :: x != v ==> Cell(c, x) == Cell(was, x)
  }

  lemma CellChanges(was: map<VariableId, real>, v: VariableId, x: real)
    ensures DiffersAt(was[v := x], was, v) && Cell(was[v := x], v) == x
    ensures DiffersAt(was - {v}, was, v) && Cell(was - {v}, v) == 0.0
  {
  }

  lemma CellsDifferAt(
      c: map<VariableId, real>, was: map<VariableId, real>, cols: seq<VariableId>, colMap: map<VariableId, int>,
      v: VariableId)
    requires Numbers(colMap, cols) && v in colMap && DiffersAt(c, was, v)
    ensures 0 <= colMap[v] < |cols|
    ensures CellsOf(c, cols) == CellsOf(was, cols)[colMap[v] := Cell(c, v)]
  {
    NumbersIsBijection(colMap, cols);
  }

  /** One coefficient cell: an upsert writes its value, a removal writes zero. */
  lemma ChangeCell(
      v: View, lay: Layout, row: nat, colMap: map<VariableId, int>, x: VariableId, c: map<VariableId, real>,
      idle: Sense, inf: real)
    requires LaysOut(lay, v) && row < |lay.rows| && Numbers(colMap, lay.cols) && x in colMap
    requires DiffersAt(c, v.rows[lay.rows[row]].coefficients, x)
    ensures 0 <= colMap[x] < |lay.cols|
    ensures
      var id := lay.rows[row];
      var after := v.(rows := v.rows[id := v.rows[id].(coefficients := c)]);
      var p := Project(v, lay, idle, inf);
      && LaysOut(lay, after)
      && Project(after, lay, idle, inf) == p.(rows := p.rows[row :=
           p.rows[row].(coefficients := p.rows[row].coefficients[colMap[x] := Cell(c, x)])])
  {
    hide CellsOf, Numbers, DiffersAt, ColumnOf, NormalizeBounds;
    CellsDifferAt(c, v.rows[lay.rows[row]].coefficients, lay.cols, colMap, x);
    RowsDifferAt(v, lay, row, c, inf);
  }

  /** New coefficients change one projected row. */
  lemma RowsDifferAt(v: View, lay: Layout, row: nat, c: map<VariableId, real>, inf: real)
    requires LaysOut(lay, v) && row < |lay.rows|
    ensures
      var id := lay.rows[row];
      var p := Rows(v.rows, lay, inf);
      Rows(v.rows[id := v.rows[id].(coefficients := c)], lay, inf)
      == p[row := p[row].(coefficients := CellsOf(c, lay.cols))]
  {
    hide CellsOf, NormalizeBounds;
  }

  /** A bulk write on top of cells is the cells of the overridden map. */
  lemma {:induction false} ScatterOverridesCells(
      base: map<VariableId, real>, entries: seq<(VariableId, real)>, cols: seq<VariableId>,
      colMap: map<VariableId, int>)
    requires Numbers(colMap, cols) && Refers(entries, colMap.Keys)
    ensures InRange(IndicesOf(colMap, entries), |cols|)
    ensures Scatter(CellsOf(base, cols), IndicesOf(colMap, entries), ValuesOf(entries)) ==
        CellsOf(base + ToMap(entries), cols)
  {
    IndicesInRange(colMap, cols, entries);
    if |entries| == 0 {
      assert base + map[] == base;
    } else {
      var k := |entries| - 1;
      ScatterOverridesCells(base, entries[..k], cols, colMap);
      assert entries[k].0 in colMap;
      CellsUpsert(base + ToMap(entries[..k]), cols, colMap, entries[k].0, entries[k].1);
      hide Numbers, CellsOf, Refers;
      assert base + ToMap(entries) == (base + ToMap(entries[..k]))[entries[k].0 := entries[k].1];
      assert IndicesOf(colMap, entries)[..k] == IndicesOf(colMap, entries[..k]);
      assert ValuesOf(entries)[..k] == ValuesOf(entries[..k]);
    }
  }

  /** A write to a contiguous run of columns is the same bulk write. */
  lemma {:induction false} RangeIsScatter(into: seq<real>, from: nat, indices: seq<int>, values: seq<real>)
    requires |indices| == |values|
    requires forall i :: 0 <= i < |indices| ==> indices[i] == from + i
    requires from + |indices| <= |into|
    ensures Scatter(into, indices, values) == into[..from] + values + into[from + |indices|..]
  {
    if |indices| != 0 {
      var k := |indices| - 1;
      RangeIsScatter(into, from, indices[..k], values[..k]);
    }
  }

  lemma CellsUpsert(
      c: map<VariableId, real>, cols: seq<VariableId>, colMap: map<VariableId, int>, v: VariableId, x: real)
    requires Numbers(colMap, cols) && v in colMap
    ensures 0 <= colMap[v] < |cols|
    ensures CellsOf(c[v := x], cols) == CellsOf(c, cols)[colMap[v] := x]
    ensures CellsOf(c - {v}, cols) == CellsOf(c, cols)[colMap[v] := 0.0]
  {
    NumbersIsBijection(colMap, cols);
  }

  // ---------------------------------------------------------------- costs written on top of cleared costs

  const NEW_COST: (real, real) -> real := (was: real, cost: real) => cost

  /** `n` zero costs, then each cost of `costs` at its column. */
  ghost function CostsWritten(n: nat, colMap: map<VariableId, int>, costs: map<VariableId, real>): (r: seq<real>)
    ensures |r| == n
  {
    AllWritten(Zeros(n), colMap, costs, NEW_COST)
  }

  /** On a dense numbering the written costs are the cells of the cost map. */
  lemma CostsWrittenAreCells(colMap: map<VariableId, int>, cols: seq<VariableId>, costs: map<VariableId, real>)
    requires Numbers(colMap, cols)
    ensures CostsWritten(|cols|, colMap, costs) == CellsOf(costs, cols)
  {
    NumbersIsBijection(colMap, cols);
    forall i | 0 <= i < |cols|
      ensures Written(0.0, i, colMap, costs, NEW_COST) == Cell(costs, cols[i])
    {
      assert forall x :: Hits(colMap, costs, i, x) <==> x == cols[i] && x in costs;
      if cols[i] in costs {
        WrittenOnce(0.0, i, colMap, costs, NEW_COST, cols[i]);
      }
    }
  }

  lemma NoCostsWritten(n: nat, colMap: map<VariableId, int>)
    ensures CostsWritten(n, colMap, map[]) == Zeros(n)
  {
    AllWrittenNothing(Zeros(n), colMap, NEW_COST);
  }
}
