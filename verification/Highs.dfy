/**
 * The native solver as the projection sees it: densely indexed columns and rows, one cost
 * vector, one offset and one sense. Every call may fail; after a failed call nothing is
 * known about the native model, except that a failed bound change leaves it alone.
 */
module Highs {
  import opened Common
  import opened BackendIr

  /** A pair of native bounds, infinity already replaced by the solver's finite stand-in. */
  datatype Range = Range(lo: real, hi: real)
  datatype Column = Column(bounds: Range, integer: bool)
  datatype Row = Row(bounds: Range, coefficients: seq<real>)
  datatype NativeModel = NativeModel(
    cols: seq<Column>, rows: seq<Row>, costs: seq<real>, offset: real, sense: Sense)

  const EMPTY_MODEL := NativeModel([], [], [], 0.0, Minimize)

  function Zeros(n: nat): (r: seq<real>)
    ensures |r| == n && forall i :: 0 <= i < n ==> r[i] == 0.0
  {
    seq(n, _ => 0.0)
  }

  predicate InRange(indices: seq<int>, n: nat) {
    forall i :: 0 <= i < |indices| ==> 0 <= indices[i] < n
  }

  predicate Unique(indices: seq<int>) {
    forall i, j :: 0 <= i < j < |indices| ==> indices[i] != indices[j]
  }

  /** Writes `values` at `indices`, in order. */
  function Scatter(into: seq<real>, indices: seq<int>, values: seq<real>): (r: seq<real>)
    requires |indices| == |values| && InRange(indices, |into|)
    ensures |r| == |into|
  {
    if |indices| == 0 then into
    else
      var k := |indices| - 1;
      Scatter(into, indices[..k], values[..k])[indices[k] := values[k]]
  }

  function WithColumn(m: NativeModel, bounds: Range): NativeModel {
    m.(cols := m.cols + [Column(bounds, false)],
       costs := m.costs + [0.0],
       rows := seq(|m.rows|, j requires 0 <= j < |m.rows| =>
         m.rows[j].(coefficients := m.rows[j].coefficients + [0.0])))
  }

  function WithRow(m: NativeModel, bounds: Range, indices: seq<int>, values: seq<real>): NativeModel
    requires |indices| == |values| && InRange(indices, |m.cols|)
  {
    m.(rows := m.rows + [Row(bounds, Scatter(Zeros(|m.cols|), indices, values))])
  }

  function WithoutColumns(m: NativeModel, drop: set<int>): NativeModel {
    m.(cols := WithoutPositions(m.cols, drop),
       costs := WithoutPositions(m.costs, drop),
       rows := seq(|m.rows|, j requires 0 <= j < |m.rows| =>
         m.rows[j].(coefficients := WithoutPositions(m.rows[j].coefficients, drop))))
  }

  function WithoutRows(m: NativeModel, drop: set<int>): NativeModel {
    m.(rows := WithoutPositions(m.rows, drop))
  }

  function IndexSet(indices: seq<int>): (r: set<int>) {
    set i | i in indices
  }

  class HighsModel {
    var m: NativeModel

    constructor ()
      ensures m == EMPTY_MODEL
    {
      m := EMPTY_MODEL;
    }

    method Clear() returns (ok: bool)
      modifies this
      ensures ok ==> m == EMPTY_MODEL
    {
      ok := *;
      if ok { m := EMPTY_MODEL; } else { m := *; }
    }

    method AddVar(bounds: Range) returns (ok: bool)
      modifies this
      ensures ok ==> m == WithColumn(old(m), bounds)
    {
      ok := *;
      if ok { m := WithColumn(m, bounds); } else { m := *; }
    }

    method AddRow(bounds: Range, indices: seq<int>, values: seq<real>) returns (ok: bool)
      requires |indices| == |values|
      modifies this
      ensures ok ==> InRange(indices, |old(m).cols|) && Unique(indices)
      ensures ok ==> m == WithRow(old(m), bounds, indices, values)
    {
      ok := *;
      ok := ok && InRange(indices, |m.cols|) && Unique(indices);
      if ok { m := WithRow(m, bounds, indices, values); } else { m := *; }
    }

    method DeleteColsBySet(indices: seq<int>) returns (ok: bool)
      modifies this
      ensures ok ==> InRange(indices, |old(m).cols|)
      ensures ok ==> m == WithoutColumns(old(m), IndexSet(indices))
    {
      ok := *;
      ok := ok && InRange(indices, |m.cols|);
      if ok { m := WithoutColumns(m, IndexSet(indices)); } else { m := *; }
    }

    method DeleteRowsBySet(indices: seq<int>) returns (ok: bool)
      modifies this
      ensures ok ==> InRange(indices, |old(m).rows|)
      ensures ok ==> m == WithoutRows(old(m), IndexSet(indices))
    {
      ok := *;
      ok := ok && InRange(indices, |m.rows|);
      if ok { m := WithoutRows(m, IndexSet(indices)); } else { m := *; }
    }

    method ChangeColBounds(col: int, bounds: Range) returns (ok: bool)
      modifies this
      ensures ok ==> 0 <= col < |old(m).cols|
      ensures ok ==> m == old(m).(cols := old(m).cols[col := old(m).cols[col].(bounds := bounds)])
      ensures !ok ==> m == old(m)
    {
      ok := *;
      ok := ok && 0 <= col < |m.cols|;
      if ok { m := m.(cols := m.cols[col := m.cols[col].(bounds := bounds)]); }
    }

    method ChangeRowBounds(row: int, bounds: Range) returns (ok: bool)
      modifies this
      ensures ok ==> 0 <= row < |old(m).rows|
      ensures ok ==> m == old(m).(rows := old(m).rows[row := old(m).rows[row].(bounds := bounds)])
      ensures !ok ==> m == old(m)
    {
      ok := *;
      ok := ok && 0 <= row < |m.rows|;
      if ok { m := m.(rows := m.rows[row := m.rows[row].(bounds := bounds)]); }
    }

    method ChangeColIntegrality(col: int) returns (ok: bool)
      modifies this
      ensures ok ==> 0 <= col < |old(m).cols|
      ensures ok ==> m == old(m).(cols := old(m).cols[col := old(m).cols[col].(integer := true)])
    {
      ok := *;
      ok := ok && 0 <= col < |m.cols|;
      if ok { m := m.(cols := m.cols[col := m.cols[col].(integer := true)]); } else { m := *; }
    }

    method ChangeCoeff(row: int, col: int, value: real) returns (ok: bool)
      modifies this
      ensures ok ==> 0 <= row < |old(m).rows| && 0 <= col < |old(m).rows[row].coefficients|
      ensures ok ==> m == old(m).(rows := old(m).rows[row :=
        old(m).rows[row].(coefficients := old(m).rows[row].coefficients[col := value])])
    {
      ok := *;
      ok := ok && 0 <= row < |m.rows| && 0 <= col < |m.rows[row].coefficients|;
      if ok {
        m := m.(rows := m.rows[row := m.rows[row].(coefficients := m.rows[row].coefficients[col := value])]);
      } else {
        m := *;
      }
    }

    method ChangeColCost(col: int, cost: real) returns (ok: bool)
      modifies this
      ensures ok ==> 0 <= col < |old(m).costs|
      ensures ok ==> m == old(m).(costs := old(m).costs[col := cost])
    {
      ok := *;
      ok := ok && 0 <= col < |m.costs|;
      if ok { m := m.(costs := m.costs[col := cost]); } else { m := *; }
    }

    /** Writes one value per column of the closed index range. */
    method ChangeColsCostByRange(from: int, to: int, values: seq<real>) returns (ok: bool)
      modifies this
      ensures ok ==> 0 <= from <= to < |old(m).costs| && |values| == to - from + 1
      ensures ok ==> m == old(m).(costs := old(m).costs[..from] + values + old(m).costs[to + 1..])
    {
      ok := *;
      ok := ok && 0 <= from <= to < |m.costs| && |values| == to - from + 1;
      if ok { m := m.(costs := m.costs[..from] + values + m.costs[to + 1..]); } else { m := *; }
    }

    method ChangeColsCostBySet(indices: seq<int>, values: seq<real>) returns (ok: bool)
      requires |indices| == |values|
      modifies this
      ensures ok ==> InRange(indices, |old(m).costs|) && Unique(indices)
      ensures ok ==> m == old(m).(costs := Scatter(old(m).costs, indices, values))
    {
      ok := *;
      ok := ok && InRange(indices, |m.costs|) && Unique(indices);
      if ok { m := m.(costs := Scatter(m.costs, indices, values)); } else { m := *; }
    }

    method ChangeObjectiveOffset(offset: real) returns (ok: bool)
      modifies this
      ensures ok ==> m == old(m).(offset := offset)
    {
      ok := *;
      if ok { m := m.(offset := offset); } else { m := *; }
    }

    method ChangeObjectiveSense(sense: Sense) returns (ok: bool)
      modifies this
      ensures ok ==> m == old(m).(sense := sense)
    {
      ok := *;
      if ok { m := m.(sense := sense); } else { m := *; }
    }
  }
}
