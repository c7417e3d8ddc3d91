/** roml-highs/src/iis.rs: the oracle that toggles bounds instead of rebuilding for every candidate selection. */
module IisToggling {
  import opened Common
  import opened BackendIr
  import opened Highs
  import opened NativeViews

  type AtomId = nat

  datatype Ref =
    | ConstraintLower(row: RowId)
    | ConstraintUpper(row: RowId)
    | VariableLower(variable: VariableId)
    | VariableUpper(variable: VariableId)
    | Entity

  /** A restriction atom with its compiled restrictions and their recorded values. */
  datatype Atom = Atom(id: AtomId, restrictions: seq<Ref>, values: seq<(Ref, Option<Extended>)>,
    fallback: Option<Extended>)

  const FREE := Bounds(NegInfinity, PosInfinity)

  // ---------------------------------------------------------------- the bounds of a selection, from scratch

  function Found(values: seq<(Ref, Option<Extended>)>, ref: Ref): Option<Extended> {
    if |values| == 0 then None else if values[0].0 == ref then values[0].1 else Found(values[1..], ref)
  }

  /** The compiled bound found at the id's own number, as the code indexes it. */
  function CompiledBound(ref: Ref, s: BackendSnapshot): Extended {
    match ref
    case ConstraintLower(r) => if r.index < |s.rows| then s.rows[r.index].bounds.lower else NegInfinity
    case ConstraintUpper(r) => if r.index < |s.rows| then s.rows[r.index].bounds.upper else PosInfinity
    case VariableLower(v) => if v.index < |s.variables| then s.variables[v.index].bounds.lower else NegInfinity
    case VariableUpper(v) => if v.index < |s.variables| then s.variables[v.index].bounds.upper else PosInfinity
    case Entity => NegInfinity
  }

  /** What an active atom makes of one of its restrictions. */
  function ValueOf(atom: Atom, ref: Ref, s: BackendSnapshot): Extended {
    var found := Found(atom.values, ref);
    if found.Some? then found.value else if atom.fallback.Some? then atom.fallback.value else CompiledBound(ref, s)
  }

  /** The side set by the last selected atom that owns it. */
  function Effective(atoms: seq<Atom>, selected: set<AtomId>, ref: Ref, s: BackendSnapshot): Option<Extended> {
    if |atoms| == 0 then None
    else
      var last := atoms[|atoms| - 1];
      if last.id in selected && ref in last.restrictions then Some(ValueOf(last, ref, s))
      else Effective(atoms[..|atoms| - 1], selected, ref, s)
  }

  function OrElse(o: Option<Extended>, other: Extended): Extended { if o.Some? then o.value else other }

  function RowBounds(atoms: seq<Atom>, selected: set<AtomId>, s: BackendSnapshot, r: RowId): Bounds {
    Bounds(
      OrElse(Effective(atoms, selected, ConstraintLower(r), s), NegInfinity),
      OrElse(Effective(atoms, selected, ConstraintUpper(r), s), PosInfinity))
  }

  function ColumnBounds(atoms: seq<Atom>, selected: set<AtomId>, s: BackendSnapshot, v: VariableId): Bounds {
    Bounds(
      OrElse(Effective(atoms, selected, VariableLower(v), s), NegInfinity),
      OrElse(Effective(atoms, selected, VariableUpper(v), s), PosInfinity))
  }

  /** A side after one active atom: overwritten if the atom has it among `restrictions`. */
  function Side(atom: Atom, restrictions: seq<Ref>, ref: Ref, otherwise: Extended, s: BackendSnapshot): Extended {
    if ref in restrictions then ValueOf(atom, ref, s) else otherwise
  }

  function RowSides(atom: Atom, restrictions: seq<Ref>, r: RowId, was: Bounds, s: BackendSnapshot): Bounds {
    Bounds(
      Side(atom, restrictions, ConstraintLower(r), was.lower, s),
      Side(atom, restrictions, ConstraintUpper(r), was.upper, s))
  }

  function ColumnSides(atom: Atom, restrictions: seq<Ref>, v: VariableId, was: Bounds, s: BackendSnapshot): Bounds {
    Bounds(
      Side(atom, restrictions, VariableLower(v), was.lower, s),
      Side(atom, restrictions, VariableUpper(v), was.upper, s))
  }

  lemma RowBoundsNext(atoms: seq<Atom>, k: nat, selected: set<AtomId>, s: BackendSnapshot, r: RowId)
    requires k < |atoms|
    ensures
      var was, atom := RowBounds(atoms[..k], selected, s, r), atoms[k];
      RowBounds(atoms[..k + 1], selected, s, r)
      == if atom.id !in selected then was else RowSides(atom, atom.restrictions, r, was, s)
  {
    assert atoms[..k + 1][..k] == atoms[..k];
  }

  lemma ColumnBoundsNext(atoms: seq<Atom>, k: nat, selected: set<AtomId>, s: BackendSnapshot, v: VariableId)
    requires k < |atoms|
    ensures
      var was, atom := ColumnBounds(atoms[..k], selected, s, v), atoms[k];
      ColumnBounds(atoms[..k + 1], selected, s, v)
      == if atom.id !in selected then was else ColumnSides(atom, atom.restrictions, v, was, s)
  {
    assert atoms[..k + 1][..k] == atoms[..k];
  }

  // ---------------------------------------------------------------- ids and native indices

  /** Ids number rows and variables by position: then an id is its native index. */
  ghost predicate PositionOrdered(s: BackendSnapshot) {
    && (forall i :: 0 <= i < |s.rows| ==> s.rows[i].id == RowId(i))
    && (forall i :: 0 <= i < |s.variables| ==> s.variables[i].id == VariableId(i))
  }

  /** What `validate` promises of the ids: unique, and numbers below the count, in any order. */
  ghost predicate Dense(s: BackendSnapshot) {
    && IdsUnique(s)
    && (forall i :: 0 <= i < |s.rows| ==> s.rows[i].id.index < |s.rows|)
    && (forall i :: 0 <= i < |s.variables| ==> s.variables[i].id.index < |s.variables|)
  }

  lemma ValidIsDense(s: BackendSnapshot)
    requires SnapshotValid(s)
    ensures Dense(s)
  {
    ValidIsSound(s);
    var vs := seq(|s.variables|, i requires 0 <= i < |s.variables| => s.variables[i].id.index);
    var rs := seq(|s.rows|, i requires 0 <= i < |s.rows| => s.rows[i].id.index);
    assert forall i :: 0 <= i < |s.rows| ==> s.rows[i].id.index == rs[i];
    assert forall i :: 0 <= i < |s.variables| ==> s.variables[i].id.index == vs[i];
  }

  /** Rows and columns lie natively in snapshot order, as a rebuild places them. */
  ghost predicate FitsSnapshot(n: NativeModel, s: BackendSnapshot) {
    |n.rows| == |s.rows| && |n.cols| == |s.variables|
  }

  /** A freshly rebuilt native model: position by position the snapshot's own bounds. */
  ghost predicate Fresh(n: NativeModel, s: BackendSnapshot, inf: real) {
    && FitsSnapshot(n, s)
    && (forall i :: 0 <= i < |s.rows| ==> n.rows[i].bounds == NormalizeBounds(s.rows[i].bounds, inf))
    && (forall i :: 0 <= i < |s.variables| ==> n.cols[i].bounds == NormalizeBounds(s.variables[i].bounds, inf))
  }

  function OwnRows(s: BackendSnapshot): map<RowId, Bounds>
    requires forall i, j :: 0 <= i < j < |s.rows| ==> s.rows[i].id != s.rows[j].id
  {
    map i | 0 <= i < |s.rows| :: s.rows[i].id := s.rows[i].bounds
  }

  function OwnColumns(s: BackendSnapshot): map<VariableId, Bounds>
    requires forall i, j :: 0 <= i < j < |s.variables| ==> s.variables[i].id != s.variables[j].id
  {
    map i | 0 <= i < |s.variables| :: s.variables[i].id := s.variables[i].bounds
  }

  function DesiredRows(atoms: seq<Atom>, chosen: set<AtomId>, s: BackendSnapshot): map<RowId, Bounds> {
    map i | 0 <= i < |s.rows| :: s.rows[i].id := RowBounds(atoms, chosen, s, s.rows[i].id)
  }

  function DesiredColumns(atoms: seq<Atom>, chosen: set<AtomId>, s: BackendSnapshot): map<VariableId, Bounds> {
    map i | 0 <= i < |s.variables| :: s.variables[i].id := ColumnBounds(atoms, chosen, s, s.variables[i].id)
  }

  function ListedRows(s: BackendSnapshot): (ids: seq<RowId>)
    ensures |ids| == |s.rows| && forall i :: 0 <= i < |ids| ==> ids[i] == s.rows[i].id
  {
    seq(|s.rows|, i requires 0 <= i < |s.rows| => s.rows[i].id)
  }

  function ListedColumns(s: BackendSnapshot): (ids: seq<VariableId>)
    ensures |ids| == |s.variables| && forall i :: 0 <= i < |ids| ==> ids[i] == s.variables[i].id
  {
    seq(|s.variables|, i requires 0 <= i < |s.variables| => s.variables[i].id)
  }

  /** The mirrors of the first `k` ids have the desired bounds, the others those from before. */
  ghost predicate Halfway<Id(!new)>(
      ids: seq<Id>, k: nat, done: map<Id, Bounds>, current: map<Id, Bounds>, desired: map<Id, Bounds>)
  {
    && Distinct(ids)
    && (forall x :: x in ids <==> x in done) && done.Keys == current.Keys == desired.Keys
    && (forall i :: 0 <= i < |ids| ==> done[ids[i]] == if i < k then desired[ids[i]] else current[ids[i]])
  }

  lemma HalfwayStarts<Id(!new)>(ids: seq<Id>, current: map<Id, Bounds>, desired: map<Id, Bounds>)
    requires Distinct(ids) && (forall x :: x in ids <==> x in current) && current.Keys == desired.Keys
    ensures Halfway(ids, 0, current, current, desired)
  {
  }

  lemma HalfwayMeasures<Id(!new)>(
      ids: seq<Id>, k: nat, done: map<Id, Bounds>, current: map<Id, Bounds>, desired: map<Id, Bounds>)
    requires Halfway(ids, k, done, current, desired) && k < |ids|
    ensures ids[k] in done && ids[k] in current && ids[k] in desired && done[ids[k]] == current[ids[k]]
  {
  }

  lemma HalfwayNext<Id(!new)>(
      ids: seq<Id>, k: nat, done: map<Id, Bounds>, current: map<Id, Bounds>, desired: map<Id, Bounds>)
    requires Halfway(ids, k, done, current, desired) && k < |ids|
    ensures ids[k] in desired && Halfway(ids, k + 1, done[ids[k] := desired[ids[k]]], current, desired)
  {
  }

  lemma HalfwayEnds<Id(!new)>(ids: seq<Id>, done: map<Id, Bounds>, current: map<Id, Bounds>, desired: map<Id, Bounds>)
    requires Halfway(ids, |ids|, done, current, desired)
    ensures done == desired
  {
  }

  lemma ListsKeys(s: BackendSnapshot)
    requires Dense(s)
    ensures Distinct(ListedRows(s)) && Distinct(ListedColumns(s))
    ensures forall x :: x in ListedRows(s) <==> x in OwnRows(s)
    ensures forall x :: x in ListedColumns(s) <==> x in OwnColumns(s)
  {
  }

  /** The bounds at native index `i` once every id whose mirrored bounds differ has been written at its number. */
  function ToggledAt<Id>(was: Range, id: Id, current: map<Id, Bounds>, desired: map<Id, Bounds>, inf: real): Range {
    if id in current && id in desired && current[id] != desired[id] then NormalizeBounds(desired[id], inf) else was
  }

  function ToggledRows(
      rows: seq<Row>, current: map<RowId, Bounds>, desired: map<RowId, Bounds>, inf: real): (r: seq<Row>)
    ensures |r| == |rows|
  {
    seq(|rows|, i requires 0 <= i < |rows| =>
      rows[i].(bounds := ToggledAt(rows[i].bounds, RowId(i), current, desired, inf)))
  }

  function ToggledColumns(
      cols: seq<Column>, current: map<VariableId, Bounds>, desired: map<VariableId, Bounds>,
      inf: real): (r: seq<Column>)
    ensures |r| == |cols|
  {
    seq(|cols|, i requires 0 <= i < |cols| =>
      cols[i].(bounds := ToggledAt(cols[i].bounds, VariableId(i), current, desired, inf)))
  }

  /** The native bounds at every position are those of the entity placed there, under selection `chosen`. */
  ghost predicate ShowsSelection(n: NativeModel, s: BackendSnapshot, atoms: seq<Atom>, chosen: set<AtomId>, inf: real) {
    && FitsSnapshot(n, s)
    && (forall i :: 0 <= i < |s.rows| ==>
          n.rows[i].bounds == NormalizeBounds(RowBounds(atoms, chosen, s, s.rows[i].id), inf))
    && (forall i :: 0 <= i < |s.variables| ==>
          n.cols[i].bounds == NormalizeBounds(ColumnBounds(atoms, chosen, s, s.variables[i].id), inf))
  }

  ghost predicate RowsMirrored(rows: seq<Row>, current: map<RowId, Bounds>, inf: real) {
    forall i :: 0 <= i < |rows| && RowId(i) in current ==> rows[i].bounds == NormalizeBounds(current[RowId(i)], inf)
  }

  ghost predicate ColumnsMirrored(cols: seq<Column>, current: map<VariableId, Bounds>, inf: real) {
    forall i :: 0 <= i < |cols| && VariableId(i) in current ==>
      cols[i].bounds == NormalizeBounds(current[VariableId(i)], inf)
  }

  /** The mirrors name the native bounds at the number of each id. */
  ghost predicate Mirror(n: NativeModel, rows: map<RowId, Bounds>, columns: map<VariableId, Bounds>, inf: real) {
    RowsMirrored(n.rows, rows, inf) && ColumnsMirrored(n.cols, columns, inf)
  }

  class HighsAnalysisOracle {
    const highs: HighsModel
    const snapshot: BackendSnapshot
    const atoms: seq<Atom>
    const inf: real
    var selected: set<AtomId>
    var currentRows: map<RowId, Bounds>
    var currentColumns: map<VariableId, Bounds>

    /** Mirrors and native model have the snapshot's entities, and ids stay within range. */
    ghost predicate Valid()
      reads this, highs
    {
      && Dense(snapshot) && FitsSnapshot(highs.m, snapshot)
      && currentRows.Keys == OwnRows(snapshot).Keys && currentColumns.Keys == OwnColumns(snapshot).Keys
    }

    ghost predicate Mirrors()
      reads this, highs
    {
      Mirror(highs.m, currentRows, currentColumns, inf)
    }

    /** On a freshly rebuilt native model. The mirrors are true of it when ids are in position order. */
    constructor (highs: HighsModel, snapshot: BackendSnapshot, atoms: seq<Atom>, inf: real)
      requires Dense(snapshot) && Fresh(highs.m, snapshot, inf)
      ensures Valid() && this.highs == highs && this.snapshot == snapshot && this.atoms == atoms && this.inf == inf
      ensures currentRows == OwnRows(snapshot) && currentColumns == OwnColumns(snapshot)
      ensures PositionOrdered(snapshot) ==> Mirrors()
    {
      hide PositionOrdered, Mirror, NormalizeBounds, OwnRows, OwnColumns;
      this.highs, this.snapshot, this.atoms, this.inf := highs, snapshot, atoms, inf;
      selected := set i | 0 <= i < |atoms| :: atoms[i].id;
      currentRows := OwnRows(snapshot);
      currentColumns := OwnColumns(snapshot);
      new;
      if PositionOrdered(snapshot) { FreshMirrors(highs.m, snapshot, inf); }
    }

    predicate InUniverse(requested: set<AtomId>) {
      forall id :: id in requested ==> exists i :: 0 <= i < |atoms| && atoms[i].id == id
    }

    /** The desired bounds: every side starts open, and each active atom sets its sides in order. */
    method DesiredBounds(requested: set<AtomId>) returns (rows: map<RowId, Bounds>, columns: map<VariableId, Bounds>)
      ensures rows == DesiredRows(atoms, requested, snapshot)
      ensures columns == DesiredColumns(atoms, requested, snapshot)
    {
      hide AtomsApplied, DesiredRows, DesiredColumns;
      rows := map i | 0 <= i < |snapshot.rows| :: snapshot.rows[i].id := FREE;
      columns := map i | 0 <= i < |snapshot.variables| :: snapshot.variables[i].id := FREE;
      NothingApplied(atoms, requested, snapshot, rows, columns);
      var k := 0;
      while k < |atoms|
        invariant 0 <= k <= |atoms| && AtomsApplied(atoms, k, requested, snapshot, rows, columns)
      {
        NextApplied(atoms, k, requested, snapshot, rows, columns);
        if atoms[k].id in requested {
          rows, columns := Restrict(atoms[k], rows, columns);
        }
        k := k + 1;
      }
      AllApplied(atoms, requested, snapshot, rows, columns);
    }

    /** One active atom: each of its restrictions overwrites one side of one known entity. */
    method Restrict(atom: Atom, rows: map<RowId, Bounds>, columns: map<VariableId, Bounds>)
      returns (rows': map<RowId, Bounds>, columns': map<VariableId, Bounds>)
      ensures rows' == RestrictedRows(atom, atom.restrictions, rows, snapshot)
      ensures columns' == RestrictedColumns(atom, atom.restrictions, columns, snapshot)
    {
      hide ValueOf, RestrictedRows, RestrictedColumns;
      rows', columns' := rows, columns;
      NothingRestricted(atom, rows, columns, snapshot);
      assert atom.restrictions[..0] == [];
      var k := 0;
      while k < |atom.restrictions|
        invariant 0 <= k <= |atom.restrictions|
        invariant rows' == RestrictedRows(atom, atom.restrictions[..k], rows, snapshot)
        invariant columns' == RestrictedColumns(atom, atom.restrictions[..k], columns, snapshot)
      {
        var ref := atom.restrictions[k];
        var value := ValueOf(atom, ref, snapshot);
        RestrictedNext(atom, k, rows, columns, snapshot);
        match ref {
          case ConstraintLower(r) => if r in rows' { rows' := rows'[r := rows'[r].(lower := value)]; }
          case ConstraintUpper(r) => if r in rows' { rows' := rows'[r := rows'[r].(upper := value)]; }
          case VariableLower(v) => if v in columns' { columns' := columns'[v := columns'[v].(lower := value)]; }
          case VariableUpper(v) => if v in columns' { columns' := columns'[v := columns'[v].(upper := value)]; }
          case Entity =>
        }
        k := k + 1;
      }
      assert atom.restrictions[..k] == atom.restrictions;
    }

    /**
     * `apply_selection`, on any snapshot with dense ids: success writes, at the number of each id, the selection's
     * bounds where the mirror has others. With ids in position order that leaves exactly the bounds of the
     * selection, whatever was selected before and however earlier attempts ended; a native failure part-way still
     * leaves every mirror true.
     */
    method ApplySelection(requested: set<AtomId>) returns (st: Status)
      requires Valid()
      modifies this, highs
      ensures Valid()
      ensures !InUniverse(requested) <==> st == Failed(InvalidInput, Recoverable)
      ensures st.Failed? && st != Failed(InvalidInput, Recoverable) ==> st == NATIVE_FAILURE
      ensures st == Failed(InvalidInput, Recoverable) ==> highs.m == old(highs.m)
      ensures st.Failed? ==> selected == old(selected)
      ensures old(Mirrors()) ==> Mirrors()
      ensures st.Ok? ==> selected == requested
      ensures st.Ok? ==>
        currentRows == DesiredRows(atoms, requested, snapshot) &&
        currentColumns == DesiredColumns(atoms, requested, snapshot)
      ensures st.Ok? ==>
        && highs.m.rows
          == ToggledRows(old(highs.m.rows), old(currentRows), DesiredRows(atoms, requested, snapshot), inf)
        && highs.m.cols
          == ToggledColumns(old(highs.m.cols), old(currentColumns), DesiredColumns(atoms, requested, snapshot), inf)
      ensures st.Ok? && old(Mirrors()) && PositionOrdered(snapshot) ==>
        ShowsSelection(highs.m, snapshot, atoms, requested, inf)
    {
      hide RowBounds, ColumnBounds, ToggledRows, ToggledColumns, ShowsSelection, PositionOrdered, Mirror;
      if !InUniverse(requested) { return Failed(InvalidInput, Recoverable); }
      var rows, columns := DesiredBounds(requested);
      DesiredKeys(atoms, requested, snapshot);
      st := ToggleRows(rows);
      if st.Failed? { return; }
      st := ToggleColumns(columns);
      if st.Failed? { return; }
      selected := requested;
      if PositionOrdered(snapshot) && Mirrors() { MirrorsShow(highs.m, snapshot, atoms, requested, inf); }
    }

    method ToggleRows(desired: map<RowId, Bounds>) returns (st: Status)
      requires Valid() && desired.Keys == currentRows.Keys
      modifies this`currentRows, highs
      ensures Valid() && (st.Ok? || st == NATIVE_FAILURE)
      ensures highs.m.cols == old(highs.m.cols)
      ensures old(Mirrors()) ==> Mirrors()
      ensures highs.m.rows == ToggledRows(old(highs.m.rows), old(currentRows), currentRows, inf)
      ensures st.Ok? ==> currentRows == desired
    {
      hide NormalizeBounds, ToggledAt, ToggledRows, Mirror, Halfway, Dense, OwnRows, OwnColumns;
      ListsKeys(snapshot);
      ghost var rows, current := highs.m.rows, currentRows;
      HalfwayStarts(ListedRows(snapshot), current, desired);
      ToggledNothing(rows, current, highs.m.cols, currentColumns, inf);
      var k := 0;
      while k < |snapshot.rows|
        invariant 0 <= k <= |snapshot.rows| && Valid() && highs.m.cols == old(highs.m.cols)
        invariant highs.m.rows == ToggledRows(rows, current, currentRows, inf)
        invariant Halfway(ListedRows(snapshot), k, currentRows, current, desired)
      {
        var id := snapshot.rows[k].id;
        HalfwayMeasures(ListedRows(snapshot), k, currentRows, current, desired);
        HalfwayNext(ListedRows(snapshot), k, currentRows, current, desired);
        var ok := ToggleRow(id, desired[id], rows, current);
        if !ok {
          ToggledMirrors(old(highs.m), highs.m, current, currentRows, currentColumns, currentColumns, inf);
          return NATIVE_FAILURE;
        }
        k := k + 1;
      }
      ToggledMirrors(old(highs.m), highs.m, current, currentRows, currentColumns, currentColumns, inf);
      HalfwayEnds(ListedRows(snapshot), currentRows, current, desired);
      return Ok;
    }

    /** One turn of that loop: a native write only where the mirror has other bounds. */
    method ToggleRow(id: RowId, b: Bounds, ghost rows: seq<Row>, ghost current: map<RowId, Bounds>) returns (ok: bool)
      requires Valid() && id in currentRows && id in current && currentRows[id] == current[id]
      requires highs.m.rows == ToggledRows(rows, current, currentRows, inf)
      modifies this`currentRows, highs
      ensures Valid() && highs.m.cols == old(highs.m.cols)
      ensures highs.m.rows == ToggledRows(rows, current, currentRows, inf)
      ensures currentRows == if ok then old(currentRows)[id := b] else old(currentRows)
    {
      hide NormalizeBounds, ToggledAt;
      if currentRows[id] == b { return true; }
      ok := highs.ChangeRowBounds(id.index, NormalizeBounds(b, inf));
      if !ok { return; }
      ToggledRow(rows, current, currentRows, id, b, inf);
      currentRows := currentRows[id := b];
    }

    method ToggleColumns(desired: map<VariableId, Bounds>) returns (st: Status)
      requires Valid() && desired.Keys == currentColumns.Keys
      modifies this`currentColumns, highs
      ensures Valid() && (st.Ok? || st == NATIVE_FAILURE)
      ensures highs.m.rows == old(highs.m.rows)
      ensures old(Mirrors()) ==> Mirrors()
      ensures highs.m.cols == ToggledColumns(old(highs.m.cols), old(currentColumns), currentColumns, inf)
      ensures st.Ok? ==> currentColumns == desired
    {
      hide NormalizeBounds, ToggledAt, ToggledColumns, Mirror, Halfway, Dense, OwnRows, OwnColumns;
      ListsKeys(snapshot);
      ghost var cols, current := highs.m.cols, currentColumns;
      HalfwayStarts(ListedColumns(snapshot), current, desired);
      ToggledNothing(highs.m.rows, currentRows, cols, current, inf);
      var k := 0;
      while k < |snapshot.variables|
        invariant 0 <= k <= |snapshot.variables| && Valid() && highs.m.rows == old(highs.m.rows)
        invariant highs.m.cols == ToggledColumns(cols, current, currentColumns, inf)
        invariant Halfway(ListedColumns(snapshot), k, currentColumns, current, desired)
      {
        var id := snapshot.variables[k].id;
        HalfwayMeasures(ListedColumns(snapshot), k, currentColumns, current, desired);
        HalfwayNext(ListedColumns(snapshot), k, currentColumns, current, desired);
        var ok := ToggleColumn(id, desired[id], cols, current);
        if !ok {
          ToggledMirrors(old(highs.m), highs.m, currentRows, currentRows, current, currentColumns, inf);
          return NATIVE_FAILURE;
        }
        k := k + 1;
      }
      ToggledMirrors(old(highs.m), highs.m, currentRows, currentRows, current, currentColumns, inf);
      HalfwayEnds(ListedColumns(snapshot), currentColumns, current, desired);
      return Ok;
    }

    /** One turn of that loop: a native write only where the mirror has other bounds. */
    method ToggleColumn(
        id: VariableId, b: Bounds, ghost cols: seq<Column>, ghost current: map<VariableId, Bounds>)
      returns (ok: bool)
      requires Valid() && id in currentColumns && id in current && currentColumns[id] == current[id]
      requires highs.m.cols == ToggledColumns(cols, current, currentColumns, inf)
      modifies this`currentColumns, highs
      ensures Valid() && highs.m.rows == old(highs.m.rows)
      ensures highs.m.cols == ToggledColumns(cols, current, currentColumns, inf)
      ensures currentColumns == if ok then old(currentColumns)[id := b] else old(currentColumns)
    {
      hide NormalizeBounds, ToggledAt;
      if currentColumns[id] == b { return true; }
      ok := highs.ChangeColBounds(id.index, NormalizeBounds(b, inf));
      if !ok { return; }
      ToggledColumn(cols, current, currentColumns, id, b, inf);
      currentColumns := currentColumns[id := b];
    }

    /**
     * History independence: with true mirrors, after any earlier selections, failed or not, a success leaves at the
     * number of each id the bounds that the last selection gives to that id; in id order that is the last selection.
     */
    method AfterAnyHistory(earlier: seq<set<AtomId>>, last: set<AtomId>) returns (st: Status)
      requires Valid()
      modifies this, highs
      ensures Valid() && (old(Mirrors()) ==> Mirrors())
      ensures st.Ok? && old(Mirrors()) ==>
        && Mirror(highs.m, DesiredRows(atoms, last, snapshot), DesiredColumns(atoms, last, snapshot), inf)
        && (PositionOrdered(snapshot) ==> ShowsSelection(highs.m, snapshot, atoms, last, inf))
    {
      hide ShowsSelection, PositionOrdered, Mirror, ToggledRows, ToggledColumns, DesiredRows, DesiredColumns;
      for i := 0 to |earlier|
        invariant Valid() && (old(Mirrors()) ==> Mirrors())
      {
        var _ := ApplySelection(earlier[i]);
      }
      st := ApplySelection(last);
    }
  }

  lemma FreshMirrors(n: NativeModel, s: BackendSnapshot, inf: real)
    requires Dense(s) && PositionOrdered(s) && Fresh(n, s, inf)
    ensures Mirror(n, OwnRows(s), OwnColumns(s), inf)
  {
    hide NormalizeBounds;
    forall i | 0 <= i < |n.rows|
      ensures OwnRows(s)[RowId(i)] == s.rows[i].bounds
    {
      assert s.rows[i].id == RowId(i);
    }
    forall i | 0 <= i < |n.cols|
      ensures OwnColumns(s)[VariableId(i)] == s.variables[i].bounds
    {
      assert s.variables[i].id == VariableId(i);
    }
  }

  /** The first `k` atoms have set their sides of every known entity. */
  ghost predicate AtomsApplied(
      atoms: seq<Atom>, k: nat, selected: set<AtomId>, s: BackendSnapshot,
      rows: map<RowId, Bounds>, columns: map<VariableId, Bounds>)
    requires k <= |atoms|
  {
    && (forall r :: r in rows <==> r in ListedRows(s)) && (forall v :: v in columns <==> v in ListedColumns(s))
    && (forall r :: r in rows ==> rows[r] == RowBounds(atoms[..k], selected, s, r))
    && (forall v :: v in columns ==> columns[v] == ColumnBounds(atoms[..k], selected, s, v))
  }

  lemma NothingApplied(
      atoms: seq<Atom>, selected: set<AtomId>, s: BackendSnapshot,
      rows: map<RowId, Bounds>, columns: map<VariableId, Bounds>)
    requires rows == map i | 0 <= i < |s.rows| :: s.rows[i].id := FREE
    requires columns == map i | 0 <= i < |s.variables| :: s.variables[i].id := FREE
    ensures AtomsApplied(atoms, 0, selected, s, rows, columns)
  {
    assert atoms[..0] == [];
  }

  lemma NextApplied(
      atoms: seq<Atom>, k: nat, selected: set<AtomId>, s: BackendSnapshot,
      rows: map<RowId, Bounds>, columns: map<VariableId, Bounds>)
    requires k < |atoms| && AtomsApplied(atoms, k, selected, s, rows, columns)
    ensures
      var atom := atoms[k];
      if atom.id in selected then
        AtomsApplied(atoms, k + 1, selected, s,
          RestrictedRows(atom, atom.restrictions, rows, s), RestrictedColumns(atom, atom.restrictions, columns, s))
      else AtomsApplied(atoms, k + 1, selected, s, rows, columns)
  {
    hide RowBounds, ColumnBounds, RowSides, ColumnSides;
    forall r {
      RowBoundsNext(atoms, k, selected, s, r);
    }
    forall v {
      ColumnBoundsNext(atoms, k, selected, s, v);
    }
  }

  lemma AllApplied(
      atoms: seq<Atom>, selected: set<AtomId>, s: BackendSnapshot,
      rows: map<RowId, Bounds>, columns: map<VariableId, Bounds>)
    requires AtomsApplied(atoms, |atoms|, selected, s, rows, columns)
    ensures rows == DesiredRows(atoms, selected, s) && columns == DesiredColumns(atoms, selected, s)
  {
    hide RowBounds, ColumnBounds;
    assert atoms[..|atoms|] == atoms;
  }

  function RestrictedRows(
      atom: Atom, restrictions: seq<Ref>, rows: map<RowId, Bounds>, s: BackendSnapshot): map<RowId, Bounds> {
    map r | r in rows :: RowSides(atom, restrictions, r, rows[r], s)
  }

  function RestrictedColumns(
      atom: Atom, restrictions: seq<Ref>, columns: map<VariableId, Bounds>, s: BackendSnapshot):
    map<VariableId, Bounds> {
    map v | v in columns :: ColumnSides(atom, restrictions, v, columns[v], s)
  }

  lemma NothingRestricted(atom: Atom, rows: map<RowId, Bounds>, columns: map<VariableId, Bounds>, s: BackendSnapshot)
    ensures RestrictedRows(atom, [], rows, s) == rows && RestrictedColumns(atom, [], columns, s) == columns
  {
  }

  /** One more restriction sets the one side it names, if its entity is known. */
  lemma RestrictedNext(
      atom: Atom, k: nat, rows: map<RowId, Bounds>, columns: map<VariableId, Bounds>, s: BackendSnapshot)
    requires k < |atom.restrictions|
    ensures
      var ref := atom.restrictions[k];
      var value := ValueOf(atom, ref, s);
      var rows', columns' :=
        RestrictedRows(atom, atom.restrictions[..k], rows, s),
        RestrictedColumns(atom, atom.restrictions[..k], columns, s);
      && RestrictedRows(atom, atom.restrictions[..k + 1], rows, s) == SetRowSide(rows', ref, value)
      && RestrictedColumns(atom, atom.restrictions[..k + 1], columns, s) == SetColumnSide(columns', ref, value)
  {
    hide ValueOf;
    assert atom.restrictions[..k + 1] == atom.restrictions[..k] + [atom.restrictions[k]];
  }

  function SetRowSide(rows: map<RowId, Bounds>, ref: Ref, value: Extended): map<RowId, Bounds> {
    match ref
    case ConstraintLower(r) => if r in rows then rows[r := rows[r].(lower := value)] else rows
    case ConstraintUpper(r) => if r in rows then rows[r := rows[r].(upper := value)] else rows
    case _ => rows
  }

  function SetColumnSide(columns: map<VariableId, Bounds>, ref: Ref, value: Extended): map<VariableId, Bounds> {
    match ref
    case VariableLower(v) => if v in columns then columns[v := columns[v].(lower := value)] else columns
    case VariableUpper(v) => if v in columns then columns[v := columns[v].(upper := value)] else columns
    case _ => columns
  }

  lemma DesiredKeys(atoms: seq<Atom>, chosen: set<AtomId>, s: BackendSnapshot)
    requires Dense(s)
    ensures DesiredRows(atoms, chosen, s).Keys == OwnRows(s).Keys
    ensures DesiredColumns(atoms, chosen, s).Keys == OwnColumns(s).Keys
  {
    hide RowBounds, ColumnBounds;
  }

  lemma ToggledNothing(
      rows: seq<Row>, current: map<RowId, Bounds>, cols: seq<Column>, columns: map<VariableId, Bounds>, inf: real)
    ensures ToggledRows(rows, current, current, inf) == rows
    ensures ToggledColumns(cols, columns, columns, inf) == cols
  {
  }

  /** One more id, whose mirror has not changed yet, is written at its number. */
  lemma ToggledRow(
      rows: seq<Row>, current: map<RowId, Bounds>, done: map<RowId, Bounds>, id: RowId, b: Bounds, inf: real)
    requires id in current && id in done && done[id] == current[id] != b && id.index < |rows|
    ensures
      var now := ToggledRows(rows, current, done, inf);
      ToggledRows(rows, current, done[id := b], inf)
      == now[id.index := now[id.index].(bounds := NormalizeBounds(b, inf))]
  {
    forall i | 0 <= i < |rows| && i != id.index
      ensures RowId(i) != id
    {
    }
  }

  lemma ToggledColumn(
      cols: seq<Column>, current: map<VariableId, Bounds>, done: map<VariableId, Bounds>, id: VariableId, b: Bounds,
      inf: real)
    requires id in current && id in done && done[id] == current[id] != b && id.index < |cols|
    ensures
      var now := ToggledColumns(cols, current, done, inf);
      ToggledColumns(cols, current, done[id := b], inf)
      == now[id.index := now[id.index].(bounds := NormalizeBounds(b, inf))]
  {
    forall i | 0 <= i < |cols| && i != id.index
      ensures VariableId(i) != id
    {
    }
  }

  /** Mirrors that were true stay true, however far the toggling got. */
  lemma ToggledMirrors(
      was: NativeModel, now: NativeModel, rows: map<RowId, Bounds>, rows': map<RowId, Bounds>,
      columns: map<VariableId, Bounds>, columns': map<VariableId, Bounds>, inf: real)
    requires rows'.Keys == rows.Keys && columns'.Keys == columns.Keys
    requires now.rows == ToggledRows(was.rows, rows, rows', inf) || (now.rows == was.rows && rows' == rows)
    requires now.cols == ToggledColumns(was.cols, columns, columns', inf) ||
        (now.cols == was.cols && columns' == columns)
    ensures Mirror(was, rows, columns, inf) ==> Mirror(now, rows', columns', inf)
  {
    hide NormalizeBounds;
  }

  /** With ids in position order a true mirror of the desired bounds is what the selection asks for. */
  lemma MirrorsShow(n: NativeModel, s: BackendSnapshot, atoms: seq<Atom>, chosen: set<AtomId>, inf: real)
    requires PositionOrdered(s) && FitsSnapshot(n, s)
    requires Mirror(n, DesiredRows(atoms, chosen, s), DesiredColumns(atoms, chosen, s), inf)
    ensures ShowsSelection(n, s, atoms, chosen, inf)
  {
    hide RowBounds, ColumnBounds, NormalizeBounds;
    forall i | 0 <= i < |s.rows|
      ensures n.rows[i].bounds == NormalizeBounds(RowBounds(atoms, chosen, s, s.rows[i].id), inf)
    {
      assert s.rows[i].id == RowId(i);
    }
    forall i | 0 <= i < |s.variables|
      ensures n.cols[i].bounds == NormalizeBounds(ColumnBounds(atoms, chosen, s, s.variables[i].id), inf)
    {
      assert s.variables[i].id == VariableId(i);
    }
  }

  // ---------------------------------------------------------------- position order is needed

  /** A fresh oracle's first selection, when no native call fails, is right at every position. */
  ghost predicate SelectsRightly(s: BackendSnapshot, atoms: seq<Atom>, chosen: set<AtomId>, n: NativeModel, inf: real)
    requires Dense(s)
  {
    Fresh(n, s, inf) ==>
      ShowsSelection(
        n.(rows := ToggledRows(n.rows, OwnRows(s), DesiredRows(atoms, chosen, s), inf),
           cols := ToggledColumns(n.cols, OwnColumns(s), DesiredColumns(atoms, chosen, s), inf)),
        s, atoms, chosen, inf)
  }

  /** One atom with one recorded restriction. */
  function OneRestriction(ref: Ref, x: real): seq<Atom> {
    [Atom(0, [ref], [(ref, Some(Finite(x)))], None)]
  }

  lemma OneRestrictionSets(ref: Ref, x: real, other: Ref, s: BackendSnapshot)
    ensures Effective(OneRestriction(ref, x), {0}, other, s) == if other == ref then Some(Finite(x)) else None
  {
    var atoms := OneRestriction(ref, x);
    assert atoms[..0] == [];
    if other == ref {
      assert ValueOf(atoms[0], ref, s) == Finite(x);
    }
  }

  lemma RestrictedRow(id: RowId, x: real, other: RowId, s: BackendSnapshot)
    ensures
      RowBounds(OneRestriction(ConstraintLower(id), x), {0}, s, other)
      == if other == id then Bounds(Finite(x), PosInfinity) else FREE
  {
    hide Effective, OneRestriction;
    OneRestrictionSets(ConstraintLower(id), x, ConstraintLower(other), s);
    OneRestrictionSets(ConstraintLower(id), x, ConstraintUpper(other), s);
  }

  lemma RestrictedColumn(id: VariableId, x: real, other: VariableId, s: BackendSnapshot)
    ensures
      ColumnBounds(OneRestriction(VariableLower(id), x), {0}, s, other)
      == if other == id then Bounds(Finite(x), PosInfinity) else FREE
  {
    hide Effective, OneRestriction;
    OneRestrictionSets(VariableLower(id), x, VariableLower(other), s);
    OneRestrictionSets(VariableLower(id), x, VariableUpper(other), s);
  }

  /** A lower bound above both the open one and that of `b`. */
  function Visible(b: Bounds, inf: real): (x: real)
    ensures NormalizeBounds(b, inf).lo < x && NormalizeBounds(FREE, inf).lo < x
  {
    var own := NormalizeBounds(b, inf).lo;
    1.0 + (if own < -inf then -inf else own)
  }

  lemma MisplacedRowFails(s: BackendSnapshot, p: nat, n: NativeModel, inf: real)
    requires Dense(s) && p < |s.rows| && s.rows[p].id != RowId(p) && Fresh(n, s, inf)
    ensures !SelectsRightly(s, OneRestriction(ConstraintLower(s.rows[p].id), Visible(s.rows[p].bounds, inf)), {0}, n,
        inf)
  {
    hide RowBounds, ColumnBounds, OneRestriction, Visible, ToggledColumns;
    var id, x := s.rows[p].id, Visible(s.rows[p].bounds, inf);
    var atoms := OneRestriction(ConstraintLower(id), x);
    RestrictedRow(id, x, id, s);
    RestrictedRow(id, x, RowId(p), s);
    var after := ToggledRows(n.rows, OwnRows(s), DesiredRows(atoms, {0}, s), inf);
    assert after[p].bounds.lo < x;
  }

  lemma MisplacedColumnFails(s: BackendSnapshot, p: nat, n: NativeModel, inf: real)
    requires Dense(s) && p < |s.variables| && s.variables[p].id != VariableId(p) && Fresh(n, s, inf)
    ensures
      !SelectsRightly(
        s, OneRestriction(VariableLower(s.variables[p].id), Visible(s.variables[p].bounds, inf)), {0}, n, inf)
  {
    hide RowBounds, ColumnBounds, OneRestriction, Visible, ToggledRows;
    var id, x := s.variables[p].id, Visible(s.variables[p].bounds, inf);
    var atoms := OneRestriction(VariableLower(id), x);
    RestrictedColumn(id, x, id, s);
    RestrictedColumn(id, x, VariableId(p), s);
    var after := ToggledColumns(n.cols, OwnColumns(s), DesiredColumns(atoms, {0}, s), inf);
    assert after[p].bounds.lo < x;
  }

  lemma FreshExists(s: BackendSnapshot, inf: real) returns (n: NativeModel)
    ensures Fresh(n, s, inf)
  {
    n := NativeModel(
      seq(|s.variables|, i requires 0 <= i < |s.variables| =>
        Column(NormalizeBounds(s.variables[i].bounds, inf), false)),
      seq(|s.rows|, i requires 0 <= i < |s.rows| => Row(NormalizeBounds(s.rows[i].bounds, inf), [])),
      [], 0.0, Minimize);
  }

  lemma OrderedSelectsRightly(s: BackendSnapshot, atoms: seq<Atom>, chosen: set<AtomId>, n: NativeModel, inf: real)
    requires Dense(s) && PositionOrdered(s)
    ensures SelectsRightly(s, atoms, chosen, n, inf)
  {
    hide RowBounds, ColumnBounds, NormalizeBounds;
    if Fresh(n, s, inf) {
      var rows, columns := DesiredRows(atoms, chosen, s), DesiredColumns(atoms, chosen, s);
      var now := n.(rows := ToggledRows(n.rows, OwnRows(s), rows, inf),
                    cols := ToggledColumns(n.cols, OwnColumns(s), columns, inf));
      FreshMirrors(n, s, inf);
      ToggledMirrors(n, now, OwnRows(s), rows, OwnColumns(s), columns, inf);
      MirrorsShow(now, s, atoms, chosen, inf);
    }
  }

  /**
   * Over all snapshots that `validate` accepts: selections, whatever their atoms, leave every native position with
   * the bounds of the entity placed there if and only if the snapshot lists its entities in id order.
   */
  lemma SelectsRightlyExactlyInIdOrder(s: BackendSnapshot, inf: real)
    requires Dense(s)
    ensures (forall atoms, chosen, n :: SelectsRightly(s, atoms, chosen, n, inf)) <==> PositionOrdered(s)
  {
    hide SelectsRightly;
    if PositionOrdered(s) {
      forall atoms, chosen, n
        ensures SelectsRightly(s, atoms, chosen, n, inf)
      {
        OrderedSelectsRightly(s, atoms, chosen, n, inf);
      }
    } else {
      var n := FreshExists(s, inf);
      if p: nat :| p < |s.rows| && s.rows[p].id != RowId(p) {
        MisplacedRowFails(s, p, n, inf);
      } else {
        var p: nat :| p < |s.variables| && s.variables[p].id != VariableId(p);
        MisplacedColumnFails(s, p, n, inf);
      }
    }
  }

  /** Two rows, listed against their ids. */
  function Exchanged(a: Bounds, b: Bounds): BackendSnapshot {
    BackendSnapshot(
      0, 0, [], [CompiledRow(RowId(1), a, []), CompiledRow(RowId(0), b, [])], [], NoObjective,
      Origins(map[], map[RowId(0) := FromConstruct, RowId(1) := FromConstruct], map[]))
  }

  lemma ExchangedIsValid(a: Bounds, b: Bounds)
    ensures SnapshotValid(Exchanged(a, b)) && Dense(Exchanged(a, b))
    ensures RowId(0) in OwnRows(Exchanged(a, b)) && OwnRows(Exchanged(a, b))[RowId(0)] == b
  {
    var s := Exchanged(a, b);
    ValidIsDense(s);
    assert s.rows[1].id == RowId(0) && s.rows[1].bounds == b;
  }

  lemma ExchangedIsFresh(a: Bounds, b: Bounds, n: NativeModel, inf: real)
    requires |n.cols| == 0 && |n.rows| == 2
    requires n.rows[0].bounds == NormalizeBounds(a, inf) && n.rows[1].bounds == NormalizeBounds(b, inf)
    ensures Fresh(n, Exchanged(a, b), inf)
  {
  }

  /**
   * `validate` accepts a snapshot with the ids of two rows exchanged; selecting one restriction of row 1, which lies
   * at position 0, then leaves position 0 without it.
   */
  lemma ExchangedIdsMisplaceBounds(a: Bounds, b: Bounds, n: NativeModel, inf: real)
    requires |n.cols| == 0 && |n.rows| == 2
    requires n.rows[0].bounds == NormalizeBounds(a, inf) && n.rows[1].bounds == NormalizeBounds(b, inf)
    ensures SnapshotValid(Exchanged(a, b)) && Dense(Exchanged(a, b))
    ensures
      !SelectsRightly(Exchanged(a, b), OneRestriction(ConstraintLower(RowId(1)), Visible(a, inf)), {0}, n, inf)
  {
    hide SnapshotValid, Dense, Fresh, SelectsRightly, OneRestriction, Visible;
    ExchangedIsValid(a, b);
    ExchangedIsFresh(a, b, n, inf);
    MisplacedRowFails(Exchanged(a, b), 0, n, inf);
  }

  // ---------------------------------------------------------------- when the history matters

  /** Native rows after the selections of `history`, each of which succeeds. */
  function RowsAfter(
      rows: seq<Row>, current: map<RowId, Bounds>, history: seq<set<AtomId>>, atoms: seq<Atom>, s: BackendSnapshot,
      inf: real): seq<Row>
    decreases |history|
  {
    if |history| == 0 then rows
    else
      var desired := DesiredRows(atoms, history[0], s);
      RowsAfter(ToggledRows(rows, current, desired, inf), desired, history[1..], atoms, s, inf)
  }

  function ColumnsAfter(
      cols: seq<Column>, current: map<VariableId, Bounds>, history: seq<set<AtomId>>, atoms: seq<Atom>,
      s: BackendSnapshot, inf: real): seq<Column>
    decreases |history|
  {
    if |history| == 0 then cols
    else
      var desired := DesiredColumns(atoms, history[0], s);
      ColumnsAfter(ToggledColumns(cols, current, desired, inf), desired, history[1..], atoms, s, inf)
  }

  /** On a fresh native model, earlier selections make no difference to the last one. */
  ghost predicate HistoryFree(
      s: BackendSnapshot, atoms: seq<Atom>, earlier: seq<set<AtomId>>, last: set<AtomId>, n: NativeModel, inf: real)
    requires Dense(s)
  {
    Fresh(n, s, inf) ==>
      && RowsAfter(n.rows, OwnRows(s), earlier + [last], atoms, s, inf)
         == RowsAfter(n.rows, OwnRows(s), [last], atoms, s, inf)
      && ColumnsAfter(n.cols, OwnColumns(s), earlier + [last], atoms, s, inf)
         == ColumnsAfter(n.cols, OwnColumns(s), [last], atoms, s, inf)
  }

  /** The entity at each position has the native bounds of the entity whose id is that number. */
  ghost predicate Truthful(s: BackendSnapshot, inf: real)
    requires Dense(s)
  {
    && (forall i :: 0 <= i < |s.rows| && RowId(i) in OwnRows(s) ==>
          NormalizeBounds(s.rows[i].bounds, inf) == NormalizeBounds(OwnRows(s)[RowId(i)], inf))
    && (forall i :: 0 <= i < |s.variables| && VariableId(i) in OwnColumns(s) ==>
          NormalizeBounds(s.variables[i].bounds, inf) == NormalizeBounds(OwnColumns(s)[VariableId(i)], inf))
  }

  function RowsShowing(rows: seq<Row>, desired: map<RowId, Bounds>, inf: real): (r: seq<Row>)
    ensures |r| == |rows|
  {
    seq(|rows|, i requires 0 <= i < |rows| =>
      if RowId(i) in desired then rows[i].(bounds := NormalizeBounds(desired[RowId(i)], inf)) else rows[i])
  }

  function ColumnsShowing(cols: seq<Column>, desired: map<VariableId, Bounds>, inf: real): (r: seq<Column>)
    ensures |r| == |cols|
  {
    seq(|cols|, i requires 0 <= i < |cols| =>
      if VariableId(i) in desired then cols[i].(bounds := NormalizeBounds(desired[VariableId(i)], inf)) else cols[i])
  }

  lemma ToggledShow(rows: seq<Row>, current: map<RowId, Bounds>, desired: map<RowId, Bounds>, inf: real)
    requires RowsMirrored(rows, current, inf) && desired.Keys == current.Keys
    ensures ToggledRows(rows, current, desired, inf) == RowsShowing(rows, desired, inf)
    ensures RowsMirrored(RowsShowing(rows, desired, inf), desired, inf)
    ensures forall d: map<RowId, Bounds> :: d.Keys == desired.Keys ==>
      RowsShowing(RowsShowing(rows, desired, inf), d, inf) == RowsShowing(rows, d, inf)
  {
    hide NormalizeBounds;
  }

  lemma ToggledColumnsShow(
      cols: seq<Column>, current: map<VariableId, Bounds>, desired: map<VariableId, Bounds>, inf: real)
    requires ColumnsMirrored(cols, current, inf) && desired.Keys == current.Keys
    ensures ToggledColumns(cols, current, desired, inf) == ColumnsShowing(cols, desired, inf)
    ensures ColumnsMirrored(ColumnsShowing(cols, desired, inf), desired, inf)
    ensures forall d: map<VariableId, Bounds> :: d.Keys == desired.Keys ==>
      ColumnsShowing(ColumnsShowing(cols, desired, inf), d, inf) == ColumnsShowing(cols, d, inf)
  {
    hide NormalizeBounds;
  }

  /** From true mirrors only the last selection counts. */
  lemma {:induction false} RowsShowLast(
      rows: seq<Row>, current: map<RowId, Bounds>, history: seq<set<AtomId>>, atoms: seq<Atom>, s: BackendSnapshot,
      inf: real)
    requires Dense(s) && RowsMirrored(rows, current, inf) && current.Keys == OwnRows(s).Keys && |history| != 0
    ensures RowsAfter(rows, current, history, atoms, s, inf)
      == RowsShowing(rows, DesiredRows(atoms, history[|history| - 1], s), inf)
    decreases |history|
  {
    hide RowsShowing, RowsMirrored, ToggledRows, OwnRows, DesiredRows, Dense;
    var desired := DesiredRows(atoms, history[0], s);
    DesiredKeys(atoms, history[0], s);
    DesiredKeys(atoms, history[|history| - 1], s);
    ToggledShow(rows, current, desired, inf);
    if |history| > 1 {
      RowsShowLast(RowsShowing(rows, desired, inf), desired, history[1..], atoms, s, inf);
    }
  }

  lemma {:induction false} ColumnsShowLast(
      cols: seq<Column>, current: map<VariableId, Bounds>, history: seq<set<AtomId>>, atoms: seq<Atom>,
      s: BackendSnapshot, inf: real)
    requires Dense(s) && ColumnsMirrored(cols, current, inf) && current.Keys == OwnColumns(s).Keys && |history| != 0
    ensures ColumnsAfter(cols, current, history, atoms, s, inf)
      == ColumnsShowing(cols, DesiredColumns(atoms, history[|history| - 1], s), inf)
    decreases |history|
  {
    hide ColumnsShowing, ColumnsMirrored, ToggledColumns, OwnColumns, DesiredColumns, Dense;
    var desired := DesiredColumns(atoms, history[0], s);
    DesiredKeys(atoms, history[0], s);
    DesiredKeys(atoms, history[|history| - 1], s);
    ToggledColumnsShow(cols, current, desired, inf);
    if |history| > 1 {
      ColumnsShowLast(ColumnsShowing(cols, desired, inf), desired, history[1..], atoms, s, inf);
    }
  }

  lemma TruthfulForgets(
      s: BackendSnapshot, atoms: seq<Atom>, earlier: seq<set<AtomId>>, last: set<AtomId>, n: NativeModel, inf: real)
    requires Dense(s) && Truthful(s, inf)
    ensures HistoryFree(s, atoms, earlier, last, n, inf)
  {
    hide RowsAfter, ColumnsAfter, RowsShowing, ColumnsShowing, DesiredRows, DesiredColumns, NormalizeBounds;
    if Fresh(n, s, inf) {
      RowsShowLast(n.rows, OwnRows(s), earlier + [last], atoms, s, inf);
      RowsShowLast(n.rows, OwnRows(s), [last], atoms, s, inf);
      ColumnsShowLast(n.cols, OwnColumns(s), earlier + [last], atoms, s, inf);
      ColumnsShowLast(n.cols, OwnColumns(s), [last], atoms, s, inf);
    }
  }

  /** Atom 0 sets both sides of an entity, and atom 1 then moves its lower side. */
  function SetAndMove(lower: Ref, upper: Ref, b: Bounds): seq<Atom> {
    var moved := if b.lower == Finite(0.0) then Finite(1.0) else Finite(0.0);
    [Atom(0, [lower, upper], [(lower, Some(b.lower)), (upper, Some(b.upper))], None),
     Atom(1, [lower], [(lower, Some(moved))], None)]
  }

  lemma FoundTwo(a: Ref, b: Ref, x: Option<Extended>, y: Option<Extended>)
    requires a != b
    ensures Found([(a, x), (b, y)], a) == x && Found([(a, x), (b, y)], b) == y
  {
    var values := [(a, x), (b, y)];
    assert values[1..] == [(b, y)];
    assert Found(values[1..], b) == y;
  }

  lemma SetAndMoveSides(lower: Ref, upper: Ref, b: Bounds, s: BackendSnapshot)
    requires lower != upper
    ensures
      var atoms := SetAndMove(lower, upper, b);
      && Effective(atoms, {0}, lower, s) == Some(b.lower) && Effective(atoms, {0}, upper, s) == Some(b.upper)
      && Effective(atoms, {0, 1}, lower, s).Some? && Effective(atoms, {0, 1}, lower, s) != Some(b.lower)
  {
    var atoms := SetAndMove(lower, upper, b);
    FoundTwo(lower, upper, Some(b.lower), Some(b.upper));
    assert ValueOf(atoms[0], lower, s) == b.lower && ValueOf(atoms[0], upper, s) == b.upper;
    LastOwnerDecides(atoms, {0}, lower, s, 0);
    LastOwnerDecides(atoms, {0}, upper, s, 0);
    LastOwnerDecides(atoms, {0, 1}, lower, s, 1);
  }

  lemma DesiredAt(atoms: seq<Atom>, chosen: set<AtomId>, s: BackendSnapshot)
    requires Dense(s)
    ensures forall r :: r in OwnRows(s) ==>
      r in DesiredRows(atoms, chosen, s) && DesiredRows(atoms, chosen, s)[r] == RowBounds(atoms, chosen, s, r)
    ensures forall v :: v in OwnColumns(s) ==>
      v in DesiredColumns(atoms, chosen, s) &&
      DesiredColumns(atoms, chosen, s)[v] == ColumnBounds(atoms, chosen, s, v)
  {
    hide RowBounds, ColumnBounds;
  }

  lemma TwoRowSelections(
      rows: seq<Row>, current: map<RowId, Bounds>, a: set<AtomId>, b: set<AtomId>, atoms: seq<Atom>,
      s: BackendSnapshot, inf: real)
    ensures
      var first, second := DesiredRows(atoms, a, s), DesiredRows(atoms, b, s);
      && RowsAfter(rows, current, [b], atoms, s, inf) == ToggledRows(rows, current, second, inf)
      && RowsAfter(rows, current, [a] + [b], atoms, s, inf)
         == ToggledRows(ToggledRows(rows, current, first, inf), first, second, inf)
  {
    hide ToggledRows, DesiredRows;
    assert ([a] + [b])[1..] == [b] && [b][1..] == [];
    var first, second := DesiredRows(atoms, a, s), DesiredRows(atoms, b, s);
    var moved := ToggledRows(rows, current, first, inf);
    assert RowsAfter(moved, first, [b], atoms, s, inf)
      == RowsAfter(ToggledRows(moved, first, second, inf), second, [], atoms, s, inf);
    assert RowsAfter(rows, current, [b], atoms, s, inf)
      == RowsAfter(ToggledRows(rows, current, second, inf), second, [], atoms, s, inf);
  }

  lemma TwoColumnSelections(
      cols: seq<Column>, current: map<VariableId, Bounds>, a: set<AtomId>, b: set<AtomId>, atoms: seq<Atom>,
      s: BackendSnapshot, inf: real)
    ensures
      var first, second := DesiredColumns(atoms, a, s), DesiredColumns(atoms, b, s);
      && ColumnsAfter(cols, current, [b], atoms, s, inf) == ToggledColumns(cols, current, second, inf)
      && ColumnsAfter(cols, current, [a] + [b], atoms, s, inf)
         == ToggledColumns(ToggledColumns(cols, current, first, inf), first, second, inf)
  {
    hide ToggledColumns, DesiredColumns;
    assert ([a] + [b])[1..] == [b] && [b][1..] == [];
    var first, second := DesiredColumns(atoms, a, s), DesiredColumns(atoms, b, s);
    var moved := ToggledColumns(cols, current, first, inf);
    assert ColumnsAfter(moved, first, [b], atoms, s, inf)
      == ColumnsAfter(ToggledColumns(moved, first, second, inf), second, [], atoms, s, inf);
    assert ColumnsAfter(cols, current, [b], atoms, s, inf)
      == ColumnsAfter(ToggledColumns(cols, current, second, inf), second, [], atoms, s, inf);
  }

  /** Bounds that the mirror holds already are written only after something else was selected. */
  lemma DetourWrites(
      rows: seq<Row>, current: map<RowId, Bounds>, first: map<RowId, Bounds>, second: map<RowId, Bounds>, i: nat,
      inf: real)
    requires i < |rows| && RowId(i) in current && RowId(i) in first && RowId(i) in second
    requires second[RowId(i)] == current[RowId(i)] != first[RowId(i)]
    ensures ToggledRows(rows, current, second, inf)[i].bounds == rows[i].bounds
    ensures ToggledRows(ToggledRows(rows, current, first, inf), first, second, inf)[i].bounds
      == NormalizeBounds(current[RowId(i)], inf)
  {
    hide NormalizeBounds;
  }

  lemma DetourWritesColumn(
      cols: seq<Column>, current: map<VariableId, Bounds>, first: map<VariableId, Bounds>,
      second: map<VariableId, Bounds>, i: nat, inf: real)
    requires i < |cols| && VariableId(i) in current && VariableId(i) in first && VariableId(i) in second
    requires second[VariableId(i)] == current[VariableId(i)] != first[VariableId(i)]
    ensures ToggledColumns(cols, current, second, inf)[i].bounds == cols[i].bounds
    ensures ToggledColumns(ToggledColumns(cols, current, first, inf), first, second, inf)[i].bounds
      == NormalizeBounds(current[VariableId(i)], inf)
  {
    hide NormalizeBounds;
  }

  /** Selecting the own bounds writes nothing at first, and writes them after another selection. */
  lemma UntruthfulRowRemembers(s: BackendSnapshot, i: nat, n: NativeModel, inf: real)
    requires Dense(s) && i < |s.rows| && RowId(i) in OwnRows(s) && Fresh(n, s, inf)
    requires NormalizeBounds(s.rows[i].bounds, inf) != NormalizeBounds(OwnRows(s)[RowId(i)], inf)
    ensures !HistoryFree(s, SetAndMove(ConstraintLower(RowId(i)), ConstraintUpper(RowId(i)), OwnRows(s)[RowId(i)]),
        [{0, 1}], {0}, n, inf)
  {
    hide NormalizeBounds, SetAndMove, Effective, RowsAfter, ColumnsAfter, OwnRows, OwnColumns, DesiredRows,
      DesiredColumns, ToggledRows;
    var r := RowId(i);
    var own := OwnRows(s)[r];
    var atoms := SetAndMove(ConstraintLower(r), ConstraintUpper(r), own);
    SetAndMoveSides(ConstraintLower(r), ConstraintUpper(r), own, s);
    DesiredAt(atoms, {0, 1}, s);
    DesiredAt(atoms, {0}, s);
    TwoRowSelections(n.rows, OwnRows(s), {0, 1}, {0}, atoms, s, inf);
    DetourWrites(n.rows, OwnRows(s), DesiredRows(atoms, {0, 1}, s), DesiredRows(atoms, {0}, s), i, inf);
  }

  lemma UntruthfulColumnRemembers(s: BackendSnapshot, i: nat, n: NativeModel, inf: real)
    requires Dense(s) && i < |s.variables| && VariableId(i) in OwnColumns(s) && Fresh(n, s, inf)
    requires NormalizeBounds(s.variables[i].bounds, inf) != NormalizeBounds(OwnColumns(s)[VariableId(i)], inf)
    ensures
      !HistoryFree(s, SetAndMove(VariableLower(VariableId(i)), VariableUpper(VariableId(i)),
          OwnColumns(s)[VariableId(i)]), [{0, 1}], {0}, n, inf)
  {
    hide NormalizeBounds, SetAndMove, Effective, RowsAfter, ColumnsAfter, OwnRows, OwnColumns, DesiredRows,
      DesiredColumns, ToggledColumns;
    var v := VariableId(i);
    var own := OwnColumns(s)[v];
    var atoms := SetAndMove(VariableLower(v), VariableUpper(v), own);
    SetAndMoveSides(VariableLower(v), VariableUpper(v), own, s);
    DesiredAt(atoms, {0, 1}, s);
    DesiredAt(atoms, {0}, s);
    TwoColumnSelections(n.cols, OwnColumns(s), {0, 1}, {0}, atoms, s, inf);
    DetourWritesColumn(
      n.cols, OwnColumns(s), DesiredColumns(atoms, {0, 1}, s), DesiredColumns(atoms, {0}, s), i, inf);
  }

  /**
   * Over all snapshots that `validate` accepts: what a selection leaves natively is the same whatever was selected
   * before if and only if each position has the bounds of the entity whose id is that number.
   */
  lemma HistoryFreeExactlyWhenTruthful(s: BackendSnapshot, inf: real)
    requires Dense(s)
    ensures (forall atoms, earlier, last, n :: HistoryFree(s, atoms, earlier, last, n, inf)) <==> Truthful(s, inf)
  {
    hide HistoryFree, NormalizeBounds, OwnRows, OwnColumns;
    if Truthful(s, inf) {
      forall atoms, earlier, last, n
        ensures HistoryFree(s, atoms, earlier, last, n, inf)
      {
        TruthfulForgets(s, atoms, earlier, last, n, inf);
      }
    } else {
      var n := FreshExists(s, inf);
      if i: nat :| (
        && i < |s.rows| && RowId(i) in OwnRows(s)
        && NormalizeBounds(s.rows[i].bounds, inf) != NormalizeBounds(OwnRows(s)[RowId(i)], inf)) {
        UntruthfulRowRemembers(s, i, n, inf);
      } else {
        var i: nat :| i < |s.variables| && VariableId(i) in OwnColumns(s)
          && NormalizeBounds(s.variables[i].bounds, inf) != NormalizeBounds(OwnColumns(s)[VariableId(i)], inf);
        UntruthfulColumnRemembers(s, i, n, inf);
      }
    }
  }

  /**
   * With the ids of two rows of different bounds exchanged, selecting the own bounds of row 0 gives one native model
   * at first and another one after a different selection.
   */
  lemma ExchangedIdsRemember(a: Bounds, b: Bounds, n: NativeModel, inf: real)
    requires |n.cols| == 0 && |n.rows| == 2
    requires n.rows[0].bounds == NormalizeBounds(a, inf) != NormalizeBounds(b, inf) == n.rows[1].bounds
    ensures SnapshotValid(Exchanged(a, b)) && Dense(Exchanged(a, b))
    ensures
      var atoms := SetAndMove(ConstraintLower(RowId(0)), ConstraintUpper(RowId(0)), b);
      !HistoryFree(Exchanged(a, b), atoms, [{0, 1}], {0}, n, inf)
  {
    hide SnapshotValid, Dense, OwnRows, Fresh, HistoryFree, SetAndMove, NormalizeBounds;
    ExchangedIsValid(a, b);
    ExchangedIsFresh(a, b, n, inf);
    UntruthfulRowRemembers(Exchanged(a, b), 0, n, inf);
  }

  // ---------------------------------------------------------------- monotonicity

  predicate Leq(a: Extended, b: Extended) {
    match (a, b)
    case (NegInfinity, _) => true
    case (_, PosInfinity) => true
    case (Finite(x), Finite(y)) => x <= y
    case _ => false
  }

  /** The first bounds allow no more than the second. */
  predicate Tighter(a: Bounds, b: Bounds) {
    Leq(b.lower, a.lower) && Leq(a.upper, b.upper)
  }

  /** Enlarging a selection never loosens a bound. */
  ghost predicate Monotone(atoms: seq<Atom>, s: BackendSnapshot) {
    forall small: set<AtomId>, large: set<AtomId> :: small <= large ==> Tightens(atoms, small, large, s)
  }

  ghost predicate Tightens(atoms: seq<Atom>, small: set<AtomId>, large: set<AtomId>, s: BackendSnapshot) {
    && (forall r :: Tighter(RowBounds(atoms, large, s, r), RowBounds(atoms, small, s, r)))
    && (forall v :: Tighter(ColumnBounds(atoms, large, s, v), ColumnBounds(atoms, small, s, v)))
  }

  predicate IsLower(ref: Ref) { ref.ConstraintLower? || ref.VariableLower? }

  predicate NoLooser(ref: Ref, later: Extended, earlier: Extended) {
    if IsLower(ref) then Leq(earlier, later) else Leq(later, earlier)
  }

  /** Of two atoms that own the same side, the later one sets it no looser. */
  ghost predicate LaterIsTighter(atoms: seq<Atom>, s: BackendSnapshot) {
    forall i, j, ref: Ref {:trigger ValueOf(atoms[i], ref, s), ValueOf(atoms[j], ref, s)} ::
      (0 <= i < j < |atoms| && !ref.Entity? && ref in atoms[i].restrictions && ref in atoms[j].restrictions) ==>
      NoLooser(ref, ValueOf(atoms[j], ref, s), ValueOf(atoms[i], ref, s))
  }

  ghost predicate DistinctAtoms(atoms: seq<Atom>) {
    forall i, j :: 0 <= i < j < |atoms| ==> atoms[i].id != atoms[j].id
  }

  lemma {:induction false} EffectiveHasOwner(
      atoms: seq<Atom>, selected: set<AtomId>, ref: Ref, s: BackendSnapshot)
    returns (i: nat)
    requires Effective(atoms, selected, ref, s).Some?
    ensures i < |atoms| && atoms[i].id in selected && ref in atoms[i].restrictions
    ensures Effective(atoms, selected, ref, s) == Some(ValueOf(atoms[i], ref, s))
  {
    var k := |atoms| - 1;
    if atoms[k].id in selected && ref in atoms[k].restrictions {
      i := k;
    } else {
      i := EffectiveHasOwner(atoms[..k], selected, ref, s);
    }
  }

  /** The last active owner decides. */
  lemma {:induction false} LastOwnerDecides(
      atoms: seq<Atom>, selected: set<AtomId>, ref: Ref, s: BackendSnapshot, j: nat)
    requires j < |atoms| && atoms[j].id in selected && ref in atoms[j].restrictions
    requires forall k :: j < k < |atoms| ==> !(atoms[k].id in selected && ref in atoms[k].restrictions)
    ensures Effective(atoms, selected, ref, s) == Some(ValueOf(atoms[j], ref, s))
  {
    var k := |atoms| - 1;
    if j < k { LastOwnerDecides(atoms[..k], selected, ref, s, j); }
  }

  lemma LeqReflexive(x: Extended)
    ensures Leq(x, x)
  {
  }

  /** One side only tightens when the selection grows. */
  lemma {:induction false} SideTightens(
      atoms: seq<Atom>, small: set<AtomId>, large: set<AtomId>, ref: Ref, s: BackendSnapshot)
    requires LaterIsTighter(atoms, s) && small <= large && !ref.Entity?
    ensures
      var was, now := Effective(atoms, small, ref, s), Effective(atoms, large, ref, s);
      was.Some? ==> now.Some? && NoLooser(ref, now.value, was.value)
  {
    if |atoms| != 0 && Effective(atoms, small, ref, s).Some? {
      var k := |atoms| - 1;
      var i := EffectiveHasOwner(atoms, small, ref, s);
      LeqReflexive(ValueOf(atoms[i], ref, s));
      if atoms[k].id in large && ref in atoms[k].restrictions {
        if i < k { assert NoLooser(ref, ValueOf(atoms[k], ref, s), ValueOf(atoms[i], ref, s)); }
      } else {
        PrefixIsTighter(atoms, s);
        SideTightens(atoms[..k], small, large, ref, s);
      }
    }
  }

  lemma PrefixIsTighter(atoms: seq<Atom>, s: BackendSnapshot)
    requires LaterIsTighter(atoms, s) && |atoms| != 0
    ensures LaterIsTighter(atoms[..|atoms| - 1], s)
  {
    var front := atoms[..|atoms| - 1];
    forall i, j, ref: Ref {:trigger ValueOf(front[i], ref, s), ValueOf(front[j], ref, s)}
      | 0 <= i < j < |front| && !ref.Entity? && ref in front[i].restrictions && ref in front[j].restrictions
      ensures NoLooser(ref, ValueOf(front[j], ref, s), ValueOf(front[i], ref, s))
    {
      assert NoLooser(ref, ValueOf(atoms[j], ref, s), ValueOf(atoms[i], ref, s));
    }
  }

  lemma LaterIsTighterSuffices(atoms: seq<Atom>, s: BackendSnapshot, small: set<AtomId>, large: set<AtomId>)
    requires LaterIsTighter(atoms, s) && small <= large
    ensures Tightens(atoms, small, large, s)
  {
    forall r
      ensures Tighter(RowBounds(atoms, large, s, r), RowBounds(atoms, small, s, r))
    {
      SideTightens(atoms, small, large, ConstraintLower(r), s);
      SideTightens(atoms, small, large, ConstraintUpper(r), s);
    }
    forall v
      ensures Tighter(ColumnBounds(atoms, large, s, v), ColumnBounds(atoms, small, s, v))
    {
      SideTightens(atoms, small, large, VariableLower(v), s);
      SideTightens(atoms, small, large, VariableUpper(v), s);
    }
  }

  /** Two owners of one side, of which the later is looser, already break monotonicity. */
  lemma LooserOwnerBreaks(atoms: seq<Atom>, s: BackendSnapshot, i: nat, j: nat, ref: Ref)
    requires DistinctAtoms(atoms) && i < j < |atoms| && !ref.Entity?
    requires ref in atoms[i].restrictions && ref in atoms[j].restrictions
    requires Tightens(atoms, {atoms[i].id}, {atoms[i].id, atoms[j].id}, s)
    ensures NoLooser(ref, ValueOf(atoms[j], ref, s), ValueOf(atoms[i], ref, s))
  {
    var small, large := {atoms[i].id}, {atoms[i].id, atoms[j].id};
    LastOwnerDecides(atoms, small, ref, s, i);
    LastOwnerDecides(atoms, large, ref, s, j);
    match ref {
      case ConstraintLower(r) => assert Tighter(RowBounds(atoms, large, s, r), RowBounds(atoms, small, s, r));
      case ConstraintUpper(r) => assert Tighter(RowBounds(atoms, large, s, r), RowBounds(atoms, small, s, r));
      case VariableLower(v) => assert Tighter(ColumnBounds(atoms, large, s, v), ColumnBounds(atoms, small, s, v));
      case VariableUpper(v) => assert Tighter(ColumnBounds(atoms, large, s, v), ColumnBounds(atoms, small, s, v));
    }
  }

  /** The atom appended for a temporary fixing or a lock: it sets both sides of one variable to one value. */
  function Pinned(id: AtomId, v: VariableId, x: real): Atom {
    var lower, upper := VariableLower(v), VariableUpper(v);
    Atom(id, [lower, upper], [(lower, Some(Finite(x))), (upper, Some(Finite(x)))], None)
  }

  /**
   * A fixing of a variable at 3 and a lock at 4 within 2 are accepted together, as their ranges meet at 3. Their
   * atoms set both sides twice, so that selecting the second as well loosens a side, here the upper one.
   */
  lemma FixingAndLockLoosen(v: VariableId, x: real, y: real, s: BackendSnapshot)
    requires x != y
    ensures
      var atoms := [Pinned(0, v, x), Pinned(1, v, y)];
      DistinctAtoms(atoms) && !Tightens(atoms, {0}, {0, 1}, s)
  {
    var atoms := [Pinned(0, v, x), Pinned(1, v, y)];
    var lower, upper := VariableLower(v), VariableUpper(v);
    FoundTwo(lower, upper, Some(Finite(x)), Some(Finite(x)));
    FoundTwo(lower, upper, Some(Finite(y)), Some(Finite(y)));
    var looser := if x < y then upper else lower;
    assert !NoLooser(looser, ValueOf(atoms[1], looser, s), ValueOf(atoms[0], looser, s));
    if Tightens(atoms, {0}, {0, 1}, s) {
      LooserOwnerBreaks(atoms, s, 0, 1, looser);
      assert false;
    }
  }

  /** Enlarging a selection only tightens bounds exactly when later owners of a side never loosen it. */
  lemma MonotoneExactlyWhenOrdered(atoms: seq<Atom>, s: BackendSnapshot)
    requires DistinctAtoms(atoms)
    ensures Monotone(atoms, s) <==> LaterIsTighter(atoms, s)
  {
    if LaterIsTighter(atoms, s) {
      forall small: set<AtomId>, large: set<AtomId> | small <= large
        ensures Tightens(atoms, small, large, s)
      {
        LaterIsTighterSuffices(atoms, s, small, large);
      }
    }
    if Monotone(atoms, s) {
      forall i, j, ref: Ref {:trigger ValueOf(atoms[i], ref, s), ValueOf(atoms[j], ref, s)}
        | 0 <= i < j < |atoms| && !ref.Entity? && ref in atoms[i].restrictions && ref in atoms[j].restrictions
        ensures NoLooser(ref, ValueOf(atoms[j], ref, s), ValueOf(atoms[i], ref, s))
      {
        LooserOwnerBreaks(atoms, s, i, j, ref);
      }
    }
  }

  // ---------------------------------------------------------------- feasibility

  ghost predicate Satisfies(x: VariableId -> real, atoms: seq<Atom>, selected: set<AtomId>, s: BackendSnapshot) {
    && (forall i :: 0 <= i < |s.rows| ==>
        Within(RowBounds(atoms, selected, s, s.rows[i].id), Activity(s.rows[i].coefficients, x)))
    && (forall i :: 0 <= i < |s.variables| ==>
        Within(ColumnBounds(atoms, selected, s, s.variables[i].id), x(s.variables[i].id)))
  }

  ghost predicate Feasible(atoms: seq<Atom>, selected: set<AtomId>, s: BackendSnapshot) {
    exists x :: Satisfies(x, atoms, selected, s)
  }

  /** Each compiled restriction is owned by one atom. */
  ghost predicate OwnedOnce(atoms: seq<Atom>) {
    forall i, j, ref: Ref :: 0 <= i < j < |atoms| && ref in atoms[i].restrictions && !ref.Entity? ==>
      ref !in atoms[j].restrictions
  }

  lemma TighterWithin(a: Bounds, b: Bounds, x: real)
    requires Tighter(a, b) && Within(a, x)
    ensures Within(b, x)
  {
  }

  /** Infeasibility is upward closed when restrictions have one owner each: what a deletion filter relies on. */
  lemma InfeasibilityIsUpwardClosed(atoms: seq<Atom>, s: BackendSnapshot, small: set<AtomId>, large: set<AtomId>)
    requires OwnedOnce(atoms) && small <= large && !Feasible(atoms, small, s)
    ensures !Feasible(atoms, large, s)
  {
    LaterIsTighterSuffices(atoms, s, small, large);
    if x :| Satisfies(x, atoms, large, s) {
      forall i | 0 <= i < |s.rows|
        ensures Within(RowBounds(atoms, small, s, s.rows[i].id), Activity(s.rows[i].coefficients, x))
      {
        TighterWithin(RowBounds(atoms, large, s, s.rows[i].id), RowBounds(atoms, small, s, s.rows[i].id),
          Activity(s.rows[i].coefficients, x));
      }
      forall i | 0 <= i < |s.variables|
        ensures Within(ColumnBounds(atoms, small, s, s.variables[i].id), x(s.variables[i].id))
      {
        TighterWithin(ColumnBounds(atoms, large, s, s.variables[i].id),
          ColumnBounds(atoms, small, s, s.variables[i].id), x(s.variables[i].id));
      }
      assert Satisfies(x, atoms, small, s);
    }
  }

  // ---------------------------------------------------------------- what a selection means

  predicate AtLeast(x: real, b: Extended) {
    match b case NegInfinity => true case Finite(l) => l <= x case PosInfinity => false
  }

  predicate AtMost(x: real, b: Extended) {
    match b case NegInfinity => false case Finite(u) => x <= u case PosInfinity => true
  }

  /** The atom at `i` is selected and owns the side, and no later selected atom does. */
  ghost predicate OwnsLast(atoms: seq<Atom>, selected: set<AtomId>, ref: Ref, i: int) {
    && 0 <= i < |atoms| && atoms[i].id in selected && ref in atoms[i].restrictions
    && forall j :: i < j < |atoms| && atoms[j].id in selected ==> ref !in atoms[j].restrictions
  }

  lemma {:induction false} EffectiveIsLast(
      atoms: seq<Atom>, selected: set<AtomId>, ref: Ref, s: BackendSnapshot, i: int)
    requires OwnsLast(atoms, selected, ref, i)
    ensures Effective(atoms, selected, ref, s) == Some(ValueOf(atoms[i], ref, s))
  {
    var k := |atoms| - 1;
    if i < k { EffectiveIsLast(atoms[..k], selected, ref, s, i); }
  }

  lemma {:induction false} LastOwner(atoms: seq<Atom>, selected: set<AtomId>, ref: Ref, s: BackendSnapshot)
    returns (i: nat)
    requires Effective(atoms, selected, ref, s).Some?
    ensures OwnsLast(atoms, selected, ref, i)
  {
    var k := |atoms| - 1;
    if atoms[k].id in selected && ref in atoms[k].restrictions {
      i := k;
    } else {
      i := LastOwner(atoms[..k], selected, ref, s);
    }
  }

  lemma SideMeans(atoms: seq<Atom>, selected: set<AtomId>, ref: Ref, s: BackendSnapshot, x: real)
    ensures AtLeast(x, OrElse(Effective(atoms, selected, ref, s), NegInfinity)) <==>
      forall i :: OwnsLast(atoms, selected, ref, i) ==> AtLeast(x, ValueOf(atoms[i], ref, s))
    ensures AtMost(x, OrElse(Effective(atoms, selected, ref, s), PosInfinity)) <==>
      forall i :: OwnsLast(atoms, selected, ref, i) ==> AtMost(x, ValueOf(atoms[i], ref, s))
  {
    hide ValueOf, AtLeast, AtMost, Effective;
    forall i | OwnsLast(atoms, selected, ref, i)
      ensures Effective(atoms, selected, ref, s) == Some(ValueOf(atoms[i], ref, s))
    {
      EffectiveIsLast(atoms, selected, ref, s, i);
    }
    if Effective(atoms, selected, ref, s).Some? {
      var i := LastOwner(atoms, selected, ref, s);
      assert OwnsLast(atoms, selected, ref, i);
    } else {
      NoSide(x);
    }
  }

  lemma NoSide(x: real)
    ensures AtLeast(x, NegInfinity) && AtMost(x, PosInfinity)
  {
  }

  lemma WithinSides(b: Bounds, x: real)
    ensures Within(b, x) <==> AtLeast(x, b.lower) && AtMost(x, b.upper)
  {
  }

  /**
   * The bounds of a selection admit a value exactly when it respects, on each side, the last selected atom that owns
   * the side; a side that no selected atom owns is open.
   */
  lemma SelectionMeans(atoms: seq<Atom>, selected: set<AtomId>, s: BackendSnapshot, r: RowId, v: VariableId, x: real)
    ensures Within(RowBounds(atoms, selected, s, r), x) <==>
      && (forall i :: OwnsLast(atoms, selected, ConstraintLower(r), i) ==>
            AtLeast(x, ValueOf(atoms[i], ConstraintLower(r), s)))
      && (forall i :: OwnsLast(atoms, selected, ConstraintUpper(r), i) ==>
            AtMost(x, ValueOf(atoms[i], ConstraintUpper(r), s)))
    ensures Within(ColumnBounds(atoms, selected, s, v), x) <==>
      && (forall i :: OwnsLast(atoms, selected, VariableLower(v), i) ==>
            AtLeast(x, ValueOf(atoms[i], VariableLower(v), s)))
      && (forall i :: OwnsLast(atoms, selected, VariableUpper(v), i) ==>
            AtMost(x, ValueOf(atoms[i], VariableUpper(v), s)))
  {
    hide ValueOf, AtLeast, AtMost, OwnsLast, Effective, Within, OrElse;
    WithinSides(RowBounds(atoms, selected, s, r), x);
    WithinSides(ColumnBounds(atoms, selected, s, v), x);
    SideMeans(atoms, selected, ConstraintLower(r), s, x);
    SideMeans(atoms, selected, ConstraintUpper(r), s, x);
    SideMeans(atoms, selected, VariableLower(v), s, x);
    SideMeans(atoms, selected, VariableUpper(v), s, x);
  }

  /** An atom that records a value for a side restricts it to that value, the first one recorded. */
  lemma {:induction false} RecordedValue(values: seq<(Ref, Option<Extended>)>, i: nat, atom: Atom, s: BackendSnapshot)
    requires i < |values| && values[i].1.Some? && forall j :: 0 <= j < i ==> values[j].0 != values[i].0
    ensures Found(values, values[i].0) == values[i].1
    ensures atom.values == values ==> ValueOf(atom, values[i].0, s) == values[i].1.value
  {
    if i != 0 { RecordedValue(values[1..], i - 1, atom, s); }
  }
}
