/**
 * Solve overlays on a held state (roml-highs/src/session.rs): what applying one op does, why the
 * native model then shows the overlaid model, and why a rollback finds everything it needs.
 */
module Overlaying {
  import opened Common
  import opened Sorting
  import opened BackendIr
  import opened Highs
  import opened IndexMaps
  import opened CompiledModels
  import opened NativeViews
  import opened Caching
  import opened Representing

  /** `HighsOverlayState`: what apply records for the rollback and its verification. */
  datatype OverlayRecord = OverlayRecord(
    overlay: OverlayId,
    base: CompilationId,
    applied: CompilationId,
    priorBounds: map<VariableId, Range>,
    priorRowBounds: map<RowId, Range>,
    addedColumns: seq<(VariableId, int)>,
    addedRows: seq<(RowId, int)>,
    priorPolicy: Policy,
    baseRowCount: int,
    baseColCount: int,
    baseVarBounds: map<VariableId, Range>,
    baseRowBounds: map<RowId, Range>,
    baseActive: Option<UserObjective>)

  /** The state the apply loop carries: the session's, the record, and the solve-scoped objectives. */
  datatype Overlaid = Overlaid(
    held: Held, record: OverlayRecord, temporaries: map<ObjectiveId, CompiledObjective>, policy: Policy)

  // ---------------------------------------------------------------- what one op does

  function EntryKey(entry: (VariableId, real)): nat { entry.0.index }

  /** A solve-scoped coefficient upsert: the old entry goes, the new one is appended, and the list is sorted by id. */
  function Upserted(entries: seq<(VariableId, real)>, v: VariableId, x: real): seq<(VariableId, real)> {
    StableSort(Dropped(entries, v) + [(v, x)], EntryKey)
  }

  function Dropped(entries: seq<(VariableId, real)>, v: VariableId): seq<(VariableId, real)> {
    if |entries| == 0 then []
    else
      var k := |entries| - 1;
      Dropped(entries[..k], v) + if entries[k].0 == v then [] else [entries[k]]
  }

  lemma ToMapSnoc(entries: seq<(VariableId, real)>, last: (VariableId, real))
    ensures ToMap(entries + [last]) == ToMap(entries)[last.0 := last.1]
  {
    assert (entries + [last])[..|entries|] == entries;
  }

  lemma {:induction false} DroppedMap(entries: seq<(VariableId, real)>, v: VariableId)
    ensures ToMap(Dropped(entries, v)) == ToMap(entries) - {v}
  {
    if |entries| == 0 {
      assert ToMap(entries) - {v} == ToMap(entries);
    } else {
      var k := |entries| - 1;
      DroppedMap(entries[..k], v);
      if entries[k].0 != v {
        ToMapSnoc(Dropped(entries[..k], v), entries[k]);
        assert (ToMap(entries[..k]) - {v})[entries[k].0 := entries[k].1] == ToMap(entries) - {v};
      } else {
        assert ToMap(entries[..k])[v := entries[k].1] - {v} == ToMap(entries[..k]) - {v};
        assert Dropped(entries, v) == Dropped(entries[..k], v);
      }
    }
  }

  /** The last entry of a variable decides. */
  lemma {:induction false} LastEntryDecides(entries: seq<(VariableId, real)>, v: VariableId)
    ensures
      var mine := WithKey(entries, EntryKey, v.index);
      && (v in ToMap(entries) <==> mine != [])
      && (mine != [] ==> ToMap(entries)[v] == mine[|mine| - 1].1)
  {
    if |entries| != 0 {
      LastEntryDecides(entries[..|entries| - 1], v);
    }
  }

  /** Sorting by id keeps the meaning of a coefficient list, repeated ids included. */
  lemma SortKeepsMap(entries: seq<(VariableId, real)>)
    ensures ToMap(StableSort(entries, EntryKey)) == ToMap(entries)
  {
    hide StableSort, ToMap, WithKey, SortedBy;
    forall v
      ensures v in ToMap(StableSort(entries, EntryKey)) <==> v in ToMap(entries)
      ensures v in ToMap(entries) ==> ToMap(StableSort(entries, EntryKey))[v] == ToMap(entries)[v]
    {
      StableSortIsStable(entries, EntryKey, v.index);
      LastEntryDecides(entries, v);
      LastEntryDecides(StableSort(entries, EntryKey), v);
    }
  }

  /** Replacing an entry of the list is an upsert of the map. */
  lemma UpsertedMap(entries: seq<(VariableId, real)>, v: VariableId, x: real)
    ensures ToMap(Upserted(entries, v, x)) == ToMap(entries)[v := x]
  {
    SortKeepsMap(Dropped(entries, v) + [(v, x)]);
    DroppedMap(entries, v);
    ToMapSnoc(Dropped(entries, v), (v, x));
    assert (ToMap(entries) - {v})[v := x] == ToMap(entries)[v := x];
  }

  predicate TemporaryFits(h: Held, o: CompiledObjective) {
    Refers(o.coefficients, h.colMap.Keys) && InRange(IndicesOf(h.colMap, o.coefficients), |h.native.cols|)
  }

  /** A solve-scoped objective on cleared costs; no persistent objective is active then. */
  function TemporaryShown(h: Held, o: CompiledObjective): Held
    requires TemporaryFits(h, o)
  {
    var costs := Scatter(Zeros(|h.native.cols|), IndicesOf(h.colMap, o.coefficients), ValuesOf(o.coefficients));
    h.(native := h.native.(costs := costs, sense := o.sense, offset := o.constant),
       caches := h.caches.(active := None))
  }

  /** Which row-bound and coefficient ops the apply loop can serve, beyond what `validate` checks. */
  predicate Served(op: OverlayOp, baseRows: set<RowId>, temporaries: set<ObjectiveId>) {
    match op
    case SetTemporaryRowBounds(r, _) => r in baseRows
    case SetTemporaryObjectiveCoefficient(o, _, _) => o in temporaries
    case _ => true
  }

  function TemporariesAfter(op: OverlayOp, temporaries: set<ObjectiveId>): set<ObjectiveId> {
    if op.AddTemporaryObjective? then temporaries + {op.newObjective.id} else temporaries
  }

  function WithColumnAdded(s: Overlaid, v: CompiledVariable, inf: real): Overlaid {
    s.(held := ColumnPlaced(s.held, v, inf),
       record := s.record.(addedColumns := s.record.addedColumns + [(v.id, |s.held.native.cols|)]))
  }

  /** New bounds; only the first prior bound of a variable is recorded. */
  function WithColumnBounds(s: Overlaid, v: VariableId, b: Bounds, inf: real): Overlaid
    requires v in s.held.colMap && v in s.held.caches.varBounds && 0 <= s.held.colMap[v] < |s.held.native.cols|
  {
    var h := s.held;
    var k, range, prior := h.colMap[v], NormalizeBounds(b, inf), h.caches.varBounds[v];
    s.(held := h.(native := h.native.(cols := h.native.cols[k := h.native.cols[k].(bounds := range)]),
                  caches := h.caches.(varBounds := h.caches.varBounds[v := range])),
       record := s.record.(priorBounds :=
         if v in s.record.priorBounds then s.record.priorBounds else s.record.priorBounds[v := prior]))
  }

  function WithRowBounds(s: Overlaid, r: RowId, b: Bounds, inf: real): Overlaid
    requires r in s.held.rowMap && r in s.held.caches.rowBounds && 0 <= s.held.rowMap[r] < |s.held.native.rows|
  {
    var h := s.held;
    var k, range, prior := h.rowMap[r], NormalizeBounds(b, inf), h.caches.rowBounds[r];
    s.(held := h.(native := h.native.(rows := h.native.rows[k := h.native.rows[k].(bounds := range)]),
                  caches := h.caches.(rowBounds := h.caches.rowBounds[r := range])),
       record := s.record.(priorRowBounds :=
         if r in s.record.priorRowBounds then s.record.priorRowBounds else s.record.priorRowBounds[r := prior]))
  }

  /** A temporary row is appended natively but gets neither an index nor a cached bound. */
  function WithRowAdded(s: Overlaid, r: CompiledRow, inf: real): Overlaid
    requires RowFits(s.held, r)
  {
    s.(held := RowPlaced(s.held, r, inf).(rowMap := s.held.rowMap, caches := s.held.caches),
       record := s.record.(addedRows := s.record.addedRows + [(r.id, |s.held.native.rows|)]))
  }

  function WithTemporary(s: Overlaid, o: CompiledObjective): Overlaid {
    s.(temporaries := s.temporaries[o.id := o])
  }

  /** A solve-scoped cost, written through when its objective is the selected one. */
  function WithTemporaryCost(s: Overlaid, o: ObjectiveId, v: VariableId, x: real): Overlaid
    requires o in s.temporaries && v in s.held.colMap
    requires s.policy == Single(o) ==> 0 <= s.held.colMap[v] < |s.held.native.costs|
  {
    var h := s.held;
    var t := s.temporaries[o].(coefficients := Upserted(s.temporaries[o].coefficients, v, x));
    s.(temporaries := s.temporaries[o := t],
       held := if s.policy == Single(o) then h.(native := h.native.(costs := h.native.costs[h.colMap[v] := x])) else h)
  }

  /** An overridden policy that selects a solve-scoped objective finds its columns. */
  predicate PolicyFits(s: Overlaid, p: Policy) {
    p.Single? && p.objective in s.temporaries ==> TemporaryFits(s.held, s.temporaries[p.objective])
  }

  ghost function WithPolicy(s: Overlaid, p: Policy): Overlaid
    requires PolicyFits(s, p)
  {
    var shown :=
      if p.Single? && p.objective in s.temporaries then TemporaryShown(s.held, s.temporaries[p.objective])
      else PolicyShown(s.held, p);
    s.(held := shown, policy := p)
  }

  /**
   * The loop state after one op without a native failure; `None` where the code stops because an entity is
   * missing or a policy cannot be shown.
   */
  ghost function OverlaidBy(s: Overlaid, op: OverlayOp, inf: real): Option<Overlaid> {
    var h := s.held;
    match op
    case AddTemporaryVariable(v) => if v.id in h.colMap then None else Some(WithColumnAdded(s, v, inf))
    case SetTemporaryVariableBounds(v, b) =>
      if v !in h.colMap || v !in h.caches.varBounds || !(0 <= h.colMap[v] < |h.native.cols|) then None
      else Some(WithColumnBounds(s, v, b, inf))
    case SetTemporaryRowBounds(r, b) =>
      if r !in h.rowMap || r !in h.caches.rowBounds || !(0 <= h.rowMap[r] < |h.native.rows|) then None
      else Some(WithRowBounds(s, r, b, inf))
    case AddTemporaryObjective(o) => if o.id in s.temporaries then None else Some(WithTemporary(s, o))
    case SetTemporaryObjectiveCoefficient(o, v, x) =>
      if v !in h.colMap || o !in s.temporaries then None
      else if s.policy == Single(o) && !(0 <= h.colMap[v] < |h.native.costs|) then None
      else Some(WithTemporaryCost(s, o, v, x))
    case AddTemporaryRow(r) => if !RowFits(h, r) then None else Some(WithRowAdded(s, r, inf))
    case RemoveTemporaryRow(_) => None
    case OverridePolicy(p) => if Representable(p) && PolicyFits(s, p) then Some(WithPolicy(s, p)) else None
  }

  /** The loop state after a whole overlay; `None` where an op stops. */
  ghost function OverlaidAll(s: Overlaid, ops: seq<OverlayOp>, inf: real): Option<Overlaid>
    decreases |ops|
  {
    if |ops| == 0 then Some(s)
    else
      var next := OverlaidBy(s, ops[0], inf);
      if next.None? then None else OverlaidAll(next.value, ops[1..], inf)
  }

  predicate OverridesPolicy(ops: seq<OverlayOp>) {
    exists i :: 0 <= i < |ops| && ops[i].OverridePolicy?
  }

  lemma SoundColumnsUnderOverlay(s: Overlaid, op: OverlayOp, inf: real)
    requires SoundColumns(s.held) && OverlaidBy(s, op, inf).Some?
    ensures SoundColumns(OverlaidBy(s, op, inf).value.held)
  {
    hide NormalizeBounds, Upserted, CostsWritten, EmptyRecord;
  }

  // ---------------------------------------------------------------- the overlaid model

  function SolveScoped(o: CompiledObjective): ObjectiveData {
    ObjectiveData(o.sense, o.constant, ToMap(o.coefficients), None)
  }

  /** The compiled model with one overlay op laid over it. Solve-scoped entities have no user handle. */
  function Laid(m: Model, op: OverlayOp): Model {
    match op
    case AddTemporaryVariable(v) =>
      m.(variables := m.variables[v.id := VariableData(v.bounds, !v.varType.Continuous?, None)])
    case AddTemporaryObjective(o) =>
      m.(objectives := m.objectives[o.id := SolveScoped(o)])
    case SetTemporaryVariableBounds(v, b) =>
      if v !in m.variables then m else m.(variables := m.variables[v := m.variables[v].(bounds := b)])
    case SetTemporaryObjectiveCoefficient(o, v, x) =>
      if o !in m.objectives then m else WithCosts(m, o, m.objectives[o].costs[v := x])
    case SetTemporaryRowBounds(r, b) =>
      if r !in m.rows then m else m.(rows := m.rows[r := m.rows[r].(bounds := b)])
    case AddTemporaryRow(r) => m.(rows := m.rows[r.id := RowData(r.bounds, ToMap(r.coefficients), None)])
    case RemoveTemporaryRow(_) => m
    case OverridePolicy(p) => m.(policy := p)
  }

  function LaidAll(m: Model, ops: seq<OverlayOp>): Model
    decreases |ops|
  {
    if |ops| == 0 then m else LaidAll(Laid(m, ops[0]), ops[1..])
  }

  /** During an overlay solve a solve-scoped objective may be the one that is shown. */
  function OverlaySurface(m: Model): Option<Surface> {
    if m.policy.Single? && m.policy.objective in m.objectives then
      var o := m.objectives[m.policy.objective];
      Some(Surface(o.costs, o.sense, o.constant))
    else None
  }

  function OverlayView(m: Model): View {
    View(m.variables, m.rows, OverlaySurface(m))
  }

  // ---------------------------------------------------------------- what a rollback can rely on

  /** `om` is `m` plus temporary entities and changed bounds, and every changed base bound is recorded. */
  ghost predicate Alters(om: Model, m: Model, rec: OverlayRecord, inf: real) {
    && (forall v :: v in m.variables ==>
          v in om.variables && om.variables[v] == m.variables[v].(bounds := om.variables[v].bounds))
    && (forall v :: v in m.variables ==>
          if v in rec.priorBounds then rec.priorBounds[v] == NormalizeBounds(m.variables[v].bounds, inf)
          else om.variables[v] == m.variables[v])
    && rec.priorBounds.Keys <= om.variables.Keys
    && (forall r :: r in m.rows ==> r in om.rows && om.rows[r] == m.rows[r].(bounds := om.rows[r].bounds))
    && (forall r :: r in m.rows ==>
          if r in rec.priorRowBounds then rec.priorRowBounds[r] == NormalizeBounds(m.rows[r].bounds, inf)
          else om.rows[r] == m.rows[r])
    && rec.priorRowBounds.Keys <= m.rows.Keys
  }

  /** Temporary columns and rows sit behind all base ones, and the record knows where. */
  ghost predicate Appended<Id(!new)>(all: seq<Id>, base: seq<Id>, added: seq<(Id, int)>) {
    && |all| == |base| + |added| && base == all[..|base|]
    && forall i :: 0 <= i < |added| ==> added[i] == (all[|base| + i], |base| + i)
  }

  /** All objectives are the base ones, unchanged, and the solve-scoped ones. */
  ghost predicate Scoped(
      temporaries: map<ObjectiveId, CompiledObjective>,
      all: map<ObjectiveId, ObjectiveData>, base: map<ObjectiveId, ObjectiveData>) {
    && (forall o :: o in base ==> o !in temporaries && o in all && all[o] == base[o])
    && (forall o :: o in temporaries ==> o in all && all[o] == SolveScoped(temporaries[o]))
    && (forall o :: o in all ==> o in base || o in temporaries)
  }

  ghost predicate Solved(s: Overlaid, om: Model, m: Model) {
    && Scoped(s.temporaries, om.objectives, m.objectives)
    && s.policy == om.policy
    && Representable(om.policy) && PolicyResolves(om.policy, om.objectives.Keys)
  }

  /** The base rows as the overlay has changed them. */
  function BaseRows(om: Model, m: Model): map<RowId, RowData> {
    map r | r in m.rows && r in om.rows :: om.rows[r]
  }

  /** Base entities keep their numbering, temporary ones follow, and only the record knows temporary rows. */
  ghost predicate Placed(s: Overlaid, m: Model, olay: Layout, lay: Layout) {
    && Numbers(s.held.rowMap, lay.rows)
    && Appended(olay.cols, lay.cols, s.record.addedColumns)
    && Appended(olay.rows, lay.rows, s.record.addedRows)
    && (forall v :: v in lay.cols <==> v in m.variables)
    && (forall r :: r in lay.rows <==> r in m.rows)
  }

  /** The caches while `om` is laid over `m`: bounds and active objective follow the overlay, the rest is the base's. */
  function OverlaidCaches(om: Model, m: Model, inf: real): Caches {
    CachesOf(m, inf).(
      varBounds := VarBoundsOf(om.variables, inf), rowBounds := RowBoundsOf(BaseRows(om, m), inf),
      active := ActiveUser(om))
  }

  ghost predicate Cached(s: Overlaid, om: Model, m: Model, inf: real) {
    s.held.caches == OverlaidCaches(om, m, inf)
  }

  ghost predicate OverlayShown(s: Overlaid, om: Model, olay: Layout, rows: map<RowId, int>, inf: real) {
    Shows(s.held.(rowMap := rows), OverlayView(om), olay, inf)
  }

  /**
   * The loop state stands for the overlaid model `om` of base model `m`: natively (temporary rows
   * are numbered by `rows` only, the session keeps no index for them), in the caches, and in the
   * record that the rollback will read.
   */
  ghost predicate Compounds(
      s: Overlaid, om: Model, m: Model, olay: Layout, lay: Layout, rows: map<RowId, int>, inf: real)
  {
    && WellFormed(m)
    && OverlayShown(s, om, olay, rows, inf)
    && Placed(s, m, olay, lay)
    && Alters(om, m, s.record, inf)
    && Solved(s, om, m)
    && Cached(s, om, m, inf)
  }

  // ---------------------------------------------------------------- every op keeps the loop state true

  function EmptyRecord(o: CompiledOverlay, h: Held, policy: Policy): OverlayRecord {
    OverlayRecord(
      o.overlay, o.base, o.compilation, map[], map[], [], [], policy,
      |h.native.rows|, |h.native.cols|, h.caches.varBounds, h.caches.rowBounds, h.caches.active)
  }

  lemma OverlayStarts(h: Held, m: Model, lay: Layout, inf: real, o: CompiledOverlay)
    requires Represents(h, m, lay, inf)
    ensures Compounds(Overlaid(h, EmptyRecord(o, h, m.policy), map[], m.policy), m, m, lay, lay, h.rowMap, inf)
  {
    var s := Overlaid(h, EmptyRecord(o, h, m.policy), map[], m.policy);
    PlacedStarts(s, m, lay, inf);
    SolvedStarts(s, m);
    CachedStarts(s, m, inf);
    ShownStarts(s, m, lay, inf);
    AltersStarts(m, s.record, inf);
    hide Placed, Solved, Cached, WellFormed, Shows, OverlayShown, Alters, EmptyRecord;
  }

  lemma ShownStarts(s: Overlaid, m: Model, lay: Layout, inf: real)
    requires Shows(s.held, ViewOf(m), lay, inf) && WellFormed(m)
    ensures OverlayShown(s, m, lay, s.held.rowMap, inf)
  {
    assert s.held.(rowMap := s.held.rowMap) == s.held;
    assert OverlayView(m) == ViewOf(m);
  }

  lemma AltersStarts(m: Model, rec: OverlayRecord, inf: real)
    requires rec.priorBounds == map[] && rec.priorRowBounds == map[]
    ensures Alters(m, m, rec, inf)
  {
  }

  lemma PlacedStarts(s: Overlaid, m: Model, lay: Layout, inf: real)
    requires Shows(s.held, ViewOf(m), lay, inf) && s.record.addedColumns == [] && s.record.addedRows == []
    ensures Placed(s, m, lay, lay)
  {
    assert lay.cols[..|lay.cols|] == lay.cols && lay.rows[..|lay.rows|] == lay.rows;
  }

  lemma SolvedStarts(s: Overlaid, m: Model)
    requires WellFormed(m) && s.temporaries == map[] && s.policy == m.policy
    ensures Solved(s, m, m)
  {
  }

  lemma CachedStarts(s: Overlaid, m: Model, inf: real)
    requires s.held.caches == CachesOf(m, inf)
    ensures Cached(s, m, m, inf)
  {
    assert BaseRows(m, m) == m.rows;
  }

  /** What one accepted op leaves true of the loop state, for some larger numbering. */
  ghost predicate Lays(
      s: Overlaid, om: Model, m: Model, olay: Layout, lay: Layout, rows: map<RowId, int>, inf: real,
      op: OverlayOp, olay': Layout, rows': map<RowId, int>)
  {
    var s' := OverlaidBy(s, op, inf);
    s'.Some? && Compounds(s'.value, Laid(om, op), m, olay', lay, rows', inf)
  }

  /** The predicates above, as seen by a lemma that treats them as units. */
  lemma CompoundsMeasures(
      s: Overlaid, om: Model, m: Model, olay: Layout, lay: Layout, rows: map<RowId, int>, inf: real)
    requires Compounds(s, om, m, olay, lay, rows, inf)
    ensures s.held.colMap.Keys == om.variables.Keys && rows.Keys == om.rows.Keys
    ensures |s.held.native.cols| == |s.held.native.costs| == |olay.cols| && |s.held.native.rows| == |olay.rows|
    ensures Numbers(s.held.colMap, olay.cols)
    ensures s.held.rowMap.Keys == m.rows.Keys
    ensures s.held.caches.varBounds == VarBoundsOf(om.variables, inf)
    ensures s.held.caches.rowBounds == RowBoundsOf(BaseRows(om, m), inf)
    ensures m.rows.Keys <= om.rows.Keys
  {
    OverlayShownMeasures(s, om, olay, rows, inf);
    PlacedMeasures(s, m, olay, lay);
    AltersMeasures(om, m, s.record, inf);
    hide OverlayShown, Placed, Alters, Solved, WellFormed;
  }

  lemma OverlayShownMeasures(s: Overlaid, om: Model, olay: Layout, rows: map<RowId, int>, inf: real)
    requires OverlayShown(s, om, olay, rows, inf)
    ensures s.held.colMap.Keys == om.variables.Keys && rows.Keys == om.rows.Keys
    ensures |s.held.native.cols| == |s.held.native.costs| == |olay.cols| && |s.held.native.rows| == |olay.rows|
    ensures Numbers(s.held.colMap, olay.cols)
  {
    ShowsIsDimensioned(s.held.(rowMap := rows), OverlayView(om), olay, inf);
  }

  lemma PlacedMeasures(s: Overlaid, m: Model, olay: Layout, lay: Layout)
    requires Placed(s, m, olay, lay)
    ensures s.held.rowMap.Keys == m.rows.Keys
  {
  }

  lemma AltersMeasures(om: Model, m: Model, rec: OverlayRecord, inf: real)
    requires Alters(om, m, rec, inf)
    ensures m.rows.Keys <= om.rows.Keys && m.variables.Keys <= om.variables.Keys
  {
  }

  lemma LayVariableShows(s: Overlaid, om: Model, olay: Layout, rows: map<RowId, int>, inf: real, v: CompiledVariable)
    requires OverlayShown(s, om, olay, rows, inf) && v.id !in om.variables
    ensures
      OverlayShown(WithColumnAdded(s, v, inf), Laid(om, AddTemporaryVariable(v)), olay.(cols := olay.cols + [v.id]),
        rows, inf)
  {
    var d, h := VariableData(v.bounds, !v.varType.Continuous?, None), s.held;
    assert OverlayView(Laid(om, AddTemporaryVariable(v))) == OverlayView(om).(variables := om.variables[v.id := d]);
    ShowsAddedColumn(h.(rowMap := rows), OverlayView(om), olay, inf, v.id, d, ColumnPlaced(h, v, inf).(rowMap := rows));
  }

  lemma PlacedAddsColumn(s: Overlaid, m: Model, olay: Layout, lay: Layout, v: CompiledVariable, inf: real)
    requires Placed(s, m, olay, lay) && |s.held.native.cols| == |olay.cols|
    ensures Placed(WithColumnAdded(s, v, inf), m, olay.(cols := olay.cols + [v.id]), lay)
  {
  }

  lemma AltersAddsVariable(om: Model, m: Model, rec: OverlayRecord, inf: real, id: VariableId, d: VariableData)
    requires Alters(om, m, rec, inf) && id !in om.variables
    ensures Alters(om.(variables := om.variables[id := d]), m, rec, inf)
  {
  }

  lemma CachedAddsVariable(s: Overlaid, om: Model, m: Model, inf: real, v: CompiledVariable)
    requires Cached(s, om, m, inf) && v.id !in om.variables
    ensures Cached(WithColumnAdded(s, v, inf), Laid(om, AddTemporaryVariable(v)), m, inf)
  {
    var after := Laid(om, AddTemporaryVariable(v));
    assert VarBoundsOf(after.variables, inf) == VarBoundsOf(om.variables, inf)[v.id := NormalizeBounds(v.bounds, inf)];
    assert BaseRows(after, m) == BaseRows(om, m);
  }

  lemma LayVariable(
      s: Overlaid, om: Model, m: Model, olay: Layout, lay: Layout, rows: map<RowId, int>, inf: real,
      v: CompiledVariable)
    requires Compounds(s, om, m, olay, lay, rows, inf) && v.id !in om.variables
    ensures Lays(s, om, m, olay, lay, rows, inf, AddTemporaryVariable(v), olay.(cols := olay.cols + [v.id]), rows)
  {
    hide OverlayShown, Placed, Alters, Cached, Solved, WellFormed, Numbers;
    CompoundsMeasures(s, om, m, olay, lay, rows, inf);
    LayVariableShows(s, om, olay, rows, inf, v);
    PlacedAddsColumn(s, m, olay, lay, v, inf);
    AltersAddsVariable(om, m, s.record, inf, v.id, VariableData(v.bounds, !v.varType.Continuous?, None));
    AltersReads(Laid(om, AddTemporaryVariable(v)), m, s.record, WithColumnAdded(s, v, inf).record, inf);
    SolvedReads(s, om, m, WithColumnAdded(s, v, inf), Laid(om, AddTemporaryVariable(v)));
    CachedAddsVariable(s, om, m, inf, v);
  }

  lemma SolvedReads(s: Overlaid, om: Model, m: Model, s': Overlaid, om': Model)
    requires Solved(s, om, m)
    requires s'.temporaries == s.temporaries && s'.policy == s.policy
    requires om'.objectives == om.objectives && om'.policy == om.policy
    ensures Solved(s', om', m)
  {
  }

  /** Only the recorded prior bounds matter to `Alters`. */
  lemma AltersReads(om: Model, m: Model, rec: OverlayRecord, rec': OverlayRecord, inf: real)
    requires rec.priorBounds == rec'.priorBounds && rec.priorRowBounds == rec'.priorRowBounds
    requires Alters(om, m, rec, inf)
    ensures Alters(om, m, rec', inf)
  {
  }

  lemma PlacedReads(s: Overlaid, m: Model, olay: Layout, lay: Layout, s': Overlaid)
    requires Placed(s, m, olay, lay) && s'.held.rowMap == s.held.rowMap
    requires s'.record.addedColumns == s.record.addedColumns && s'.record.addedRows == s.record.addedRows
    ensures Placed(s', m, olay, lay)
  {
  }

  // ---- temporary variable bounds

  lemma LayColumnBoundsShows(
      s: Overlaid, om: Model, olay: Layout, rows: map<RowId, int>, inf: real, v: VariableId, b: Bounds)
    requires OverlayShown(s, om, olay, rows, inf) && v in om.variables && v in s.held.colMap
    requires v in s.held.caches.varBounds
    requires 0 <= s.held.colMap[v] < |s.held.native.cols|
    ensures OverlayShown(WithColumnBounds(s, v, b, inf), Laid(om, SetTemporaryVariableBounds(v, b)), olay, rows, inf)
  {
    var after := Laid(om, SetTemporaryVariableBounds(v, b));
    assert OverlayView(after) == OverlayView(om).(variables := om.variables[v := om.variables[v].(bounds := b)]);
    ShowsColumnBounds(
      s.held.(rowMap := rows), OverlayView(om), olay, inf, v, b, WithColumnBounds(s, v, b, inf).held.(rowMap := rows));
  }

  lemma AltersColumnBounds(om: Model, m: Model, rec: OverlayRecord, inf: real, v: VariableId, b: Bounds)
    requires Alters(om, m, rec, inf) && v in om.variables
    ensures
      var prior := NormalizeBounds(om.variables[v].bounds, inf);
      var kept := if v in rec.priorBounds then rec.priorBounds else rec.priorBounds[v := prior];
      Alters(om.(variables := om.variables[v := om.variables[v].(bounds := b)]), m, rec.(priorBounds := kept), inf)
  {
  }

  lemma CachedColumnBounds(s: Overlaid, om: Model, m: Model, inf: real, v: VariableId, b: Bounds)
    requires Cached(s, om, m, inf) && v in om.variables && v in s.held.colMap && v in s.held.caches.varBounds
    requires 0 <= s.held.colMap[v] < |s.held.native.cols|
    ensures Cached(WithColumnBounds(s, v, b, inf), Laid(om, SetTemporaryVariableBounds(v, b)), m, inf)
  {
    var after := Laid(om, SetTemporaryVariableBounds(v, b));
    assert VarBoundsOf(after.variables, inf) == VarBoundsOf(om.variables, inf)[v := NormalizeBounds(b, inf)];
    assert BaseRows(after, m) == BaseRows(om, m);
  }

  lemma LayColumnBounds(
      s: Overlaid, om: Model, m: Model, olay: Layout, lay: Layout, rows: map<RowId, int>, inf: real, v: VariableId,
      b: Bounds)
    requires Compounds(s, om, m, olay, lay, rows, inf) && v in om.variables
    ensures Lays(s, om, m, olay, lay, rows, inf, SetTemporaryVariableBounds(v, b), olay, rows)
  {
    hide OverlayShown, Placed, Alters, Cached, Solved, WellFormed;
    CompoundsMeasures(s, om, m, olay, lay, rows, inf);
    NumbersIsBijection(s.held.colMap, olay.cols);
    var s', after := WithColumnBounds(s, v, b, inf), Laid(om, SetTemporaryVariableBounds(v, b));
    LayColumnBoundsShows(s, om, olay, rows, inf, v, b);
    PlacedReads(s, m, olay, lay, s');
    AltersColumnBounds(om, m, s.record, inf, v, b);
    SolvedReads(s, om, m, s', after);
    CachedColumnBounds(s, om, m, inf, v, b);
  }

  // ---- temporary row bounds

  lemma LayRowBoundsShows(s: Overlaid, om: Model, olay: Layout, rows: map<RowId, int>, inf: real, r: RowId, b: Bounds)
    requires OverlayShown(s, om, olay, rows, inf) && r in om.rows && r in s.held.rowMap && r in s.held.caches.rowBounds
    requires 0 <= s.held.rowMap[r] < |s.held.native.rows| && r in rows && rows[r] == s.held.rowMap[r]
    ensures OverlayShown(WithRowBounds(s, r, b, inf), Laid(om, SetTemporaryRowBounds(r, b)), olay, rows, inf)
  {
    hide Shows, NormalizeBounds;
    var after := Laid(om, SetTemporaryRowBounds(r, b));
    assert OverlayView(after) == OverlayView(om).(rows := om.rows[r := om.rows[r].(bounds := b)]);
    ShowsRowBounds(
      s.held.(rowMap := rows), OverlayView(om), olay, inf, r, b, WithRowBounds(s, r, b, inf).held.(rowMap := rows));
  }

  lemma AltersRowBounds(om: Model, m: Model, rec: OverlayRecord, inf: real, r: RowId, b: Bounds)
    requires Alters(om, m, rec, inf) && r in m.rows
    ensures r in om.rows
    ensures
      var prior := NormalizeBounds(om.rows[r].bounds, inf);
      var kept := if r in rec.priorRowBounds then rec.priorRowBounds else rec.priorRowBounds[r := prior];
      Alters(om.(rows := om.rows[r := om.rows[r].(bounds := b)]), m, rec.(priorRowBounds := kept), inf)
  {
  }

  lemma CachedRowBounds(s: Overlaid, om: Model, m: Model, inf: real, r: RowId, b: Bounds)
    requires Cached(s, om, m, inf) && r in om.rows && r in m.rows && r in s.held.rowMap && r in s.held.caches.rowBounds
    requires 0 <= s.held.rowMap[r] < |s.held.native.rows|
    ensures Cached(WithRowBounds(s, r, b, inf), Laid(om, SetTemporaryRowBounds(r, b)), m, inf)
  {
    hide VarBoundsOf, UserVarsOf, UserRowsOf, UserObjsOf, CostCachesOf, SensesOf, OffsetsOf;
    BaseRowBounds(om, m, inf, r, b);
  }

  lemma BaseRowBounds(om: Model, m: Model, inf: real, r: RowId, b: Bounds)
    requires r in om.rows && r in m.rows
    ensures
      var after := Laid(om, SetTemporaryRowBounds(r, b));
      RowBoundsOf(BaseRows(after, m), inf) == RowBoundsOf(BaseRows(om, m), inf)[r := NormalizeBounds(b, inf)]
  {
    hide NormalizeBounds;
  }

  /** A base row has the same native index in the session and in the overlaid numbering. */
  lemma BaseRowIndex(
      s: Overlaid, om: Model, m: Model, olay: Layout, lay: Layout, rows: map<RowId, int>, inf: real, r: RowId)
    requires OverlayShown(s, om, olay, rows, inf) && Placed(s, m, olay, lay) && r in m.rows
    ensures r in rows && r in s.held.rowMap && rows[r] == s.held.rowMap[r] && 0 <= rows[r] < |lay.rows| <= |olay.rows|
  {
    NumbersIsBijection(s.held.rowMap, lay.rows);
    var k := s.held.rowMap[r];
    assert olay.rows[k] == lay.rows[k] == r;
  }

  lemma LayRowBounds(
      s: Overlaid, om: Model, m: Model, olay: Layout, lay: Layout, rows: map<RowId, int>, inf: real, r: RowId,
      b: Bounds)
    requires Compounds(s, om, m, olay, lay, rows, inf) && r in m.rows
    ensures Lays(s, om, m, olay, lay, rows, inf, SetTemporaryRowBounds(r, b), olay, rows)
  {
    hide OverlayShown, Placed, Alters, Cached, Solved, WellFormed, Numbers;
    CompoundsMeasures(s, om, m, olay, lay, rows, inf);
    BaseRowIndex(s, om, m, olay, lay, rows, inf, r);
    var s', after := WithRowBounds(s, r, b, inf), Laid(om, SetTemporaryRowBounds(r, b));
    LayRowBoundsShows(s, om, olay, rows, inf, r, b);
    PlacedReads(s, m, olay, lay, s');
    AltersRowBounds(om, m, s.record, inf, r, b);
    SolvedReads(s, om, m, s', after);
    CachedRowBounds(s, om, m, inf, r, b);
  }

  // ---- temporary rows

  lemma LayRowShows(s: Overlaid, om: Model, olay: Layout, rows: map<RowId, int>, inf: real, r: CompiledRow)
    requires OverlayShown(s, om, olay, rows, inf) && r.id !in om.rows && RowFits(s.held, r)
    ensures OverlayShown(WithRowAdded(s, r, inf), Laid(om, AddTemporaryRow(r)),
      olay.(rows := olay.rows + [r.id]), rows[r.id := |s.held.native.rows|], inf)
  {
    var d, h := RowData(r.bounds, ToMap(r.coefficients), None), s.held.(rowMap := rows);
    assert OverlayView(Laid(om, AddTemporaryRow(r))) == OverlayView(om).(rows := om.rows[r.id := d]);
    ShowsAddedRow(
      h, OverlayView(om), olay, inf, r.id, d, r.coefficients,
      WithRowAdded(s, r, inf).held.(rowMap := rows[r.id := |s.held.native.rows|]));
  }

  lemma PlacedAddsRow(s: Overlaid, m: Model, olay: Layout, lay: Layout, r: CompiledRow, inf: real)
    requires Placed(s, m, olay, lay) && |s.held.native.rows| == |olay.rows| && RowFits(s.held, r)
    ensures Placed(WithRowAdded(s, r, inf), m, olay.(rows := olay.rows + [r.id]), lay)
  {
  }

  lemma AltersAddsRow(om: Model, m: Model, rec: OverlayRecord, inf: real, id: RowId, d: RowData)
    requires Alters(om, m, rec, inf) && id !in om.rows
    ensures Alters(om.(rows := om.rows[id := d]), m, rec, inf)
    ensures BaseRows(om.(rows := om.rows[id := d]), m) == BaseRows(om, m)
  {
  }

  lemma LayRow(
      s: Overlaid, om: Model, m: Model, olay: Layout, lay: Layout, rows: map<RowId, int>, inf: real, r: CompiledRow)
    requires Compounds(s, om, m, olay, lay, rows, inf) && r.id !in om.rows && Refers(r.coefficients, om.variables.Keys)
    ensures Lays(s, om, m, olay, lay, rows, inf, AddTemporaryRow(r),
      olay.(rows := olay.rows + [r.id]), rows[r.id := |s.held.native.rows|])
  {
    hide OverlayShown, Placed, Alters, Solved, WellFormed, Numbers;
    CompoundsMeasures(s, om, m, olay, lay, rows, inf);
    IndicesInRange(s.held.colMap, olay.cols, r.coefficients);
    var s', after := WithRowAdded(s, r, inf), Laid(om, AddTemporaryRow(r));
    LayRowShows(s, om, olay, rows, inf, r);
    PlacedAddsRow(s, m, olay, lay, r, inf);
    AltersAddsRow(om, m, s.record, inf, r.id, RowData(r.bounds, ToMap(r.coefficients), None));
    AltersReads(after, m, s.record, s'.record, inf);
    SolvedReads(s, om, m, s', after);
  }

  // ---- solve-scoped objectives

  lemma SolvedAddsTemporary(s: Overlaid, om: Model, m: Model, o: CompiledObjective)
    requires Solved(s, om, m) && o.id !in om.objectives
    ensures Solved(WithTemporary(s, o), Laid(om, AddTemporaryObjective(o)), m)
  {
  }

  lemma SolvedMeasures(s: Overlaid, om: Model, m: Model)
    requires Solved(s, om, m)
    ensures s.policy == om.policy && PolicyResolves(om.policy, om.objectives.Keys) && Representable(om.policy)
    ensures s.temporaries.Keys <= om.objectives.Keys && s.temporaries.Keys !! m.objectives.Keys
    ensures om.objectives.Keys == m.objectives.Keys + s.temporaries.Keys
  {
  }

  /** Objectives matter to the caches only through the active handle. */
  lemma CachedIgnoresObjectives(s: Overlaid, om: Model, m: Model, inf: real, s': Overlaid, om': Model)
    requires Cached(s, om, m, inf) && om'.variables == om.variables && om'.rows == om.rows
    requires s'.held.caches == s.held.caches.(active := ActiveUser(om'))
    ensures Cached(s', om', m, inf)
  {
  }

  lemma CachedMeasures(s: Overlaid, om: Model, m: Model, inf: real)
    requires Cached(s, om, m, inf)
    ensures s.held.caches.active == ActiveUser(om)
  {
  }

  lemma OverlayShownReads(
      s: Overlaid, om: Model, olay: Layout, rows: map<RowId, int>, inf: real, s': Overlaid, om': Model)
    requires OverlayShown(s, om, olay, rows, inf) && s'.held == s.held && OverlayView(om') == OverlayView(om)
    ensures OverlayShown(s', om', olay, rows, inf)
  {
  }

  lemma LayObjective(
      s: Overlaid, om: Model, m: Model, olay: Layout, lay: Layout, rows: map<RowId, int>, inf: real,
      o: CompiledObjective)
    requires Compounds(s, om, m, olay, lay, rows, inf) && o.id !in om.objectives
    ensures Lays(s, om, m, olay, lay, rows, inf, AddTemporaryObjective(o), olay, rows)
  {
    hide OverlayShown, Placed, Alters, Cached, Solved, WellFormed;
    var s', after := WithTemporary(s, o), Laid(om, AddTemporaryObjective(o));
    SolvedAddsTemporary(s, om, m, o);
    SolvedMeasures(s, om, m);
    CachedMeasures(s, om, m, inf);
    OverlayShownReads(s, om, olay, rows, inf, s', after);
    PlacedReads(s, m, olay, lay, s');
    AltersIgnoresObjectives(om, m, s.record, inf, after);
    CachedIgnoresObjectives(s, om, m, inf, s', after);
  }

  lemma AltersIgnoresObjectives(om: Model, m: Model, rec: OverlayRecord, inf: real, om': Model)
    requires Alters(om, m, rec, inf) && om'.variables == om.variables && om'.rows == om.rows
    ensures Alters(om', m, rec, inf) && BaseRows(om', m) == BaseRows(om, m)
  {
  }

  lemma ScopedChanges(
      temporaries: map<ObjectiveId, CompiledObjective>,
      all: map<ObjectiveId, ObjectiveData>, base: map<ObjectiveId, ObjectiveData>, o: ObjectiveId, t: CompiledObjective)
    requires Scoped(temporaries, all, base) && o in temporaries
    ensures o in all && o !in base && all[o] == SolveScoped(temporaries[o])
    ensures Scoped(temporaries[o := t], all[o := SolveScoped(t)], base)
  {
  }

  lemma SolvedChangesCost(s: Overlaid, om: Model, m: Model, o: ObjectiveId, v: VariableId, x: real)
    requires Solved(s, om, m) && o in s.temporaries && v in s.held.colMap
    requires 0 <= s.held.colMap[v] < |s.held.native.costs|
    ensures o in om.objectives && o !in m.objectives && om.objectives[o].user.None?
    ensures Solved(WithTemporaryCost(s, o, v, x), Laid(om, SetTemporaryObjectiveCoefficient(o, v, x)), m)
  {
    hide ToMap, Upserted, StableSort, Representable, PolicyResolves, Scoped;
    var s', after := WithTemporaryCost(s, o, v, x), Laid(om, SetTemporaryObjectiveCoefficient(o, v, x));
    ScopedChanges(s.temporaries, om.objectives, m.objectives, o, s'.temporaries[o]);
    assert after.objectives == om.objectives[o := SolveScoped(s'.temporaries[o])] by {
      UpsertedMap(s.temporaries[o].coefficients, v, x);
    }
    assert after.objectives.Keys == om.objectives.Keys;
  }

  lemma LayCostShows(
      s: Overlaid, om: Model, olay: Layout, rows: map<RowId, int>, inf: real, o: ObjectiveId, v: VariableId, x: real)
    requires OverlayShown(s, om, olay, rows, inf) && o in om.objectives && v in om.variables && s.policy == om.policy
    requires o in s.temporaries && v in s.held.colMap && 0 <= s.held.colMap[v] < |s.held.native.costs|
    ensures OverlayShown(
      WithTemporaryCost(s, o, v, x), Laid(om, SetTemporaryObjectiveCoefficient(o, v, x)), olay, rows, inf)
  {
    hide Upserted;
    if om.policy == Single(o) {
      ShownCostShows(s, om, olay, rows, inf, o, v, x);
    } else {
      assert OverlayView(Laid(om, SetTemporaryObjectiveCoefficient(o, v, x))) == OverlayView(om);
    }
  }

  lemma ShownCostShows(
      s: Overlaid, om: Model, olay: Layout, rows: map<RowId, int>, inf: real, o: ObjectiveId, v: VariableId, x: real)
    requires OverlayShown(s, om, olay, rows, inf) && o in om.objectives && v in om.variables && s.policy == om.policy
    requires o in s.temporaries && v in s.held.colMap && 0 <= s.held.colMap[v] < |s.held.native.costs|
    requires om.policy == Single(o)
    ensures OverlayShown(
      WithTemporaryCost(s, o, v, x), Laid(om, SetTemporaryObjectiveCoefficient(o, v, x)), olay, rows, inf)
  {
    hide Upserted, Shows, Numbers, CellsOf;
    var after := Laid(om, SetTemporaryObjectiveCoefficient(o, v, x));
    var h, h' := s.held.(rowMap := rows), WithTemporaryCost(s, o, v, x).held.(rowMap := rows);
    SurfaceIsShown(h, OverlayView(om), olay, inf);
    CellsUpsert(om.objectives[o].costs, olay.cols, h.colMap, v, x);
    assert OverlaySurface(after).value.costs == om.objectives[o].costs[v := x];
    SurfaceChanges(h, OverlayView(om), olay, inf, OverlaySurface(after), h');
    assert OverlayView(after) == OverlayView(om).(surface := OverlaySurface(after));
  }

  lemma SurfaceChanges(h: Held, v: View, lay: Layout, inf: real, s: Option<Surface>, h': Held)
    requires Shows(h, v, lay, inf) && s.Some? && s.value.costs.Keys <= v.variables.Keys
    requires h' == h.(native := h.native.(
      costs := CellsOf(s.value.costs, lay.cols), sense := s.value.sense, offset := s.value.offset))
    ensures Shows(h', v.(surface := s), lay, inf)
  {
    ShowsSurface(h, v, lay, inf, s, h');
  }

  lemma SurfaceIsShown(h: Held, v: View, lay: Layout, inf: real)
    requires Shows(h, v, lay, inf)
    ensures Numbers(h.colMap, lay.cols) && Closed(v)
    ensures v.surface.Some? ==>
      && h.native.costs == CellsOf(v.surface.value.costs, lay.cols)
      && h.native.sense == v.surface.value.sense && h.native.offset == v.surface.value.offset
  {
  }

  lemma IndexOf<Id(!new)>(at: map<Id, int>, order: seq<Id>, x: Id)
    requires Numbers(at, order) && x in at
    ensures 0 <= at[x] < |order|
  {
    NumbersIsBijection(at, order);
  }

  /** A solve-scoped cost touches neither entities nor the record, and no cache. */
  lemma CostChangesLittle(s: Overlaid, om: Model, o: ObjectiveId, v: VariableId, x: real)
    requires o in s.temporaries && o in om.objectives
    requires v in s.held.colMap && 0 <= s.held.colMap[v] < |s.held.native.costs|
    requires s.held.caches.active == ActiveUser(om) && om.objectives[o].user.None?
    ensures
      var s', after := WithTemporaryCost(s, o, v, x), Laid(om, SetTemporaryObjectiveCoefficient(o, v, x));
      && s'.record == s.record && s'.held.caches == s.held.caches && s'.held.rowMap == s.held.rowMap
      && after.variables == om.variables && after.rows == om.rows && ActiveUser(after) == ActiveUser(om)
  {
    hide Upserted;
  }

  lemma LayCost(
      s: Overlaid, om: Model, m: Model, olay: Layout, lay: Layout, rows: map<RowId, int>, inf: real,
      o: ObjectiveId, v: VariableId, x: real)
    requires Compounds(s, om, m, olay, lay, rows, inf) && o in s.temporaries && v in om.variables
    ensures Lays(s, om, m, olay, lay, rows, inf, SetTemporaryObjectiveCoefficient(o, v, x), olay, rows)
  {
    hide OverlayShown, Placed, Alters, Cached, Solved, WellFormed, CachesOf, VarBoundsOf, RowBoundsOf, BaseRows,
      Numbers, WithTemporaryCost, Laid;
    CompoundsMeasures(s, om, m, olay, lay, rows, inf);
    IndexOf(s.held.colMap, olay.cols, v);
    var s', after := WithTemporaryCost(s, o, v, x), Laid(om, SetTemporaryObjectiveCoefficient(o, v, x));
    SolvedMeasures(s, om, m);
    SolvedChangesCost(s, om, m, o, v, x);
    CachedMeasures(s, om, m, inf);
    CostChangesLittle(s, om, o, v, x);
    LayCostShows(s, om, olay, rows, inf, o, v, x);
    PlacedReads(s, m, olay, lay, s');
    AltersIgnoresObjectives(om, m, s.record, inf, after);
    CachedIgnoresObjectives(s, om, m, inf, s', after);
  }

  // ---- objective policy overrides

  lemma LayPolicyShows(
      s: Overlaid, om: Model, m: Model, olay: Layout, rows: map<RowId, int>, inf: real, p: Policy)
    requires OverlayShown(s, om, olay, rows, inf) && Solved(s, om, m) && Cached(s, om, m, inf)
    requires ObjectivesAreUsers(m)
    requires Representable(p) && PolicyResolves(p, om.objectives.Keys)
    requires p.Single? ==> om.objectives[p.objective].costs.Keys <= om.variables.Keys
    requires PolicyFits(s, p)
    ensures OverlayShown(WithPolicy(s, p), om.(policy := p), olay, rows, inf)
    ensures WithPolicy(s, p).held.caches == s.held.caches.(active := ActiveUser(om.(policy := p)))
  {
    var after := om.(policy := p);
    var h, h' := s.held.(rowMap := rows), WithPolicy(s, p).held.(rowMap := rows);
    NoCosts(olay.cols);
    if p.Single? {
      if p.objective in s.temporaries {
        ScatterIsCells(s.temporaries[p.objective].coefficients, olay.cols, h.colMap);
      } else if p.objective in s.held.caches.userObjs {
        PolicyShowsCells(s.held, p.objective, olay.cols);
      }
    }
    ShowsSurface(h, OverlayView(om), olay, inf, OverlaySurface(after), h');
    assert OverlayView(after) == OverlayView(om).(surface := OverlaySurface(after));
  }

  lemma SolvedChangesPolicy(s: Overlaid, om: Model, m: Model, p: Policy)
    requires PolicyFits(s, p)
    requires Solved(s, om, m) && Representable(p) && PolicyResolves(p, om.objectives.Keys)
    ensures Solved(WithPolicy(s, p), om.(policy := p), m)
  {
  }

  lemma ClosedSurfaces(om: Model, p: Policy)
    requires ReferencesResolve(om) && p.Single? && p.objective in om.objectives
    ensures om.objectives[p.objective].costs.Keys <= om.variables.Keys
  {
  }

  lemma LayPolicy(
      s: Overlaid, om: Model, m: Model, olay: Layout, lay: Layout, rows: map<RowId, int>, inf: real, p: Policy)
    requires Compounds(s, om, m, olay, lay, rows, inf) && ReferencesResolve(om)
    requires Representable(p) && PolicyResolves(p, om.objectives.Keys) && PolicyFits(s, p)
    ensures WithPolicy(s, p).held.colMap == s.held.colMap
    ensures Compounds(WithPolicy(s, p), om.(policy := p), m, olay, lay, rows, inf)
  {
    hide OverlayShown, Placed, Alters, Cached, Solved, ReferencesResolve;
    var s', after := WithPolicy(s, p), om.(policy := p);
    if p.Single? { ClosedSurfaces(om, p); }
    SolvedChangesPolicy(s, om, m, p);
    LayPolicyShows(s, om, m, olay, rows, inf, p);
    PlacedReads(s, m, olay, lay, s');
    AltersIgnoresObjectives(om, m, s.record, inf, after);
    CachedIgnoresObjectives(s, om, m, inf, s', after);
  }

  // ---------------------------------------------------------------- whole overlays

  ghost function OverlayLayout(olay: Layout, op: OverlayOp): Layout {
    match op
    case AddTemporaryVariable(v) => olay.(cols := olay.cols + [v.id])
    case AddTemporaryRow(r) => olay.(rows := olay.rows + [r.id])
    case _ => olay
  }

  ghost function OverlayRows(s: Overlaid, rows: map<RowId, int>, op: OverlayOp): map<RowId, int> {
    if op.AddTemporaryRow? then rows[op.row.id := |s.held.native.rows|] else rows
  }

  lemma {:induction false} MapRefers(entries: seq<(VariableId, real)>, present: set<VariableId>)
    requires ToMap(entries).Keys <= present
    ensures Refers(entries, present)
  {
    if |entries| != 0 {
      var k := |entries| - 1;
      assert forall v :: v in ToMap(entries[..k]) ==> v in ToMap(entries);
      MapRefers(entries[..k], present);
      assert entries[k].0 in ToMap(entries);
      assert forall i :: 0 <= i < k ==> entries[i] == entries[..k][i];
    }
  }

  lemma TemporariesRefer(s: Overlaid, om: Model, m: Model, o: ObjectiveId)
    requires Solved(s, om, m) && ReferencesResolve(om) && o in s.temporaries
    ensures Refers(s.temporaries[o].coefficients, om.variables.Keys)
  {
    assert om.objectives[o] == SolveScoped(s.temporaries[o]);
    MapRefers(s.temporaries[o].coefficients, om.variables.Keys);
  }

  predicate OverlayRepresentable(op: OverlayOp) {
    op.OverridePolicy? ==> Representable(op.policy)
  }

  /** An op that passes the preflight check keeps references and the registry in step. */
  lemma LaidKeepsReferences(om: Model, op: OverlayOp, overlay: OverlayId, origins: Origins)
    requires ReferencesResolve(om) && OverlayOpValid(op, RegistryOf(om), overlay, origins)
    ensures ReferencesResolve(Laid(om, op))
  {
    match op {
      case AddTemporaryRow(r) => ToMapRefers(r.coefficients, om.variables.Keys);
      case AddTemporaryObjective(o) => ToMapRefers(o.coefficients, om.variables.Keys);
      case _ =>
    }
  }

  lemma LaidRegisters(om: Model, op: OverlayOp, overlay: OverlayId, origins: Origins)
    requires OverlayOpValid(op, RegistryOf(om), overlay, origins)
    ensures RegistryOf(Laid(om, op)) == OverlayRegistered(op, RegistryOf(om))
  {
    var left, right := RegistryOf(Laid(om, op)), OverlayRegistered(op, RegistryOf(om));
    assert left.variables == right.variables && left.rows == right.rows && left.objectives == right.objectives;
  }

  /** One preflighted op that the loop can serve takes the loop state to the next overlaid model. */
  lemma OverlayOpLays(
      s: Overlaid, om: Model, m: Model, olay: Layout, lay: Layout, rows: map<RowId, int>, inf: real,
      op: OverlayOp, overlay: OverlayId, origins: Origins)
    requires Compounds(s, om, m, olay, lay, rows, inf) && ReferencesResolve(om)
    requires OverlayOpValid(op, RegistryOf(om), overlay, origins) && OverlayRepresentable(op)
    requires Served(op, m.rows.Keys, s.temporaries.Keys)
    ensures Lays(s, om, m, olay, lay, rows, inf, op, OverlayLayout(olay, op), OverlayRows(s, rows, op))
  {
    hide Compounds, ReferencesResolve;
    match op {
      case AddTemporaryVariable(v) => LayVariable(s, om, m, olay, lay, rows, inf, v);
      case SetTemporaryVariableBounds(v, b) => LayColumnBounds(s, om, m, olay, lay, rows, inf, v, b);
      case SetTemporaryRowBounds(r, b) => LayRowBounds(s, om, m, olay, lay, rows, inf, r, b);
      case AddTemporaryObjective(o) => LayObjective(s, om, m, olay, lay, rows, inf, o);
      case SetTemporaryObjectiveCoefficient(o, v, x) => LayCost(s, om, m, olay, lay, rows, inf, o, v, x);
      case AddTemporaryRow(r) => LayRow(s, om, m, olay, lay, rows, inf, r);
      case OverridePolicy(p) => LayPolicyStep(s, om, m, olay, lay, rows, inf, p);
      case RemoveTemporaryRow(_) =>
    }
  }

  lemma LayPolicyStep(
      s: Overlaid, om: Model, m: Model, olay: Layout, lay: Layout, rows: map<RowId, int>, inf: real, p: Policy)
    requires Compounds(s, om, m, olay, lay, rows, inf) && ReferencesResolve(om)
    requires Representable(p) && PolicyResolves(p, om.objectives.Keys)
    ensures Lays(s, om, m, olay, lay, rows, inf, OverridePolicy(p), olay, rows)
  {
    hide OverlayShown, Placed, Alters, Cached, Solved, ReferencesResolve, WellFormed, Numbers;
    CompoundsMeasures(s, om, m, olay, lay, rows, inf);
    if p.Single? && p.objective in s.temporaries {
      TemporariesRefer(s, om, m, p.objective);
      IndicesInRange(s.held.colMap, olay.cols, s.temporaries[p.objective].coefficients);
    }
    LayPolicy(s, om, m, olay, lay, rows, inf, p);
  }

  /** An unserved op finds nothing to change. */
  lemma UnservedIsMissing(
      s: Overlaid, om: Model, m: Model, olay: Layout, lay: Layout, rows: map<RowId, int>, inf: real, op: OverlayOp)
    requires Compounds(s, om, m, olay, lay, rows, inf) && !Served(op, m.rows.Keys, s.temporaries.Keys)
    ensures OverlaidBy(s, op, inf) == None
  {
    CompoundsMeasures(s, om, m, olay, lay, rows, inf);
  }

  // ---------------------------------------------------------------- the native sense

  /** The native sense after one overlay op: only showing an objective changes it. */
  function SenseShown(op: OverlayOp, om: Model, sense: Sense): Sense {
    if op.OverridePolicy? && op.policy.Single? && op.policy.objective in om.objectives
    then om.objectives[op.policy.objective].sense else sense
  }

  /** The sense of the last objective that a whole overlay shows, if it shows any. */
  function SensesShown(ops: seq<OverlayOp>, om: Model, sense: Sense): Sense
    decreases |ops|
  {
    if |ops| == 0 then sense else SensesShown(ops[1..], Laid(om, ops[0]), SenseShown(ops[0], om, sense))
  }

  lemma OpShowsSense(
      s: Overlaid, om: Model, m: Model, olay: Layout, lay: Layout, rows: map<RowId, int>, inf: real, op: OverlayOp)
    requires Compounds(s, om, m, olay, lay, rows, inf) && OverlaidBy(s, op, inf).Some?
    requires op.OverridePolicy? ==> PolicyResolves(op.policy, om.objectives.Keys)
    ensures OverlaidBy(s, op, inf).value.held.native.sense == SenseShown(op, om, s.held.native.sense)
  {
    hide OverlayShown, Placed, Alters, Solved, Cached, WellFormed, CellsOf, Upserted;
    if op.OverridePolicy? && op.policy.Single? { ShownObjective(s, om, m, inf, op.policy.objective); }
  }

  /** What the loop finds about an objective it shows, temporary or not. */
  lemma ShownObjective(s: Overlaid, om: Model, m: Model, inf: real, o: ObjectiveId)
    requires WellFormed(m) && Solved(s, om, m) && Cached(s, om, m, inf) && o in om.objectives
    ensures o in s.temporaries ==> s.temporaries[o].sense == om.objectives[o].sense
    ensures o !in s.temporaries ==>
      && o in s.held.caches.userObjs && o in s.held.caches.senses
      && s.held.caches.senses[o] == om.objectives[o].sense
  {
    hide VarBoundsOf, RowBoundsOf, BaseRows, ReferencesResolve;
    if o !in s.temporaries {
      assert o in m.objectives && m.objectives[o].user.Some?;
    }
  }

  /** Whatever sense an idle native model has, an override leaves that of the objective it shows. */
  lemma ShownSenseStays(om: Model, o: ObjectiveId, idle: Sense)
    requires o in om.objectives
    ensures SensesShown([OverridePolicy(Single(o))], om, idle) == om.objectives[o].sense
  {
    var ops := [OverridePolicy(Single(o))];
    assert ops[1..] == [];
    assert SensesShown(ops[1..], Laid(om, ops[0]), om.objectives[o].sense) == om.objectives[o].sense;
  }

  // ---------------------------------------------------------------- rolling back

  function AsBounds(r: Range): Bounds {
    Bounds(Finite(r.lo), Finite(r.hi))
  }

  /** The model while prior bounds are being put back: all but `vars` and `rws` are restored. */
  ghost predicate Restoring(
      om: Model, m: Model, now: Model, rec: OverlayRecord, vars: set<VariableId>, rws: set<RowId>, inf: real)
  {
    && now.objectives == om.objectives && now.policy == om.policy
    && now.variables.Keys == om.variables.Keys && now.rows.Keys == om.rows.Keys
    && m.variables.Keys <= om.variables.Keys && m.rows.Keys <= om.rows.Keys
    && rec.priorBounds.Keys <= om.variables.Keys && rec.priorRowBounds.Keys <= m.rows.Keys
    && vars <= rec.priorBounds.Keys && rws <= rec.priorRowBounds.Keys
    && (forall v :: v in m.variables ==> now.variables[v] == m.variables[v].(bounds := now.variables[v].bounds))
    && (forall v :: v in m.variables && v !in vars ==> now.variables[v] == m.variables[v])
    && (forall v :: v in m.variables && v in rec.priorBounds ==>
          rec.priorBounds[v] == NormalizeBounds(m.variables[v].bounds, inf))
    && (forall r :: r in m.rows ==> now.rows[r] == m.rows[r].(bounds := now.rows[r].bounds))
    && (forall r :: r in m.rows && r !in rws ==> now.rows[r] == m.rows[r])
    && (forall r :: r in rec.priorRowBounds ==> rec.priorRowBounds[r] == NormalizeBounds(m.rows[r].bounds, inf))
  }

  lemma RestoringStarts(om: Model, m: Model, rec: OverlayRecord, inf: real)
    requires Alters(om, m, rec, inf)
    ensures Restoring(om, m, om, rec, rec.priorBounds.Keys, rec.priorRowBounds.Keys, inf)
  {
  }

  /** The bounds that a recorded range stands for. */
  function PriorVariable(m: Model, rec: OverlayRecord, v: VariableId): Bounds
    requires v in rec.priorBounds
  {
    if v in m.variables then m.variables[v].bounds else AsBounds(rec.priorBounds[v])
  }

  lemma RestoringVariable(
      om: Model, m: Model, now: Model, rec: OverlayRecord, vars: set<VariableId>, rws: set<RowId>, inf: real,
      v: VariableId)
    requires Restoring(om, m, now, rec, vars, rws, inf) && v in vars
    ensures v in now.variables && NormalizeBounds(PriorVariable(m, rec, v), inf) == rec.priorBounds[v]
    ensures
      Restoring(om, m, Laid(now, SetTemporaryVariableBounds(v, PriorVariable(m, rec, v))), rec, vars - {v}, rws, inf)
  {
  }

  lemma RestoringRow(
      om: Model, m: Model, now: Model, rec: OverlayRecord, vars: set<VariableId>, rws: set<RowId>, inf: real, r: RowId)
    requires Restoring(om, m, now, rec, vars, rws, inf) && r in rws
    ensures r in now.rows && r in m.rows && NormalizeBounds(m.rows[r].bounds, inf) == rec.priorRowBounds[r]
    ensures Restoring(om, m, Laid(now, SetTemporaryRowBounds(r, m.rows[r].bounds)), rec, vars, rws - {r}, inf)
  {
  }

  /** The held state while a rollback puts bounds back; `now` is the model it shows. */
  ghost predicate RollingBack(
      s: Overlaid, now: Model, om: Model, m: Model, olay: Layout, lay: Layout, rows: map<RowId, int>,
      vars: set<VariableId>, rws: set<RowId>, inf: real)
  {
    && WellFormed(m)
    && OverlayShown(s, now, olay, rows, inf)
    && Placed(s, m, olay, lay)
    && Restoring(om, m, now, s.record, vars, rws, inf)
    && Cached(s, now, m, inf)
  }

  lemma RollbackStarts(
      s: Overlaid, om: Model, m: Model, olay: Layout, lay: Layout, rows: map<RowId, int>, inf: real)
    requires Compounds(s, om, m, olay, lay, rows, inf)
    ensures RollingBack(s, om, om, m, olay, lay, rows, s.record.priorBounds.Keys, s.record.priorRowBounds.Keys, inf)
  {
    hide OverlayShown, Placed, Alters, Cached, Solved, Restoring, WellFormed;
    RestoringStarts(om, m, s.record, inf);
  }

  /** Lookups of the rollback code agree with the model shown. */
  lemma RollbackMeasures(
      s: Overlaid, now: Model, om: Model, m: Model, olay: Layout, lay: Layout, rows: map<RowId, int>,
      vars: set<VariableId>, rws: set<RowId>, inf: real)
    requires RollingBack(s, now, om, m, olay, lay, rows, vars, rws, inf)
    ensures s.held.colMap.Keys == now.variables.Keys && Numbers(s.held.colMap, olay.cols)
    ensures |s.held.native.cols| == |s.held.native.costs| == |olay.cols| && |s.held.native.rows| == |olay.rows|
    ensures s.held.rowMap.Keys == m.rows.Keys && m.rows.Keys <= now.rows.Keys
    ensures s.held.caches.varBounds.Keys == now.variables.Keys && s.held.caches.rowBounds.Keys == m.rows.Keys
    ensures vars <= now.variables.Keys && rws <= m.rows.Keys
    ensures vars <= s.record.priorBounds.Keys && rws <= s.record.priorRowBounds.Keys
  {
    hide OverlayShown, Placed, WellFormed, Numbers, Cached, Restoring;
    OverlayShownMeasures(s, now, olay, rows, inf);
    PlacedMeasures(s, m, olay, lay);
    RestoringMeasures(om, m, now, s.record, vars, rws, inf);
    CachedKeys(s, now, m, inf);
  }

  lemma RestoringMeasures(
      om: Model, m: Model, now: Model, rec: OverlayRecord, vars: set<VariableId>, rws: set<RowId>, inf: real)
    requires Restoring(om, m, now, rec, vars, rws, inf)
    ensures m.rows.Keys <= now.rows.Keys && vars <= now.variables.Keys && rws <= m.rows.Keys
    ensures vars <= rec.priorBounds.Keys && rws <= rec.priorRowBounds.Keys
  {
  }

  lemma CachedKeys(s: Overlaid, om: Model, m: Model, inf: real)
    requires Cached(s, om, m, inf) && m.rows.Keys <= om.rows.Keys
    ensures s.held.caches.varBounds.Keys == om.variables.Keys && s.held.caches.rowBounds.Keys == m.rows.Keys
  {
    assert BaseRows(om, m).Keys == m.rows.Keys;
  }

  lemma RollbackVariable(
      s: Overlaid, now: Model, om: Model, m: Model, olay: Layout, lay: Layout, rows: map<RowId, int>,
      vars: set<VariableId>, rws: set<RowId>, inf: real, v: VariableId)
    requires RollingBack(s, now, om, m, olay, lay, rows, vars, rws, inf) && v in vars
    ensures v in s.record.priorBounds && v in s.held.colMap && 0 <= s.held.colMap[v] < |s.held.native.cols|
    ensures
      var k, range, h := s.held.colMap[v], s.record.priorBounds[v], s.held;
      var h' := h.(native := h.native.(cols := h.native.cols[k := h.native.cols[k].(bounds := range)]),
                   caches := h.caches.(varBounds := h.caches.varBounds[v := range]));
      RollingBack(s.(held := h'), Laid(now, SetTemporaryVariableBounds(v, PriorVariable(m, s.record, v))),
        om, m, olay, lay, rows, vars - {v}, rws, inf)
  {
    hide OverlayShown, Placed, Cached, Restoring, WellFormed;
    RollbackMeasures(s, now, om, m, olay, lay, rows, vars, rws, inf);
    NumbersIsBijection(s.held.colMap, olay.cols);
    hide Numbers;
    var b := PriorVariable(m, s.record, v);
    RestoringVariable(om, m, now, s.record, vars, rws, inf, v);
    LayColumnBoundsShows(s, now, olay, rows, inf, v, b);
    PlacedReads(s, m, olay, lay, WithColumnBounds(s, v, b, inf));
    CachedColumnBounds(s, now, m, inf, v, b);
  }

  lemma RollbackRow(
      s: Overlaid, now: Model, om: Model, m: Model, olay: Layout, lay: Layout, rows: map<RowId, int>,
      vars: set<VariableId>, rws: set<RowId>, inf: real, r: RowId)
    requires RollingBack(s, now, om, m, olay, lay, rows, vars, rws, inf) && r in rws
    ensures r in s.record.priorRowBounds && r in s.held.rowMap && 0 <= s.held.rowMap[r] < |s.held.native.rows|
    ensures r in m.rows
    ensures
      var k, range, h := s.held.rowMap[r], s.record.priorRowBounds[r], s.held;
      var h' := h.(native := h.native.(rows := h.native.rows[k := h.native.rows[k].(bounds := range)]),
                   caches := h.caches.(rowBounds := h.caches.rowBounds[r := range]));
      RollingBack(s.(held := h'), Laid(now, SetTemporaryRowBounds(r, m.rows[r].bounds)),
        om, m, olay, lay, rows, vars, rws - {r}, inf)
  {
    hide OverlayShown, Placed, Cached, Restoring, WellFormed, Numbers;
    RollbackMeasures(s, now, om, m, olay, lay, rows, vars, rws, inf);
    BaseRowIndex(s, now, m, olay, lay, rows, inf, r);
    RestoringRow(om, m, now, s.record, vars, rws, inf, r);
    LayRowBoundsShows(s, now, olay, rows, inf, r, m.rows[r].bounds);
    PlacedReads(s, m, olay, lay, WithRowBounds(s, r, m.rows[r].bounds, inf));
    CachedRowBounds(s, now, m, inf, r, m.rows[r].bounds);
  }

  // ---- deleting what was appended

  /** The recorded native indices are exactly the tail behind the base. */
  function NativeIndices<Id>(added: seq<(Id, int)>): (r: seq<int>)
    ensures |r| == |added| && forall i :: 0 <= i < |added| ==> r[i] == added[i].1
  {
    seq(|added|, i requires 0 <= i < |added| => added[i].1)
  }

  function AddedIds<Id>(added: seq<(Id, int)>): set<Id> {
    set i | 0 <= i < |added| :: added[i].0
  }

  lemma AppendedIndices<Id(!new)>(all: seq<Id>, base: seq<Id>, added: seq<(Id, int)>)
    requires Appended(all, base, added)
    ensures InRange(NativeIndices(added), |all|)
    ensures forall i :: 0 <= i < |all| ==> (i in IndexSet(NativeIndices(added)) <==> |base| <= i)
  {
    var idx := NativeIndices(added);
    forall i | |base| <= i < |all|
      ensures i in IndexSet(idx)
    {
      assert idx[i - |base|] == i;
    }
  }

  lemma AppendedIds<Id(!new)>(all: seq<Id>, base: seq<Id>, added: seq<(Id, int)>)
    requires Appended(all, base, added) && Distinct(all)
    ensures forall x :: x in AddedIds(added) <==> x in all && x !in base
  {
    assert forall i :: 0 <= i < |base| ==> all[i] in base by {
      assert forall i :: 0 <= i < |base| ==> all[i] == base[i];
    }
    forall x | x in all && x !in base
      ensures x in AddedIds(added)
    {
      var i :| 0 <= i < |all| && all[i] == x;
      assert added[i - |base|].0 == x;
    }
    forall x | x in AddedIds(added)
      ensures x in all && x !in base
    {
      var i :| 0 <= i < |added| && added[i].0 == x;
      assert all[|base| + i] == x;
      assert forall j :: 0 <= j < |base| ==> base[j] == all[j] != x;
    }
  }

  lemma CellsPrefix(c: map<VariableId, real>, all: seq<VariableId>, base: seq<VariableId>, drop: set<int>)
    requires |base| <= |all| && base == all[..|base|]
    requires forall i :: 0 <= i < |all| ==> (i in drop <==> |base| <= i)
    ensures WithoutPositions(CellsOf(c, all), drop) == CellsOf(c, base)
  {
    WithoutTail(CellsOf(c, all), |base|, drop);
  }

  lemma RowsPrefix(v: View, olay: Layout, lay: Layout, base: map<RowId, RowData>, drop: set<int>, inf: real)
    requires LaysOut(olay, v) && lay.cols == olay.cols && |lay.rows| <= |olay.rows|
    requires lay.rows == olay.rows[..|lay.rows|]
    requires forall i :: 0 <= i < |olay.rows| ==> (i in drop <==> |lay.rows| <= i)
    requires (forall r :: r in lay.rows <==> r in base) &&
        (forall r :: r in base ==> r in v.rows && base[r] == v.rows[r])
    ensures LaysOut(lay, v.(rows := base))
    ensures Rows(base, lay, inf) == WithoutPositions(Rows(v.rows, olay, inf), drop)
  {
    hide RowOf;
    PrefixLaysOut(olay.rows, lay.rows);
    WithoutTail(Rows(v.rows, olay, inf), |lay.rows|, drop);
    assert forall j :: 0 <= j < |lay.rows| ==> lay.rows[j] in lay.rows;
  }

  lemma PrefixLaysOut<Id(!new)>(all: seq<Id>, base: seq<Id>)
    requires Distinct(all) && |base| <= |all| && base == all[..|base|]
    ensures Distinct(base) && forall j :: 0 <= j < |base| ==> base[j] == all[j]
  {
  }

  lemma ShowsTailRowsDropped(
      h: Held, v: View, olay: Layout, lay: Layout, base: map<RowId, RowData>, drop: set<int>, inf: real, h': Held)
    requires Shows(h, v, olay, inf) && lay.cols == olay.cols && |lay.rows| <= |olay.rows|
    requires lay.rows == olay.rows[..|lay.rows|]
    requires forall i :: 0 <= i < |olay.rows| ==> (i in drop <==> |lay.rows| <= i)
    requires (forall r :: r in lay.rows <==> r in base) &&
        (forall r :: r in base ==> r in v.rows && base[r] == v.rows[r])
    requires Numbers(h'.rowMap, lay.rows) && h'.colMap == h.colMap && h'.native == WithoutRows(h.native, drop)
    ensures Shows(h', v.(rows := base), lay, inf)
  {
    RowsPrefix(v, olay, lay, base, drop, inf);
    hide LaysOut, Numbers;
    assert Closed(v.(rows := base));
    ShowsFrom(h', v.(rows := base), lay, h.native.sense, inf);
  }

  lemma ColumnsPrefix(
      v: View, olay: Layout, lay: Layout, base: map<VariableId, VariableData>, drop: set<int>, inf: real)
    requires LaysOut(olay, v) && lay.rows == olay.rows && |lay.cols| <= |olay.cols|
    requires lay.cols == olay.cols[..|lay.cols|]
    requires forall i :: 0 <= i < |olay.cols| ==> (i in drop <==> |lay.cols| <= i)
    requires (forall x :: x in lay.cols <==> x in base) &&
        (forall x :: x in base ==> x in v.variables && base[x] == v.variables[x])
    ensures LaysOut(lay, v.(variables := base))
    ensures Columns(base, lay.cols, inf) == WithoutPositions(Columns(v.variables, olay.cols, inf), drop)
  {
    hide ColumnOf;
    PrefixLaysOut(olay.cols, lay.cols);
    WithoutTail(Columns(v.variables, olay.cols, inf), |lay.cols|, drop);
    assert forall j :: 0 <= j < |lay.cols| ==> lay.cols[j] in lay.cols;
  }

  lemma RowsNarrowed(v: View, olay: Layout, lay: Layout, drop: set<int>, inf: real)
    requires LaysOut(olay, v) && lay.rows == olay.rows && |lay.cols| <= |olay.cols|
    requires lay.cols == olay.cols[..|lay.cols|]
    requires forall i :: 0 <= i < |olay.cols| ==> (i in drop <==> |lay.cols| <= i)
    ensures
      var p := Rows(v.rows, olay, inf);
      Rows(v.rows, lay, inf)
      == seq(|p|, j requires 0 <= j < |p| => p[j].(coefficients := WithoutPositions(p[j].coefficients, drop)))
  {
    forall j | 0 <= j < |lay.rows| {
      CellsPrefix(v.rows[lay.rows[j]].coefficients, olay.cols, lay.cols, drop);
    }
  }

  lemma ShowsTailColumnsDropped(
      h: Held, v: View, olay: Layout, lay: Layout, base: map<VariableId, VariableData>, drop: set<int>, inf: real,
      h': Held)
    requires Shows(h, v, olay, inf) && lay.rows == olay.rows && |lay.cols| <= |olay.cols|
    requires lay.cols == olay.cols[..|lay.cols|]
    requires forall i :: 0 <= i < |olay.cols| ==> (i in drop <==> |lay.cols| <= i)
    requires (forall x :: x in lay.cols <==> x in base) &&
        (forall x :: x in base ==> x in v.variables && base[x] == v.variables[x])
    requires Closed(v.(variables := base))
    requires Numbers(h'.colMap, lay.cols) && h'.rowMap == h.rowMap && h'.native == WithoutColumns(h.native, drop)
    ensures Shows(h', v.(variables := base), lay, inf)
  {
    ColumnsPrefix(v, olay, lay, base, drop, inf);
    RowsNarrowed(v, olay, lay, drop, inf);
    CellsPrefix(CostsOf(v.surface), olay.cols, lay.cols, drop);
    hide LaysOut, Numbers, Closed, Rows, Columns, CellsOf;
    ShowsFrom(h', v.(variables := base), lay, h.native.sense, inf);
  }

  /** Temporary rows, if any, are deleted; the session never had an index for them. */
  function RowsDeleted(h: Held, rec: OverlayRecord): Held {
    if |rec.addedRows| == 0 then h
    else h.(native := WithoutRows(h.native, IndexSet(NativeIndices(rec.addedRows))),
            rowMap := h.rowMap - AddedIds(rec.addedRows),
            caches := h.caches.(rowBounds := h.caches.rowBounds - AddedIds(rec.addedRows)))
  }

  function ColumnsDeleted(h: Held, rec: OverlayRecord): Held {
    if |rec.addedColumns| == 0 then h
    else h.(native := WithoutColumns(h.native, IndexSet(NativeIndices(rec.addedColumns))),
            colMap := h.colMap - AddedIds(rec.addedColumns),
            caches := h.caches.(varBounds := h.caches.varBounds - AddedIds(rec.addedColumns)))
  }

  /** The rows and the row caches are the base's again. */
  ghost predicate RowsRestored(
      h: Held, now: Model, m: Model, olay: Layout, lay: Layout, rec: OverlayRecord, inf: real)
  {
    && Shows(h, View(now.variables, m.rows, OverlaySurface(now)), Layout(olay.cols, lay.rows), inf)
    && h.caches == CachesOf(m, inf).(varBounds := VarBoundsOf(now.variables, inf), active := ActiveUser(now))
    && Appended(olay.cols, lay.cols, rec.addedColumns)
    && (forall v :: v in lay.cols <==> v in m.variables)
    && (forall v :: v in m.variables ==> v in now.variables && now.variables[v] == m.variables[v])
  }

  lemma RestoringEnds(om: Model, m: Model, now: Model, rec: OverlayRecord, inf: real)
    requires Restoring(om, m, now, rec, {}, {}, inf)
    ensures forall v :: v in m.variables ==> v in now.variables && now.variables[v] == m.variables[v]
    ensures forall r :: r in m.rows ==> r in now.rows && now.rows[r] == m.rows[r]
    ensures BaseRows(now, m) == m.rows
  {
  }

  lemma CachedAfterRestoring(s: Overlaid, now: Model, m: Model, inf: real)
    requires Cached(s, now, m, inf) && BaseRows(now, m) == m.rows
    ensures s.held.caches == CachesOf(m, inf).(varBounds := VarBoundsOf(now.variables, inf), active := ActiveUser(now))
    ensures s.held.caches.rowBounds.Keys == m.rows.Keys
  {
  }

  lemma RollbackDeletesRows(
      s: Overlaid, now: Model, om: Model, m: Model, olay: Layout, lay: Layout, rows: map<RowId, int>, inf: real)
    requires RollingBack(s, now, om, m, olay, lay, rows, {}, {}, inf)
    ensures InRange(NativeIndices(s.record.addedRows), |s.held.native.rows|)
    ensures RowsRestored(RowsDeleted(s.held, s.record), now, m, olay, lay, s.record, inf)
  {
    hide Restoring, WellFormed, CachesOf, Cached, OverlayShown;
    RestoringEnds(om, m, now, s.record, inf);
    CachedAfterRestoring(s, now, m, inf);
    OverlayShownMeasures(s, now, olay, rows, inf);
    AppendedIndices(olay.rows, lay.rows, s.record.addedRows);
    DistinctRows(s, now, olay, rows, inf);
    AppendedIds(olay.rows, lay.rows, s.record.addedRows);
    RowBoundsKeep(s.held, m, s.record, inf);
    RollbackShowsRows(s, now, m, olay, lay, rows, inf);
    hide Appended, Numbers;
  }

  lemma DistinctRows(s: Overlaid, om: Model, olay: Layout, rows: map<RowId, int>, inf: real)
    requires OverlayShown(s, om, olay, rows, inf)
    ensures Distinct(olay.rows)
  {
  }

  /** The session never indexed the temporary rows, so forgetting them changes no index. */
  lemma RowMapKeeps(s: Overlaid, m: Model, olay: Layout, lay: Layout)
    requires Placed(s, m, olay, lay) && Distinct(olay.rows)
    ensures Numbers(RowsDeleted(s.held, s.record).rowMap, lay.rows)
    ensures |lay.rows| <= |olay.rows| && lay.rows == olay.rows[..|lay.rows|]
    ensures |s.record.addedRows| == 0 ==> olay.rows == lay.rows
    ensures forall r :: r in lay.rows <==> r in m.rows
    ensures
      var drop := IndexSet(NativeIndices(s.record.addedRows));
      forall i :: 0 <= i < |olay.rows| ==> (i in drop <==> |lay.rows| <= i)
  {
    AppendedIndices(olay.rows, lay.rows, s.record.addedRows);
    AppendedIds(olay.rows, lay.rows, s.record.addedRows);
    assert s.held.rowMap - AddedIds(s.record.addedRows) == s.held.rowMap;
  }

  lemma RollbackShowsRows(
      s: Overlaid, now: Model, m: Model, olay: Layout, lay: Layout, rows: map<RowId, int>, inf: real)
    requires OverlayShown(s, now, olay, rows, inf) && Placed(s, m, olay, lay)
    requires forall r :: r in m.rows ==> r in now.rows && now.rows[r] == m.rows[r]
    ensures Shows(RowsDeleted(s.held, s.record), View(now.variables, m.rows, OverlaySurface(now)),
        Layout(olay.cols, lay.rows), inf)
  {
    DistinctRows(s, now, olay, rows, inf);
    RowMapKeeps(s, m, olay, lay);
    hide Placed, Shows, Numbers, Distinct, IndexSet, NativeIndices;
    var h, h' := s.held, RowsDeleted(s.held, s.record);
    if |s.record.addedRows| == 0 {
      ShowsSameRows(h.(rowMap := rows), OverlayView(now), olay, lay, m.rows, inf, h');
    } else {
      ShowsTailRowsDropped(
        h.(rowMap := rows), OverlayView(now), olay, Layout(olay.cols, lay.rows), m.rows,
        IndexSet(NativeIndices(s.record.addedRows)), inf, h');
    }
  }

  lemma RowBoundsKeep(h: Held, m: Model, rec: OverlayRecord, inf: real)
    requires h.caches.rowBounds.Keys == m.rows.Keys && AddedIds(rec.addedRows) !! m.rows.Keys
    ensures h.caches.rowBounds - AddedIds(rec.addedRows) == h.caches.rowBounds
  {
  }

  lemma ShowsSameRows(h: Held, v: View, olay: Layout, lay: Layout, base: map<RowId, RowData>, inf: real, h': Held)
    requires Shows(h, v, olay, inf) && olay.rows == lay.rows && Numbers(h'.rowMap, lay.rows)
    requires (forall r :: r in lay.rows <==> r in base) &&
        (forall r :: r in base ==> r in v.rows && base[r] == v.rows[r])
    requires h'.native == h.native && h'.colMap == h.colMap
    ensures Shows(h', v.(rows := base), Layout(olay.cols, lay.rows), inf)
  {
    assert v.rows == base;
  }

  /** Rows are restored and the base policy is shown again. */
  ghost predicate PolicyRestored(
      h: Held, now: Model, m: Model, olay: Layout, lay: Layout, rec: OverlayRecord, inf: real)
  {
    && Shows(h, View(now.variables, m.rows, SurfaceOf(m)), Layout(olay.cols, lay.rows), inf)
    && h.caches == CachesOf(m, inf).(varBounds := VarBoundsOf(now.variables, inf))
    && Appended(olay.cols, lay.cols, rec.addedColumns)
    && (forall v :: v in lay.cols <==> v in m.variables)
    && (forall v :: v in m.variables ==> v in now.variables && now.variables[v] == m.variables[v])
  }

  lemma RowsRestoredMeasures(h: Held, now: Model, m: Model, olay: Layout, lay: Layout, rec: OverlayRecord, inf: real)
    requires RowsRestored(h, now, m, olay, lay, rec, inf)
    ensures Numbers(h.colMap, olay.cols) && |h.native.cols| == |h.native.costs| == |olay.cols|
    ensures m.variables.Keys <= now.variables.Keys
  {
  }

  lemma RollbackProjectsPolicy(h: Held, now: Model, m: Model, olay: Layout, lay: Layout, rec: OverlayRecord, inf: real)
    requires RowsRestored(h, now, m, olay, lay, rec, inf) && WellFormed(m)
    ensures PolicyRestored(PolicyShown(h, m.policy), now, m, olay, lay, rec, inf)
  {
    hide Appended, WellFormed, Zeros, CellsOf, CostsWritten, VarBoundsOf, RowBoundsOf, UserVarsOf, UserRowsOf;
    NoCosts(olay.cols);
    RowsRestoredMeasures(h, now, m, olay, lay, rec, inf);
    PolicyIsCached(m, inf);
    PolicySurfaceFits(m, now);
    var v := View(now.variables, m.rows, OverlaySurface(now));
    if m.policy.Single? {
      ObjectiveIsCached(m, inf, m.policy.objective);
      PolicyShowsCells(h, m.policy.objective, olay.cols);
    }
    ShowsSurface(h, v, Layout(olay.cols, lay.rows), inf, SurfaceOf(m), PolicyShown(h, m.policy));
  }

  lemma PolicySurfaceFits(m: Model, now: Model)
    requires WellFormed(m) && m.variables.Keys <= now.variables.Keys
    ensures SurfaceOf(m).Some? ==> SurfaceOf(m).value.costs.Keys <= now.variables.Keys
    ensures Representable(m.policy) && (m.policy.Single? ==> m.policy.objective in m.objectives)
  {
  }

  lemma NumbersPrefix<Id(!new)>(m: map<Id, int>, all: seq<Id>, base: seq<Id>, gone: set<Id>)
    requires Numbers(m, all) && |base| <= |all| && base == all[..|base|]
    requires forall x :: x in gone <==> x in all && x !in base
    ensures Numbers(m - gone, base)
  {
    assert forall i :: 0 <= i < |base| ==> base[i] == all[i];
  }

  lemma ColumnMapRestored(h: Held, olay: Layout, lay: Layout, rec: OverlayRecord)
    requires Numbers(h.colMap, olay.cols) && Appended(olay.cols, lay.cols, rec.addedColumns)
    ensures Numbers(ColumnsDeleted(h, rec).colMap, lay.cols)
    ensures |lay.cols| <= |olay.cols| && lay.cols == olay.cols[..|lay.cols|]
    ensures |rec.addedColumns| == 0 ==> olay.cols == lay.cols
    ensures InRange(NativeIndices(rec.addedColumns), |olay.cols|)
    ensures
      var drop := IndexSet(NativeIndices(rec.addedColumns));
      forall i :: 0 <= i < |olay.cols| ==> (i in drop <==> |lay.cols| <= i)
  {
    AppendedIndices(olay.cols, lay.cols, rec.addedColumns);
    AppendedIds(olay.cols, lay.cols, rec.addedColumns);
    NumbersPrefix(h.colMap, olay.cols, lay.cols, AddedIds(rec.addedColumns));
  }

  lemma VarBoundsRestored(h: Held, now: Model, m: Model, olay: Layout, lay: Layout, rec: OverlayRecord, inf: real)
    requires PolicyRestored(h, now, m, olay, lay, rec, inf)
    ensures ColumnsDeleted(h, rec).caches == CachesOf(m, inf)
    ensures |rec.addedColumns| == 0 ==> now.variables == m.variables
  {
    AddedVariables(h, now, m, olay, lay, rec, inf);
    hide Shows, PolicyRestored, Appended, AddedIds, IndexSet;
    VarBoundsRestrict(now.variables, m.variables, AddedIds(rec.addedColumns), inf);
  }

  lemma AddedVariables(h: Held, now: Model, m: Model, olay: Layout, lay: Layout, rec: OverlayRecord, inf: real)
    requires PolicyRestored(h, now, m, olay, lay, rec, inf)
    ensures forall v :: v in AddedIds(rec.addedColumns) <==> v in now.variables && v !in m.variables
    ensures forall v :: v in m.variables ==> v in now.variables && now.variables[v] == m.variables[v]
    ensures h.caches == CachesOf(m, inf).(varBounds := VarBoundsOf(now.variables, inf))
    ensures |rec.addedColumns| == 0 ==> now.variables == m.variables
  {
    hide CachesOf, VarBoundsOf, Shows, Appended;
    ShownColumns(h, View(now.variables, m.rows, SurfaceOf(m)), Layout(olay.cols, lay.rows), inf);
    AppendedIds(olay.cols, lay.cols, rec.addedColumns);
    if |rec.addedColumns| == 0 {
      assert AddedIds(rec.addedColumns) == {};
      assert now.variables.Keys == m.variables.Keys;
    }
  }

  lemma ShownColumns(h: Held, v: View, lay: Layout, inf: real)
    requires Shows(h, v, lay, inf)
    ensures Distinct(lay.cols) && forall x :: x in lay.cols <==> x in v.variables
  {
  }

  /** Deleting the temporary columns completes the rollback: the base model is represented again. */
  lemma RollbackCompletes(h: Held, now: Model, m: Model, olay: Layout, lay: Layout, rec: OverlayRecord, inf: real)
    requires PolicyRestored(h, now, m, olay, lay, rec, inf) && WellFormed(m)
    ensures InRange(NativeIndices(rec.addedColumns), |h.native.cols|)
    ensures Represents(ColumnsDeleted(h, rec), m, lay, inf)
  {
    VarBoundsRestored(h, now, m, olay, lay, rec, inf);
    ColumnMapRestored(h, olay, lay, rec);
    WellFormedIsClosed(m);
    var v := View(now.variables, m.rows, SurfaceOf(m));
    assert ViewOf(m) == v.(variables := m.variables);
    PolicyRestoredMeasures(h, now, m, olay, lay, rec, inf);
    hide PolicyRestored, Shows, Numbers, WellFormed, Closed, SurfaceOf, IndexSet, NativeIndices;
    if |rec.addedColumns| == 0 {
      assert Layout(olay.cols, lay.rows) == lay;
    } else {
      ShowsTailColumnsDropped(
        h, v, Layout(olay.cols, lay.rows), lay, m.variables, IndexSet(NativeIndices(rec.addedColumns)), inf,
        ColumnsDeleted(h, rec));
    }
  }

  lemma PolicyRestoredMeasures(h: Held, now: Model, m: Model, olay: Layout, lay: Layout, rec: OverlayRecord, inf: real)
    requires PolicyRestored(h, now, m, olay, lay, rec, inf)
    ensures Shows(h, View(now.variables, m.rows, SurfaceOf(m)), Layout(olay.cols, lay.rows), inf)
    ensures |h.native.cols| == |olay.cols|
    ensures forall v :: v in lay.cols <==> v in m.variables
    ensures forall v :: v in m.variables ==> v in now.variables && now.variables[v] == m.variables[v]
  {
  }

  lemma WellFormedIsClosed(m: Model)
    requires WellFormed(m)
    ensures Closed(ViewOf(m))
  {
  }

  lemma VarBoundsRestrict(
      all: map<VariableId, VariableData>, base: map<VariableId, VariableData>, gone: set<VariableId>, inf: real)
    requires forall v :: v in base ==> v in all && all[v] == base[v]
    requires forall v :: v in gone <==> v in all && v !in base
    ensures VarBoundsOf(all, inf) - gone == VarBoundsOf(base, inf)
  {
  }
}
